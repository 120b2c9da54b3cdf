/**
  Promotion: `btrepl standalone` restores every subvolume from the newest complete snapshot that was
  received for it.
 */
module Standalone {
  import opened Wrappers
  import opened Snapshots
  import opened Protocol
  import opened Safety
  import opened Cycles
  import opened Theorems
  import R = Restore

  /** The search from the newest end, and the snapshots it reports as skipped, newest first. */
  method LatestReceived(snaps: seq<Snapshot>) returns (r: Option<Snapshot>, skipped: seq<Snapshot>)
    ensures r == NewestOf(snaps, ReceivedOne)
    ensures |skipped| <= |snaps| && forall k | 0 <= k < |skipped| ::
              skipped[k] == snaps[|snaps| - 1 - k] && !skipped[k].copy.Received()
    ensures r.Some? ==> |skipped| < |snaps| && r.value == snaps[|snaps| - 1 - |skipped|]
    ensures r.None? ==> |skipped| == |snaps|
  {
    skipped := [];
    var i := |snaps|;
    assert snaps[..i] == snaps;
    while i > 0
      invariant 0 <= i <= |snaps| && |skipped| == |snaps| - i
      invariant NewestOf(snaps, ReceivedOne) == NewestOf(snaps[..i], ReceivedOne)
      invariant forall k | 0 <= k < |skipped| :: skipped[k] == snaps[|snaps| - 1 - k] && !skipped[k].copy.Received()
    {
      i := i - 1;
      assert snaps[..i + 1][..i] == snaps[..i];
      if snaps[i].copy.Received() {
        return Some(snaps[i]), skipped;
      }
      skipped := skipped + [snaps[i]];
    }
    return None, skipped;
  }

  /* ---- one subvolume after the other ---- */

  /** The paths of each subvolume, and what happens to the commands. */
  datatype Disks = Disks(at: map<string, R.Fs>, tape: Tape)

  function At(disks: Disks, subvol: string): R.Fs {
    if subvol in disks.at then disks.at[subvol] else map[]
  }

  /** A subvolume with nothing to promote, or whose restore fails, is passed over. */
  function Promote(disks: Disks, d: Dir, subvol: string): Disks {
    match Promotable(d, subvol)
    case None => disks
    case Some(s) =>
      var r := R.RestoreFrom(At(disks, subvol), disks.tape, s.copy.uuid);
      Disks(disks.at[subvol := r.fs], r.tape)
  }

  function PromoteAll(disks: Disks, d: Dir, subvols: seq<string>): Disks
    decreases |subvols|
  {
    if subvols == [] then disks else PromoteAll(Promote(disks, d, subvols[0]), d, subvols[1..])
  }

  class Host {
    var disks: Disks

    constructor (disks: Disks)
      ensures this.disks == disks
    {
      this.disks := disks;
    }

    method Detach(d: Dir, subvols: seq<string>)
      modifies this
      ensures disks == PromoteAll(old(disks), d, subvols)
    {
      var i := 0;
      while i < |subvols|
        invariant 0 <= i <= |subvols|
        invariant PromoteAll(disks, d, subvols[i..]) == PromoteAll(old(disks), d, subvols)
      {
        var subvol := subvols[i];
        assert subvols[i..][1..] == subvols[i + 1..];
        var latest, _ := LatestReceived(Listing(d, subvol));
        if latest.Some? {
          var disk := new R.Disk(At(disks, subvol), disks.tape);
          var _, _ := disk.Restore(latest.value.copy.uuid);
          disks := Disks(disks.at[subvol := disk.fs], disk.tape);
        }
        i := i + 1;
      }
    }
  }

  /** What a path set is allowed to become when its subvolume is promoted, whatever fails. */
  ghost predicate PromotedSafely(d: Dir, subvol: string, fs: R.Fs, fs': R.Fs) {
    match Promotable(d, subvol)
    case None => fs' == fs
    case Some(s) => R.Safe(fs, fs', s.copy.uuid)
  }

  /** Whatever fails, and wherever it is cut off: no subvolume's data is lost, and no other is touched. */
  lemma {:induction false} DetachSafe(disks: Disks, d: Dir, subvols: seq<string>, subvol: string)
    requires Distinct(subvols)
    ensures var fs, fs' := At(disks, subvol), At(PromoteAll(disks, d, subvols), subvol);
            if subvol in subvols then PromotedSafely(d, subvol, fs, fs') else fs' == fs
    decreases |subvols|
  {
    if subvols != [] {
      var s := Promotable(d, subvols[0]);
      if s.Some? {
        R.CrashSafe(At(disks, subvols[0]), disks.tape, s.value.copy.uuid);
      }
      DetachSafe(Promote(disks, d, subvols[0]), d, subvols[1..], subvol);
    }
  }

  /** No plain directory is in the way of a clone, and no old name is taken. */
  predicate Clear(fs: R.Fs, t: Tape) {
    !R.Blocked(fs) && forall e | e in t.script :: R.Old(e.now) !in fs
  }

  /** When nothing fails, every subvolume with a complete received snapshot holds a clone of the newest. */
  lemma {:induction false} DetachPromotes(disks: Disks, d: Dir, subvols: seq<string>, subvol: string)
    requires Distinct(subvols) && R.DoneFor(disks.tape, 10 * |subvols|)
    requires forall v | v in subvols :: Clear(At(disks, v), disks.tape)
    requires subvol in subvols && Promotable(d, subvol).Some?
    ensures R.HoldsClone(At(PromoteAll(disks, d, subvols), subvol), Promotable(d, subvol).value.copy.uuid)
    decreases |subvols|
  {
    var v, rest, disks1 := subvols[0], subvols[1..], Promote(disks, d, subvols[0]);
    assert v in subvols && forall x | x in rest :: x in subvols && x != v;
    FirstPromoted(disks, d, v, 10 * |subvols|);
    if subvol == v {
      DetachSafe(disks1, d, rest, v);
    } else {
      forall x | x in rest ensures Clear(At(disks1, x), disks1.tape) {
        assert At(disks1, x) == At(disks, x);
      }
      DetachPromotes(disks1, d, rest, subvol);
    }
  }

  /** The turn of one subvolume: it is promoted, and there is enough left of the tape for the others. */
  lemma FirstPromoted(disks: Disks, d: Dir, v: string, n: nat)
    requires n >= 10 && R.DoneFor(disks.tape, n) && Clear(At(disks, v), disks.tape)
    ensures var disks1 := Promote(disks, d, v);
            && R.Leaves(disks.tape, disks1.tape, n - 10) && (forall x | x != v :: At(disks1, x) == At(disks, x))
            && (Promotable(d, v).Some? ==> R.HoldsClone(At(disks1, v), Promotable(d, v).value.copy.uuid))
  {
    if Promotable(d, v).Some? {
      R.CleanRestore(At(disks, v), disks.tape, Promotable(d, v).value.copy.uuid, n);
    }
  }

  /* ---- each subvolume by itself ---- */

  lemma {:induction false} PromoteLast(disks: Disks, d: Dir, subvols: seq<string>)
    requires subvols != []
    ensures var n := |subvols| - 1;
            PromoteAll(disks, d, subvols) == Promote(PromoteAll(disks, d, subvols[..n]), d, subvols[n])
    decreases |subvols|
  {
    var n := |subvols| - 1;
    if n > 0 {
      assert subvols[..n][0] == subvols[0] && subvols[..n][1..] == subvols[1..][..n - 1];
      PromoteLast(Promote(disks, d, subvols[0]), d, subvols[1..]);
    } else {
      assert subvols[1..] == [];
    }
  }

  /** What happens to the commands of subvolume `j`, whatever happened to those of the subvolumes before it. */
  function TapeOf(disks: Disks, d: Dir, subvols: seq<string>, j: nat): Tape
    requires j <= |subvols|
  {
    PromoteAll(disks, d, subvols[..j]).tape
  }

  /** Every subvolume with a complete copy has its restore, whatever became of those before it. */
  lemma {:induction false} EachRestored(disks: Disks, d: Dir, subvols: seq<string>, j: nat)
    requires Distinct(subvols) && j < |subvols|
    ensures var fs, v := At(disks, subvols[j]), subvols[j];
            At(PromoteAll(disks, d, subvols), v)
            == match Promotable(d, v)
               case None => fs
               case Some(s) => R.RestoreFrom(fs, TapeOf(disks, d, subvols, j), s.copy.uuid).fs
    decreases |subvols|
  {
    var n := |subvols| - 1;
    PromoteLast(disks, d, subvols);
    if j < n {
      var before := subvols[..n];
      assert before[..j] == subvols[..j] && before[j] == subvols[j];
      EachRestored(disks, d, before, j);
    } else {
      DetachSafe(disks, d, subvols[..n], subvols[n]);
    }
  }

  /** A subvolume with a complete copy whose own ten commands work holds its clone in the end. */
  lemma OwnTurnPromotes(disks: Disks, d: Dir, subvols: seq<string>, j: nat)
    requires Distinct(subvols) && j < |subvols| && Promotable(d, subvols[j]).Some?
    requires !R.Blocked(At(disks, subvols[j]))
    requires var t := TapeOf(disks, d, subvols, j);
             forall i | 0 <= i < 10 :: DoneAt(t, i) && R.Old(EventAt(t, i).now) !in At(disks, subvols[j])
    ensures R.HoldsClone(At(PromoteAll(disks, d, subvols), subvols[j]), Promotable(d, subvols[j]).value.copy.uuid)
  {
    EachRestored(disks, d, subvols, j);
    R.OwnCommandsWork(At(disks, subvols[j]), TapeOf(disks, d, subvols, j),
      Promotable(d, subvols[j]).value.copy.uuid);
  }

  /* ---- after a run ---- */

  /** The subvolume's target holds a clone of a complete copy that is not older than `time`. */
  ghost predicate PromotedTo(disks: Disks, d: Dir, subvols: seq<string>, subvol: string, time: int) {
    exists n :: n in d && n.subvol == subvol && d[n].Received() && time <= n.time
                && R.HoldsClone(At(PromoteAll(disks, d, subvols), subvol), d[n].uuid)
  }

  lemma CleanPromotion(disks: Disks, d: Dir, subvols: seq<string>, subvol: string)
    requires Distinct(subvols) && R.DoneFor(disks.tape, 10 * |subvols|)
    requires forall v | v in subvols :: Clear(At(disks, v), disks.tape)
    requires subvol in subvols && Promotable(d, subvol).Some?
    ensures PromotedTo(disks, d, subvols, subvol, Promotable(d, subvol).value.name.time)
  {
    DetachPromotes(disks, d, subvols, subvol);
    NewestOfIsNewest(Listing(d, subvol), ReceivedOne);
    assert Promotable(d, subvol).value in Listing(d, subvol);
  }

  /**
    The point of the whole: whatever happened in the cycles since, a slave that once had a complete
    copy of a subvolume is promoted, when the promotion itself does not fail, to a copy that is
    complete and at least as new.
   */
  lemma PromotionAfterAnyRun(cfg: Config, w: World, scripts: seq<seq<Event>>, slave: string, disks: Disks,
                             subvols: seq<string>, subvol: string)
    requires Inv(cfg, w) && ValidConfig(cfg) && slave in w.remote && Promotable(w.remote[slave], subvol).Some?
    requires Distinct(subvols) && subvol in subvols && R.DoneFor(disks.tape, 10 * |subvols|)
    requires forall v | v in subvols :: Clear(At(disks, v), disks.tape)
    ensures PromotedTo(disks, Run(cfg, w, scripts).remote[slave], subvols, subvol,
              Promotable(w.remote[slave], subvol).value.name.time)
  {
    PromotableNeverLost(cfg, w, scripts, slave, subvol);
    CleanPromotion(disks, Run(cfg, w, scripts).remote[slave], subvols, subvol);
  }
}
