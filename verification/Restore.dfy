/**
  Promoting a snapshot: the swap of `Manager.Restore`, one file operation at a time.

  As in module Protocol every operation takes an event off a tape, and a tape that has run out is a
  crash: nothing changes any more. Renames and stats report truthfully. A btrfs command may take
  effect and still be reported as failed (Hidden). `btrfs subvolume show` may answer (Done), fail,
  which reads as "no subvolume" (Refused), or not be runnable at all (Hidden, Partial).
 */
module Restore {
  import opened Wrappers
  import opened Protocol

  /** What a path holds: the data that was there from the start, or the clone of a snapshot. */
  datatype Data = Original(id: nat) | Clone(snap: nat)

  datatype Node = Node(data: Data, subvolume: bool)

  /** The subvolume's own path, the path the clone is made at, and the paths old data is moved to. */
  datatype Slot = Target | New | Old(stamp: int)

  type Fs = map<Slot, Node>

  /** After a call: the disk, the tape, the path returned as kept, and whether an error was returned. */
  datatype Result = Result(fs: Fs, tape: Tape, kept: Option<Slot>, failed: bool)

  /* ---- the operations ---- */

  predicate Unrunnable(o: Outcome) {
    o.Hidden? || o.Partial?
  }

  predicate IsSubvolume(fs: Fs, p: Slot, o: Outcome) {
    o.Done? && p in fs && fs[p].subvolume
  }

  /** DeleteSubvolume: deletes `p` if it is shown to be a subvolume; true means an error. */
  function Delete(fs: Fs, t: Tape, p: Slot): (Fs, Tape, bool) {
    var (show, t1) := Next(t);
    if Unrunnable(show.outcome) then (fs, t1, true)
    else if !IsSubvolume(fs, p, show.outcome) then (fs, t1, false)
    else
      var (del, t2) := Next(t1);
      (if Takes(del.outcome) then fs - {p} else fs, t2, !del.outcome.Done?)
  }

  /** os.Rename: does nothing and fails if `b` exists. */
  function Rename(fs: Fs, t: Tape, a: Slot, b: Slot): (Fs, Tape, bool)
    requires a in fs
  {
    var (e, t1) := Next(t);
    if e.outcome.Done? && b !in fs then ((fs - {a})[b := fs[a]], t1, false) else (fs, t1, true)
  }

  /** Gives up with an error, after trying to remove the clone. */
  function GiveUp(fs: Fs, t: Tape): Result {
    var (fs1, t1, _) := Delete(fs, t, New);
    Result(fs1, t1, None, true)
  }

  /** Clears the way and makes the clone; true means an error. */
  function Prepare(fs: Fs, t: Tape, snap: nat): (r: (Fs, Tape, bool))
    ensures !r.2 ==> New in r.0
  {
    var (fs1, t1, bad) := Delete(fs, t, New);
    var (stat, t2) := Next(t1);
    if bad then (fs1, t1, true)
    else if !stat.outcome.Done? || New in fs1 then (fs1, t2, true)
    else
      var (clone, t3) := Next(t2);
      (if Takes(clone.outcome) then fs1[New := Node(Clone(snap), true)] else fs1, t3, !clone.outcome.Done?)
  }

  function RestoreFrom(fs: Fs, t: Tape, snap: nat): Result {
    var (fs1, t1, bad) := Prepare(fs, t, snap);
    if bad then Result(fs1, t1, None, true) else MoveAside(fs1, t1)
  }

  function MoveAside(fs: Fs, t: Tape): Result
    requires New in fs
  {
    var (stat, t1) := Next(t);
    if !stat.outcome.Done? then GiveUp(fs, t1)
    else if Target !in fs then SwapIn(fs, t1, None)
    else
      var aside := Old(Next(t1).0.now);
      var (fs1, t2, bad) := Rename(fs, t1, Target, aside);
      if bad then GiveUp(fs1, t2) else SwapIn(fs1, t2, Some(aside))
  }

  /** What becomes of the old data after the clone went to the target. */
  function DropOld(fs: Fs, t: Tape, aside: Slot): Result {
    var (show, t1) := Next(t);
    if !IsSubvolume(fs, aside, show.outcome) then Result(fs, t1, Some(aside), false)
    else
      var (fs2, t2, kept) := Delete(fs, t1, aside);
      Result(fs2, t2, if kept then Some(aside) else None, false)
  }

  function SwapIn(fs: Fs, t: Tape, aside: Option<Slot>): Result
    requires New in fs && (aside.Some? ==> aside.value in fs)
  {
    var (fs1, t1, bad) := Rename(fs, t, New, Target);
    if bad then
      if aside.None? then GiveUp(fs1, t1)
      else
        var (fs2, t2, lost) := Rename(fs1, t1, aside.value, Target);
        if lost then Result(fs2, t2, aside, true) else GiveUp(fs2, t2)
    else if aside.None? then Result(fs1, t1, None, false)
    else DropOld(fs1, t1, aside.value)
  }

  /* ---- the manager's disk ---- */

  class Disk {
    var fs: Fs
    var tape: Tape

    constructor (fs: Fs, tape: Tape)
      ensures this.fs == fs && this.tape == tape
    {
      this.fs, this.tape := fs, tape;
    }

    method Command() returns (e: Event)
      modifies this`tape
      ensures (e, tape) == Next(old(tape))
    {
      var (event, t) := Next(tape);
      e, tape := event, t;
    }

    method DeleteSubvolume(p: Slot) returns (failed: bool)
      modifies this
      ensures (fs, tape, failed) == Delete(old(fs), old(tape), p)
    {
      var show := Command();
      if Unrunnable(show.outcome) {
        return true;
      }
      if !IsSubvolume(fs, p, show.outcome) {
        return false;
      }
      var del := Command();
      if Takes(del.outcome) {
        fs := fs - {p};
      }
      return !del.outcome.Done?;
    }

    method Move(a: Slot, b: Slot) returns (failed: bool)
      requires a in fs
      modifies this
      ensures (fs, tape, failed) == Rename(old(fs), old(tape), a, b)
    {
      var e := Command();
      if e.outcome.Done? && b !in fs {
        fs := (fs - {a})[b := fs[a]];
        return false;
      }
      return true;
    }

    method Restore(snap: nat) returns (kept: Option<Slot>, failed: bool)
      modifies this
      ensures Result(fs, tape, kept, failed) == RestoreFrom(old(fs), old(tape), snap)
    {
      var bad := DeleteSubvolume(New);
      if bad {
        return None, true;
      }
      var stat := Command();
      if !stat.outcome.Done? || New in fs {
        return None, true;
      }
      var clone := Command();
      if Takes(clone.outcome) {
        fs := fs[New := Node(Clone(snap), true)];
      }
      if !clone.outcome.Done? {
        return None, true;
      }
      var aside: Option<Slot> := None;
      stat := Command();
      if !stat.outcome.Done? {
        var _ := DeleteSubvolume(New);
        return None, true;
      }
      if Target in fs {
        aside := Some(Old(Next(tape).0.now));
        bad := Move(Target, aside.value);
        if bad {
          var _ := DeleteSubvolume(New);
          return None, true;
        }
      }
      bad := Move(New, Target);
      if bad {
        if aside.Some? {
          bad := Move(aside.value, Target);
          if bad {
            return aside, true;
          }
        }
        var _ := DeleteSubvolume(New);
        return None, true;
      }
      if aside.None? {
        return None, false;
      }
      var show := Command();
      if !IsSubvolume(fs, aside.value, show.outcome) {
        return aside, false;
      }
      bad := DeleteSubvolume(aside.value);
      return if bad then aside else None, false;
    }
  }

  /* ---- crash safety ---- */

  /** The two disks hold the same at every path outside `ps`. */
  ghost predicate Agree(fs: Fs, fs': Fs, ps: set<Slot>) {
    && (forall q | q in fs && q !in ps :: q in fs' && fs'[q] == fs[q])
    && (forall q | q in fs' && q !in ps :: q in fs)
  }

  /** The path holds in `fs'` what it held in `fs`, or nothing in both. */
  predicate Same(fs: Fs, fs': Fs, p: Slot) {
    (p in fs <==> p in fs') && (p in fs ==> fs'[p] == fs[p])
  }

  predicate HoldsClone(fs: Fs, snap: nat) {
    Target in fs && fs[Target] == Node(Clone(snap), true)
  }

  /** What is at an old path stays there. */
  ghost predicate OldsStay(fs: Fs, fs': Fs) {
    forall p: Slot | p.Old? && p in fs :: p in fs' && fs'[p] == fs[p]
  }

  /** What was at the target is intact at `p`, an old path that was free. */
  predicate MovedTo(fs: Fs, fs': Fs, p: Slot) {
    Target in fs && p.Old? && p !in fs && p in fs' && fs'[p] == fs[Target]
  }

  /** No command took effect and was reported as failed. */
  predicate Honest(t: Tape) {
    forall e | e in t.script :: !e.outcome.Hidden?
  }

  /**
    What a call leaves and what it says about it. With an error, the target is as it was and no path
    is returned, or the target is empty and its data is intact at the returned path. Without, the
    target holds the clone; a returned path holds the old data, unless a delete of it took effect and
    was reported as failed.
   */
  ghost predicate Accounted(fs: Fs, honest: bool, r: Result, snap: nat) {
    && OldsStay(fs, r.fs)
    && (r.failed && r.kept.None? ==> Same(fs, r.fs, Target))
    && (r.failed && r.kept.Some? ==> Target !in r.fs && MovedTo(fs, r.fs, r.kept.value))
    && (!r.failed ==> HoldsClone(r.fs, snap))
    && (!r.failed && r.kept.Some? ==>
          MovedTo(fs, r.fs, r.kept.value) || (!honest && Target in fs && r.kept.value !in r.fs))
  }

  lemma HonestNext(t: Tape)
    ensures Honest(t) ==> Honest(Next(t).1) && !Next(t).0.outcome.Hidden?
  {
    if t.script != [] {
      assert t.script[0] in t.script;
    }
  }

  lemma DeleteOnly(fs: Fs, t: Tape, p: Slot)
    ensures Agree(fs, Delete(fs, t, p).0, {p})
    ensures p in Delete(fs, t, p).0 ==> Delete(fs, t, p).0 == fs
    ensures Honest(t) ==> Honest(Delete(fs, t, p).1) && (Delete(fs, t, p).2 ==> Delete(fs, t, p).0 == fs)
  {
    HonestNext(t);
    HonestNext(Next(t).1);
  }

  lemma GiveUpAccounted(fs: Fs, fs1: Fs, t1: Tape, honest: bool, snap: nat)
    requires Agree(fs, fs1, {New})
    ensures Accounted(fs, honest, GiveUp(fs1, t1), snap)
  {
    DeleteOnly(fs1, t1, New);
  }

  lemma SwapInAccounted(fs: Fs, fs1: Fs, t1: Tape, honest: bool, snap: nat)
    requires Agree(fs, fs1, {New}) && Target !in fs && New in fs1 && fs1[New] == Node(Clone(snap), true)
    ensures Accounted(fs, honest, SwapIn(fs1, t1, None), snap)
  {
    var (fs2, t2, bad) := Rename(fs1, t1, New, Target);
    if bad {
      GiveUpAccounted(fs, fs2, t2, honest, snap);
    }
  }

  lemma SwapAccounted(fs: Fs, fs1: Fs, t1: Tape, aside: Slot, snap: nat)
    requires New in fs1 && fs1[New] == Node(Clone(snap), true) && Target !in fs1
    requires MovedTo(fs, fs1, aside) && Agree(fs, fs1, {New, Target, aside})
    ensures Accounted(fs, Honest(t1), SwapIn(fs1, t1, Some(aside)), snap)
  {
    var (fs2, t2, bad) := Rename(fs1, t1, New, Target);
    HonestNext(t1);
    if bad {
      BackAccounted(fs, fs2, t2, Honest(t1), aside, snap);
    } else {
      OldAccounted(fs, fs2, t2, aside, snap);
    }
  }

  lemma OldAccounted(fs: Fs, fs1: Fs, t1: Tape, aside: Slot, snap: nat)
    requires HoldsClone(fs1, snap) && MovedTo(fs, fs1, aside) && Agree(fs, fs1, {New, Target, aside})
    ensures Accounted(fs, Honest(t1), DropOld(fs1, t1, aside), snap)
  {
    HonestNext(t1);
    DeleteOnly(fs1, Next(t1).1, aside);
  }

  /** The clone did not go to the target, so the old data goes back, or stays where it is. */
  lemma BackAccounted(fs: Fs, fs1: Fs, t1: Tape, honest: bool, aside: Slot, snap: nat)
    requires Target !in fs1 && MovedTo(fs, fs1, aside) && Agree(fs, fs1, {New, Target, aside})
    ensures var (fs2, t2, lost) := Rename(fs1, t1, aside, Target);
            Accounted(fs, honest, if lost then Result(fs2, t2, Some(aside), true) else GiveUp(fs2, t2), snap)
  {
    var (fs2, t2, lost) := Rename(fs1, t1, aside, Target);
    if !lost {
      GiveUpAccounted(fs, fs2, t2, honest, snap);
    }
  }

  lemma MoveAsideAccounted(fs: Fs, fs1: Fs, t1: Tape, snap: nat)
    requires Agree(fs, fs1, {New}) && New in fs1 && fs1[New] == Node(Clone(snap), true)
    ensures Accounted(fs, Honest(t1), MoveAside(fs1, t1), snap)
  {
    var (stat, t2) := Next(t1);
    HonestNext(t1);
    if !stat.outcome.Done? {
      GiveUpAccounted(fs, fs1, t2, Honest(t1), snap);
    } else if Target !in fs1 {
      SwapInAccounted(fs, fs1, t2, Honest(t1), snap);
    } else {
      var aside := Old(Next(t2).0.now);
      var (fs3, t3, stuck) := Rename(fs1, t2, Target, aside);
      HonestNext(t2);
      if stuck {
        GiveUpAccounted(fs, fs3, t3, Honest(t1), snap);
      } else {
        SwapAccounted(fs, fs3, t3, aside, snap);
      }
    }
  }

  lemma PrepareOnly(fs: Fs, t: Tape, snap: nat)
    ensures var (fs1, t1, bad) := Prepare(fs, t, snap);
            && Agree(fs, fs1, {New}) && (!bad ==> fs1[New] == Node(Clone(snap), true))
            && (Honest(t) ==> Honest(t1))
  {
    var (_, t1, _) := Delete(fs, t, New);
    DeleteOnly(fs, t, New);
    HonestNext(t1);
    HonestNext(Next(t1).1);
  }

  /** The account holds of every call, at whatever point it was cut off. */
  lemma RestoreAccounted(fs: Fs, t: Tape, snap: nat)
    ensures Accounted(fs, Honest(t), RestoreFrom(fs, t, snap), snap)
  {
    PrepareOnly(fs, t, snap);
    var (fs1, t1, bad) := Prepare(fs, t, snap);
    if !bad {
      MoveAsideAccounted(fs, fs1, t1, snap);
    }
  }

  /** The target holds what it held, or the clone, or it is empty and what it held is intact at an old path. */
  ghost predicate Safe(fs: Fs, fs': Fs, snap: nat) {
    && OldsStay(fs, fs')
    && (Same(fs, fs', Target) || HoldsClone(fs', snap) || (Target !in fs' && exists p :: MovedTo(fs, fs', p)))
  }

  /** Crash safety of one call: it is so at every moment. */
  lemma CrashSafe(fs: Fs, t: Tape, snap: nat)
    ensures Safe(fs, RestoreFrom(fs, t, snap).fs, snap)
  {
    RestoreAccounted(fs, t, snap);
  }

  /* ---- what a returned empty path does not say ---- */

  lemma SecondShow(fs: Fs, t: Tape, aside: Slot)
    requires New in fs && Target !in fs && aside.Old? && aside in fs
    requires !SwapIn(fs, t, Some(aside)).failed && SwapIn(fs, t, Some(aside)).kept.None?
    ensures var fs' := SwapIn(fs, t, Some(aside)).fs;
            && (aside in fs' ==> fs'[aside] == fs[aside])
            && (aside in fs' <==> |t.script| <= 2 || t.script[2].outcome.Refused?)
            && Agree(fs, fs', {New, Target, aside})
  {
    var t1 := Next(t).1;
    assert |t.script| <= 2 || t.script[2] == t1.script[1] == Next(Next(t1).1).0;
  }

  lemma PrepareEvents(fs: Fs, t: Tape, snap: nat)
    requires !Prepare(fs, t, snap).2
    ensures var k := if New in fs then 4 else 3;
            |t.script| >= k && Prepare(fs, t, snap).1 == t.(script := t.script[k..])
  {
    var (_, t1, _) := Delete(fs, t, New);
    if New in fs {
      assert t1.script == t.script[1..][1..] == t.script[2..];
    }
    assert t1.script[1..][1..] == t1.script[2..];
  }

  /**
    A call that succeeds and returns no path has deleted the old data, except in one case: the second
    `subvolume show` of the old path, the one DeleteSubvolume makes, failed. That reads as "nothing
    there", and the old data stays at a path nobody is told of.
   */
  lemma LeftUnreported(fs: Fs, t: Tape, snap: nat)
    requires Target in fs
    requires !RestoreFrom(fs, t, snap).failed && RestoreFrom(fs, t, snap).kept.None?
    ensures var k := if New in fs then 8 else 7;
            (exists p :: MovedTo(fs, RestoreFrom(fs, t, snap).fs, p))
            <==> (|t.script| <= k || t.script[k].outcome.Refused?)
  {
    PrepareOnly(fs, t, snap);
    PrepareEvents(fs, t, snap);
    var (fs1, t1, _) := Prepare(fs, t, snap);
    var t2 := Next(t1).1;
    var aside := Old(Next(t2).0.now);
    var (fs3, t3, bad) := Rename(fs1, t2, Target, aside);
    assert !bad && RestoreFrom(fs, t, snap) == SwapIn(fs3, t3, Some(aside));
    SecondShow(fs3, t3, aside);
    assert t3.script == t1.script[1..][1..] == t1.script[2..];
    OnlyAside(fs, fs3, RestoreFrom(fs, t, snap).fs, aside);
  }

  /** The old data can be at no other old path than the one it was moved to. */
  lemma OnlyAside(fs: Fs, fs1: Fs, fs2: Fs, aside: Slot)
    requires Target in fs && aside.Old? && aside !in fs && aside in fs1 && fs1[aside] == fs[Target]
    requires Agree(fs, fs1, {New, Target, aside}) && Agree(fs1, fs2, {New, Target, aside})
    requires aside in fs2 ==> fs2[aside] == fs1[aside]
    ensures (exists p :: MovedTo(fs, fs2, p)) <==> aside in fs2
  {
    assert aside in fs2 ==> MovedTo(fs, fs2, aside);
  }

  /** It happens: everything works but the last `show`, and the old data stays at a path that is not returned. */
  lemma UnreportedHappens(id: nat, snap: nat)
    ensures var fs: Fs := map[Target := Node(Original(id), true)];
            var done, no := Event(Done, 0), Event(Refused, 0);
            var r := RestoreFrom(fs, Tape([done, done, done, done, done, done, done, no], false), snap);
            !r.failed && r.kept.None? && Old(0) in r.fs && r.fs[Old(0)] == fs[Target]
  {
    var fs: Fs := map[Target := Node(Original(id), true)];
    var done, no := Event(Done, 0), Event(Refused, 0);
    var t := Tape([done, done, done, done, done, done, done, no], false);
    assert Delete(fs, t, New) == (fs, Next(t).1, false);
    var tail := [done, done, done, done, no];
    assert t.script[1..][1..][1..] == tail;
    assert Prepare(fs, t, snap) == (fs[New := Node(Clone(snap), true)], Tape(tail, false), false);
    var (fs1, t1, _) := Prepare(fs, t, snap);
    assert Next(t1).1.script == [done, done, done, no];
    var (fs2, t2, bad) := Rename(fs1, Next(t1).1, Target, Old(0));
    assert !bad && t2.script == [done, done, no];
    SwapUnreported(fs2, t2, done, no);
  }

  lemma SwapUnreported(fs: Fs, t: Tape, done: Event, no: Event)
    requires New in fs && Target !in fs && Old(0) in fs && fs[Old(0)].subvolume
    requires done.outcome.Done? && no.outcome.Refused? && t == Tape([done, done, no], false)
    ensures var r := SwapIn(fs, t, Some(Old(0)));
            !r.failed && r.kept.None? && Old(0) in r.fs && r.fs[Old(0)] == fs[Old(0)]
  {
    var (fs1, t1, bad) := Rename(fs, t, New, Target);
    assert !bad && t1.script == [done, no] && Next(t1).1.script == [no];
  }

  /* ---- when the target is left empty ---- */

  /** The clone is made: a leftover subvolume is deleted first, a leftover directory is in the way. */
  predicate Prepared(fs: Fs, t: Tape) {
    if New in fs then fs[New].subvolume && DoneAt(t, 0) && DoneAt(t, 1) && DoneAt(t, 2) && DoneAt(t, 3)
    else !Unrunnable(EventAt(t, 0).outcome) && DoneAt(t, 1) && DoneAt(t, 2)
  }

  lemma PreparedExactly(fs: Fs, t: Tape, snap: nat)
    ensures !Prepare(fs, t, snap).2 <==> Prepared(fs, t)
  {
    var t1 := Next(t).1;
    var t2 := Next(t1).1;
    NextIsFirst(t);
    NextIsFirst(t1);
    NextIsFirst(t2);
    NextIsFirst(Next(t2).1);
  }

  /** Moving aside and into place leaves the target empty exactly if the first rename works and the next two fail. */
  lemma EmptiedByRenames(fs: Fs, t: Tape)
    requires New in fs && Target in fs
    ensures Target !in MoveAside(fs, t).fs
            <==> DoneAt(t, 0) && DoneAt(t, 1) && Old(EventAt(t, 1).now) !in fs && !DoneAt(t, 2) && !DoneAt(t, 3)
  {
    var t1 := Next(t).1;
    NextIsFirst(t);
    NextIsFirst(t1);
    if !DoneAt(t, 0) {
      DeleteOnly(fs, t1, New);
    } else {
      var aside := Old(Next(t1).0.now);
      var (fs2, t2, stuck) := Rename(fs, t1, Target, aside);
      if stuck {
        DeleteOnly(fs2, t2, New);
      } else {
        EmptiedBySwap(fs2, t2, aside);
      }
    }
  }

  lemma EmptiedBySwap(fs: Fs, t: Tape, aside: Slot)
    requires New in fs && Target !in fs && aside.Old? && aside in fs
    ensures Target !in SwapIn(fs, t, Some(aside)).fs <==> !DoneAt(t, 0) && !DoneAt(t, 1)
  {
    var (fs1, t1, bad) := Rename(fs, t, New, Target);
    NextIsFirst(t);
    if bad {
      var (fs2, t2, lost) := Rename(fs1, t1, aside, Target);
      if !lost {
        DeleteOnly(fs2, t2, New);
      }
    } else {
      DeleteOnly(fs1, Next(t1).1, aside);
    }
  }

  /**
    "A failure at any step leaves the existing subvolume in place" fails exactly when the clone was made, the
    target was moved aside to a free name, and both the rename of the clone and the one back fail, or the call
    is cut off there. In every other call the target exists at the end.
   */
  lemma TargetEmptiedExactly(fs: Fs, t: Tape, snap: nat)
    requires Target in fs
    ensures var k := if New in fs then 4 else 3;
            Target !in RestoreFrom(fs, t, snap).fs
            <==> Prepared(fs, t) && DoneAt(t, k) && DoneAt(t, k + 1) && Old(EventAt(t, k + 1).now) !in fs
                 && !DoneAt(t, k + 2) && !DoneAt(t, k + 3)
  {
    PreparedExactly(fs, t, snap);
    PrepareOnly(fs, t, snap);
    var (fs1, t1, bad) := Prepare(fs, t, snap);
    if !bad {
      PrepareEvents(fs, t, snap);
      var k := if New in fs then 4 else 3;
      assert forall i: nat :: EventAt(t1, i) == EventAt(t, k + i);
      EmptiedByRenames(fs1, t1);
    }
  }

  /** Once the clone is made, when a call succeeds without a path: the swap worked and the old data was a subvolume. */
  lemma EmptyPathOfRenames(fs: Fs, t: Tape)
    requires New in fs && Target in fs
    ensures !MoveAside(fs, t).failed && MoveAside(fs, t).kept.None?
            <==> DoneAt(t, 0) && DoneAt(t, 1) && Old(EventAt(t, 1).now) !in fs && DoneAt(t, 2) && fs[Target].subvolume
                 && DoneAt(t, 3) && (EventAt(t, 4).outcome.Refused? || (DoneAt(t, 4) && DoneAt(t, 5)))
  {
    var t1 := Next(t).1;
    NextIsFirst(t);
    NextIsFirst(t1);
    if DoneAt(t, 0) {
      var aside := Old(Next(t1).0.now);
      var (fs2, t2, stuck) := Rename(fs, t1, Target, aside);
      if !stuck {
        EmptyPathOfSwap(fs2, t2, aside);
      }
    }
  }

  lemma EmptyPathOfSwap(fs: Fs, t: Tape, aside: Slot)
    requires New in fs && Target !in fs && aside.Old? && aside in fs
    ensures !SwapIn(fs, t, Some(aside)).failed && SwapIn(fs, t, Some(aside)).kept.None?
            <==> DoneAt(t, 0) && fs[aside].subvolume && DoneAt(t, 1)
                 && (EventAt(t, 2).outcome.Refused? || (DoneAt(t, 2) && DoneAt(t, 3)))
  {
    var t1 := Next(t).1;
    var t2 := Next(t1).1;
    NextIsFirst(t);
    NextIsFirst(t1);
    NextIsFirst(t2);
  }

  /**
    "Returns the path of old data it could not delete" fails exactly when the swap worked, the old data was
    a subvolume and was shown to be one, and the second `show` of it, the one DeleteSubvolume makes, failed,
    or the call is cut off there.
   */
  lemma UnreportedExactly(fs: Fs, t: Tape, snap: nat)
    requires Target in fs
    ensures var r, k := RestoreFrom(fs, t, snap), if New in fs then 4 else 3;
            !r.failed && r.kept.None? && (exists p :: MovedTo(fs, r.fs, p))
            <==> Prepared(fs, t) && DoneAt(t, k) && DoneAt(t, k + 1) && Old(EventAt(t, k + 1).now) !in fs
                 && DoneAt(t, k + 2) && fs[Target].subvolume && DoneAt(t, k + 3)
                 && EventAt(t, k + 4).outcome.Refused?
  {
    PreparedExactly(fs, t, snap);
    PrepareOnly(fs, t, snap);
    var (fs1, t1, bad) := Prepare(fs, t, snap);
    if !bad {
      PrepareEvents(fs, t, snap);
      var k := if New in fs then 4 else 3;
      assert forall i: nat :: EventAt(t1, i) == EventAt(t, k + i);
      EmptyPathOfRenames(fs1, t1);
      if !RestoreFrom(fs, t, snap).failed && RestoreFrom(fs, t, snap).kept.None? {
        LeftUnreported(fs, t, snap);
      }
    }
  }

  /** It does fail: one subvolume, five commands that work, and two renames that do not. */
  lemma FailureEmptiesTarget(id: nat, snap: nat)
    ensures var fs: Fs := map[Target := Node(Original(id), true)];
            var done, no := Event(Done, 0), Event(Refused, 0);
            var r := RestoreFrom(fs, Tape([done, done, done, done, done, no, no], false), snap);
            r.failed && Target !in r.fs && r.kept == Some(Old(0)) && r.fs[Old(0)] == fs[Target]
  {
    var fs: Fs := map[Target := Node(Original(id), true)];
    var done, no := Event(Done, 0), Event(Refused, 0);
    var t := Tape([done, done, done, done, done, no, no], false);
    PreparedExactly(fs, t, snap);
    PrepareEvents(fs, t, snap);
    var (fs1, t1, _) := Prepare(fs, t, snap);
    assert t1.script == [done, done, no, no];
    assert Next(t1).1.script == [done, no, no];
    var (fs2, t2, stuck) := Rename(fs1, Next(t1).1, Target, Old(0));
    assert !stuck && t2.script == [no, no];
    assert Next(t2).1.script == [no];
  }

  /* ---- every call, command by command ---- */

  /** What is left at the clone's path by a preparation that is an error. */
  function Unprepared(fs: Fs, t: Tape, snap: nat): Fs {
    if New in fs && fs[New].subvolume && DoneAt(t, 0) then
      if !Takes(EventAt(t, 1).outcome) then fs
      else if DoneAt(t, 1) && DoneAt(t, 2) && Takes(EventAt(t, 3).outcome) then fs[New := Node(Clone(snap), true)]
      else fs - {New}
    else if New !in fs && !Unrunnable(EventAt(t, 0).outcome) && DoneAt(t, 1) && Takes(EventAt(t, 2).outcome) then
      fs[New := Node(Clone(snap), true)]
    else fs
  }

  /** The command that a call ends in failure at, once the clone is made at command `k`; None if it succeeds. */
  function FailsAt(fs: Fs, t: Tape, k: nat): Option<nat> {
    if !DoneAt(t, k) then Some(k)
    else if Target !in fs then if DoneAt(t, k + 1) then None else Some(k + 1)
    else if !DoneAt(t, k + 1) || Old(EventAt(t, k + 1).now) in fs then Some(k + 1)
    else if DoneAt(t, k + 2) then None
    else Some(k + 3)
  }

  /** The clone is deleted: the `show` at command `p` and the delete after it take effect. */
  predicate CloneDeleted(t: Tape, p: nat) {
    DoneAt(t, p) && Takes(EventAt(t, p + 1).outcome)
  }

  /** Both renames of the clone's swap failed: the old data stays at its old path. */
  predicate Stranded(fs: Fs, t: Tape, k: nat) {
    FailsAt(fs, t, k) == Some(k + 3) && !DoneAt(t, k + 3)
  }

  lemma GiveUpExactly(fs: Fs, t: Tape)
    requires New in fs && fs[New].subvolume
    ensures GiveUp(fs, t).fs == if CloneDeleted(t, 0) then fs - {New} else fs
    ensures GiveUp(fs, t).failed && GiveUp(fs, t).kept.None?
  {
    NextIsFirst(t);
    NextIsFirst(Next(t).1);
  }

  lemma PrepareLeaves(fs: Fs, t: Tape, snap: nat)
    ensures Prepare(fs, t, snap).0 == if Prepared(fs, t) then fs[New := Node(Clone(snap), true)]
                                      else Unprepared(fs, t, snap)
  {
    var t1 := Next(t).1;
    var t2 := Next(t1).1;
    NextIsFirst(t);
    NextIsFirst(t1);
    NextIsFirst(t2);
    NextIsFirst(Next(t2).1);
    PreparedExactly(fs, t, snap);
    if New in fs {
      assert (fs - {New})[New := Node(Clone(snap), true)] == fs[New := Node(Clone(snap), true)];
    }
  }

  /** A failed call that returns no path, once the clone is made: the disk but for the clone is as it was. */
  lemma FailedSwap(fs: Fs, t: Tape)
    requires New in fs && fs[New].subvolume
    ensures var r, at := MoveAside(fs, t), FailsAt(fs, t, 0);
            && (r.failed <==> at.Some?)
            && (at.Some? && !Stranded(fs, t, 0) ==>
                  r.kept.None? && r.fs == if CloneDeleted(t, at.value + 1) then fs - {New} else fs)
            && (Stranded(fs, t, 0) ==>
                  && r.kept.Some? && r.kept.value == Old(EventAt(t, 1).now)
                  && r.fs == (fs - {Target})[r.kept.value := fs[Target]])
  {
    var t1 := Next(t).1;
    NextIsFirst(t);
    NextIsFirst(t1);
    if !DoneAt(t, 0) {
      GiveUpExactly(fs, t1);
    } else if Target !in fs {
      var (fs2, t2, bad) := Rename(fs, t1, New, Target);
      if bad {
        GiveUpExactly(fs2, t2);
      }
    } else {
      var aside := Old(Next(t1).0.now);
      var (fs2, t2, stuck) := Rename(fs, t1, Target, aside);
      if stuck {
        GiveUpExactly(fs2, t2);
      } else {
        FailedSwapIn(fs, fs2, t2, aside);
        assert forall i: nat :: EventAt(t2, i) == EventAt(t, i + 2);
      }
    }
  }

  lemma FailedSwapIn(fs: Fs, fs1: Fs, t: Tape, aside: Slot)
    requires New in fs && fs[New].subvolume && Target in fs && aside.Old? && aside !in fs
    requires fs1 == (fs - {Target})[aside := fs[Target]]
    ensures var r := SwapIn(fs1, t, Some(aside));
            && (r.failed <==> !DoneAt(t, 0))
            && (!DoneAt(t, 0) && DoneAt(t, 1) ==>
                  r.kept.None? && r.fs == if CloneDeleted(t, 2) then fs - {New} else fs)
            && (!DoneAt(t, 0) && !DoneAt(t, 1) ==> r.kept == Some(aside) && r.fs == fs1)
  {
    var (fs2, t2, bad) := Rename(fs1, t, New, Target);
    NextIsFirst(t);
    NextIsFirst(t2);
    if bad {
      var (fs3, t3, lost) := Rename(fs2, t2, aside, Target);
      if !lost {
        assert fs3 == fs;
        GiveUpExactly(fs3, t3);
        assert forall i: nat :: EventAt(t3, i) == EventAt(t, i + 2);
      }
    }
  }

  /**
    A call fails exactly if the clone could not be made or one of the commands up to the swap did not work. A
    failed call that returns no path leaves the disk as it was but for the clone's path; and there it leaves
    nothing exactly if the `show` and the delete that follow the failure take effect.
   */
  lemma FailureExactly(fs: Fs, t: Tape, snap: nat)
    ensures var r, k := RestoreFrom(fs, t, snap), if New in fs then 4 else 3;
            && (r.failed <==> !Prepared(fs, t) || FailsAt(fs, t, k).Some?)
            && (!Prepared(fs, t) ==> r.kept.None? && r.fs == Unprepared(fs, t, snap))
            && (Prepared(fs, t) && Stranded(fs, t, k) ==>
                  && r.kept.Some? && r.kept.value == Old(EventAt(t, k + 1).now)
                  && r.fs == (fs[New := Node(Clone(snap), true)] - {Target})[r.kept.value := fs[Target]])
            && (Prepared(fs, t) && FailsAt(fs, t, k).Some? && !Stranded(fs, t, k) ==>
                  r.kept.None? && r.fs == if CloneDeleted(t, FailsAt(fs, t, k).value + 1) then fs - {New}
                                          else fs[New := Node(Clone(snap), true)])
  {
    PreparedExactly(fs, t, snap);
    PrepareLeaves(fs, t, snap);
    var (fs1, t1, bad) := Prepare(fs, t, snap);
    if !bad {
      PrepareEvents(fs, t, snap);
      var k := if New in fs then 4 else 3;
      assert forall i: nat :: EventAt(t1, i) == EventAt(t, k + i);
      FailedSwap(fs1, t1);
      assert fs1 - {New} == fs - {New};
      FailsLater(fs, fs1, t, t1, k);
    }
  }

  lemma FailsLater(fs: Fs, fs1: Fs, t: Tape, t1: Tape, k: nat)
    requires forall i: nat :: EventAt(t1, i) == EventAt(t, k + i)
    requires forall p | p != New :: p in fs1 <==> p in fs
    ensures FailsAt(fs, t, k) == match FailsAt(fs1, t1, 0) case None => None case Some(p) => Some(p + k)
    ensures Stranded(fs, t, k) == Stranded(fs1, t1, 0)
    ensures forall p: nat :: CloneDeleted(t1, p) == CloneDeleted(t, p + k)
  {
  }

  /** What is left, and said, of the old data at `aside` when the clone is in place; `p` is the first command then. */
  function DroppedOld(fs: Fs, t: Tape, aside: Slot, p: nat): (Fs, Option<Slot>)
    requires aside in fs
  {
    if !fs[aside].subvolume || !DoneAt(t, p) || Unrunnable(EventAt(t, p + 1).outcome) then (fs, Some(aside))
    else if !DoneAt(t, p + 1) then (fs, None)
    else (if Takes(EventAt(t, p + 2).outcome) then fs - {aside} else fs,
          if DoneAt(t, p + 2) then None else Some(aside))
  }

  lemma DropOldExactly(fs: Fs, t: Tape, aside: Slot)
    requires aside in fs
    ensures var r := DropOld(fs, t, aside); !r.failed && (r.fs, r.kept) == DroppedOld(fs, t, aside, 0)
  {
    var t1 := Next(t).1;
    NextIsFirst(t);
    NextIsFirst(t1);
    NextIsFirst(Next(t1).1);
  }

  lemma SwapExactly(fs: Fs, t: Tape)
    requires New in fs && FailsAt(fs, t, 0).None?
    ensures var r, swapped := MoveAside(fs, t), (fs - {New})[Target := fs[New]];
            if Target !in fs then r.kept.None? && r.fs == swapped
            else
              var aside := Old(EventAt(t, 1).now);
              aside !in fs && (r.fs, r.kept) == DroppedOld(swapped[aside := fs[Target]], t, aside, 3)
  {
    var t1 := Next(t).1;
    NextIsFirst(t);
    NextIsFirst(t1);
    if Target in fs {
      var aside, t2 := Old(Next(t1).0.now), Next(t1).1;
      NextIsFirst(t2);
      var swapped := (fs - {New})[Target := fs[New]][aside := fs[Target]];
      assert MoveAside(fs, t) == DropOld(swapped, Next(t2).1, aside) by {
        assert ((fs - {Target})[aside := fs[Target]] - {New})[Target := fs[New]] == swapped;
      }
      DropOldExactly(swapped, Next(t2).1, aside);
      assert forall i: nat :: EventAt(Next(t2).1, i) == EventAt(t, i + 3);
    }
  }

  /**
    A call that succeeds: the clone is at the target. The old data was moved aside; it stays there if it was
    not a subvolume or was not deleted, and the path is returned in every case but that of UnreportedExactly.
   */
  lemma SuccessExactly(fs: Fs, t: Tape, snap: nat)
    requires var k := if New in fs then 4 else 3; Prepared(fs, t) && FailsAt(fs, t, k).None?
    ensures var r, k := RestoreFrom(fs, t, snap), if New in fs then 4 else 3;
            var swapped := (fs - {New})[Target := Node(Clone(snap), true)];
            && !r.failed
            && if Target !in fs then r.kept.None? && r.fs == swapped
               else
                 var aside := Old(EventAt(t, k + 1).now);
                 aside !in fs && (r.fs, r.kept) == DroppedOld(swapped[aside := fs[Target]], t, aside, k + 3)
  {
    FailureExactly(fs, t, snap);
    var k := PreparedMoves(fs, t, snap);
    var fs1, t1 := fs[New := Node(Clone(snap), true)], t.(script := t.script[k..]);
    FailsLater(fs, fs1, t, t1, k);
    SwapExactly(fs1, t1);
    var swapped := (fs - {New})[Target := Node(Clone(snap), true)];
    assert (fs1 - {New})[Target := fs1[New]] == swapped;
    if Target in fs {
      var aside := Old(EventAt(t, k + 1).now);
      DroppedLater(swapped[aside := fs[Target]], t, t1, aside, k);
    }
  }

  /** The call goes on from the clone made, at command `k`. */
  lemma PreparedMoves(fs: Fs, t: Tape, snap: nat) returns (k: nat)
    requires Prepared(fs, t)
    ensures k == if New in fs then 4 else 3
    ensures k <= |t.script| && forall i: nat :: EventAt(t.(script := t.script[k..]), i) == EventAt(t, k + i)
    ensures RestoreFrom(fs, t, snap) == MoveAside(fs[New := Node(Clone(snap), true)], t.(script := t.script[k..]))
  {
    k := if New in fs then 4 else 3;
    PreparedExactly(fs, t, snap);
    PrepareLeaves(fs, t, snap);
    PrepareEvents(fs, t, snap);
  }

  lemma DroppedLater(fs: Fs, t: Tape, t1: Tape, aside: Slot, k: nat)
    requires aside in fs && forall i: nat :: EventAt(t1, i) == EventAt(t, k + i)
    ensures DroppedOld(fs, t1, aside, 3) == DroppedOld(fs, t, aside, k + 3)
  {
  }

  /* ---- when nothing fails ---- */

  /** Nothing goes wrong, for `n` commands at least. */
  predicate DoneFor(t: Tape, n: nat) {
    |t.script| >= n && AllDone(t)
  }

  predicate Blocked(fs: Fs) {
    New in fs && !fs[New].subvolume
  }

  lemma AllDoneNext(t: Tape, n: nat)
    requires n > 0 && DoneFor(t, n)
    ensures Next(t).0 in t.script && Next(t).0.outcome.Done? && DoneFor(Next(t).1, n - 1)
    ensures forall e | e in Next(t).1.script :: e in t.script
  {
  }

  /** When nothing is in the way and every command works, the clone is made and the rest is left alone. */
  lemma PrepareDone(fs: Fs, t: Tape, snap: nat)
    requires DoneFor(t, 4) && !Blocked(fs)
    ensures Prepare(fs, t, snap)
            == (fs[New := Node(Clone(snap), true)], t.(script := t.script[if New in fs then 4 else 3..]), false)
  {
    AllDoneNext(t, 4);
    var (fs1, t1, bad) := Delete(fs, t, New);
    var t2 := Next(t1).1;
    if New in fs {
      AllDoneNext(Next(t).1, 3);
      assert fs1[New := Node(Clone(snap), true)] == fs[New := Node(Clone(snap), true)];
      assert t1.script == t.script[2..];
    }
    AllDoneNext(t1, 2);
    AllDoneNext(t2, 1);
    assert t2.script[1..] == t.script[if New in fs then 4 else 3..];
  }

  lemma SwapInDone(fs: Fs, t: Tape, aside: Slot)
    requires DoneFor(t, 4) && New in fs && Target !in fs && aside.Old? && aside in fs
    ensures var fs' := (fs - {New})[Target := fs[New]];
            SwapIn(fs, t, Some(aside))
            == if fs[aside].subvolume then Result(fs' - {aside}, t.(script := t.script[4..]), None, false)
               else Result(fs', t.(script := t.script[2..]), Some(aside), false)
  {
    AllDoneNext(t, 4);
    var (fs1, t1, bad) := Rename(fs, t, New, Target);
    assert !bad && fs1 == (fs - {New})[Target := fs[New]];
    ShownAndDeleted(fs1, t1, aside);
    assert t1.script[1..] == t.script[2..] && t1.script[3..] == t.script[4..];
  }

  lemma ShownAndDeleted(fs: Fs, t: Tape, aside: Slot)
    requires DoneFor(t, 3) && aside in fs
    ensures IsSubvolume(fs, aside, Next(t).0.outcome) <==> fs[aside].subvolume
    ensures Next(t).1 == t.(script := t.script[1..])
    ensures fs[aside].subvolume ==> Delete(fs, Next(t).1, aside) == (fs - {aside}, t.(script := t.script[3..]), false)
  {
    AllDoneNext(t, 3);
    var t2 := Next(t).1;
    AllDoneNext(t2, 2);
    AllDoneNext(Next(t2).1, 1);
    assert t2.script[1..][1..] == t.script[3..];
  }

  /** What a call that nothing goes wrong in makes of `fs`. */
  ghost predicate Completed(fs: Fs, r: Result, snap: nat) {
    && !r.failed && HoldsClone(r.fs, snap) && New !in r.fs
    && (r.kept.Some? <==> Target in fs && !fs[Target].subvolume)
    && (r.kept.Some? ==> MovedTo(fs, r.fs, r.kept.value))
    && Agree(fs, r.fs, {New, Target} + if r.kept.Some? then {r.kept.value} else {})
  }

  /** What is left of the tape `t` has `n` events or more, all of them events of `t` that were done. */
  predicate Leaves(t: Tape, t': Tape, n: nat) {
    DoneFor(t', n) && forall e | e in t'.script :: e in t.script
  }

  lemma MoveAsideDone(fs: Fs, t: Tape, snap: nat, n: nat)
    requires n >= 6 && DoneFor(t, n) && New in fs && fs[New] == Node(Clone(snap), true)
    requires forall e | e in t.script :: Old(e.now) !in fs
    ensures Completed(fs, MoveAside(fs, t), snap) && Leaves(t, MoveAside(fs, t).tape, n - 6)
  {
    AllDoneNext(t, n);
    var t1 := Next(t).1;
    AllDoneNext(t1, n - 1);
    if Target in fs {
      var aside := Old(Next(t1).0.now);
      var (fs2, t2, bad) := Rename(fs, t1, Target, aside);
      assert !bad && MoveAside(fs, t) == SwapIn(fs2, t2, Some(aside));
      SwapInDone(fs2, t2, aside);
    }
  }

  /**
    When nothing fails, no directory blocks the clone and no old name is taken, the swap completes: the
    target holds the clone, its old data is gone if it was a subvolume and kept at the returned path if
    it was not, and nothing else on the disk has changed. It takes ten commands at most.
   */
  lemma CleanRestore(fs: Fs, t: Tape, snap: nat, n: nat)
    requires n >= 10 && DoneFor(t, n) && !Blocked(fs) && forall e | e in t.script :: Old(e.now) !in fs
    ensures Completed(fs, RestoreFrom(fs, t, snap), snap) && Leaves(t, RestoreFrom(fs, t, snap).tape, n - 10)
  {
    PrepareDone(fs, t, snap);
    var (fs1, t1, _) := Prepare(fs, t, snap);
    MoveAsideDone(fs1, t1, snap, n - 4);
  }

  /** It is enough that the call's own commands work, and that the old name it takes is free. */
  lemma OwnCommandsWork(fs: Fs, t: Tape, snap: nat)
    requires !Blocked(fs) && forall i | 0 <= i < 10 :: DoneAt(t, i) && Old(EventAt(t, i).now) !in fs
    ensures HoldsClone(RestoreFrom(fs, t, snap).fs, snap)
  {
    SuccessExactly(fs, t, snap);
  }

  /* ---- calls one after the other ---- */

  datatype Call = Call(tape: Tape, snap: nat)

  /** The disk after a sequence of calls, each run to its end or cut off anywhere. */
  function Calls(fs: Fs, calls: seq<Call>): Fs {
    if calls == [] then fs
    else
      var last := calls[|calls| - 1];
      RestoreFrom(Calls(fs, calls[..|calls| - 1]), last.tape, last.snap).fs
  }

  /** One of the calls left its clone at the target. */
  predicate Swapped(fs: Fs, calls: seq<Call>) {
    calls != [] &&
    (Swapped(fs, calls[..|calls| - 1]) || HoldsClone(Calls(fs, calls), calls[|calls| - 1].snap))
  }

  /** The data is at the target or at an old path. */
  ghost predicate There(fs: Fs, d: Data) {
    exists p: Slot :: (p == Target || p.Old?) && p in fs && fs[p].data == d
  }

  lemma StaysOrMoves(fs: Fs, fs': Fs, snap: nat, d: Data)
    requires There(fs, d) && Safe(fs, fs', snap)
    ensures There(fs', d) || HoldsClone(fs', snap)
  {
  }

  /** The original data, or the clone of a snapshot one of the calls was for, is there. */
  ghost predicate Survives(fs: Fs, calls: seq<Call>, id: nat) {
    There(fs, Original(id)) || exists c | c in calls :: There(fs, Clone(c.snap))
  }

  lemma SurvivesStep(before: Fs, after: Fs, calls: seq<Call>, last: Call, id: nat)
    requires Survives(before, calls, id) && Safe(before, after, last.snap)
    ensures Survives(after, calls + [last], id)
  {
    assert last in calls + [last];
    if There(before, Original(id)) {
      StaysOrMoves(before, after, last.snap, Original(id));
    } else {
      var c :| c in calls && There(before, Clone(c.snap));
      assert c in calls + [last];
      StaysOrMoves(before, after, last.snap, Clone(c.snap));
    }
  }

  /**
    Over any sequence of failed, cut off and repeated calls: as long as no call has brought its clone to
    the target, the original data is at the target or at an old path; and at every moment the original
    data or the clone of a snapshot that was to be restored is.
   */
  lemma {:induction false} NeverLost(fs: Fs, calls: seq<Call>, id: nat)
    requires There(fs, Original(id))
    ensures Survives(Calls(fs, calls), calls, id)
    ensures There(Calls(fs, calls), Original(id)) || Swapped(fs, calls)
  {
    if calls != [] {
      var n := |calls| - 1;
      var before := Calls(fs, calls[..n]);
      NeverLost(fs, calls[..n], id);
      LastCallSafe(fs, calls);
      assert calls == calls[..n] + [calls[n]];
      SurvivesStep(before, Calls(fs, calls), calls[..n], calls[n], id);
      if There(before, Original(id)) {
        StaysOrMoves(before, Calls(fs, calls), calls[n].snap, Original(id));
      }
    }
  }

  lemma LastCallSafe(fs: Fs, calls: seq<Call>)
    requires calls != []
    ensures var n := |calls| - 1; Safe(Calls(fs, calls[..n]), Calls(fs, calls), calls[n].snap)
  {
    var n := |calls| - 1;
    CrashSafe(Calls(fs, calls[..n]), calls[n].tape, calls[n].snap);
  }

  /* ---- where the simplest reading fails ---- */

  /** The target holds the original data or the clone, or the original data is at an old path. */
  ghost predicate OriginalOrClone(fs: Fs, id: nat, snap: nat) {
    HoldsClone(fs, snap) || There(fs, Original(id))
  }

  /** A call that moves the target aside and is cut off there. */
  lemma CutOff(fs: Fs, snap: nat) returns (t: Tape)
    requires Target in fs && !Blocked(fs)
    ensures var fs' := RestoreFrom(fs, t, snap).fs;
            && AllDone(t) && Target !in fs'
            && forall p: Slot | p.Old? && p in fs' :: (p in fs && fs'[p] == fs[p]) || fs'[p] == fs[Target]
  {
    var stamps := set p | p in fs && p.Old? :: p.stamp;
    var stamp := AboveAll(stamps);
    assert forall p | p in fs && p.Old? :: p.stamp in stamps;
    var done := Event(Done, stamp);
    var tail := [done, done];
    t := Tape((if New in fs then [done] else []) + [done, done, done] + tail, false);
    PrepareDone(fs, t, snap);
    var (fs1, t1, _) := Prepare(fs, t, snap);
    assert t1.script == tail && Next(t1) == (done, Tape([done], false));
    var (fs2, t2, stuck) := Rename(fs1, Tape([done], false), Target, Old(stamp));
    assert !stuck && t2.script == [];
  }

  lemma StaysOriginal(fs: Fs, t: Tape, id: nat, snap: nat)
    requires There(fs, Original(id)) || (OriginalOrClone(fs, id, snap) && Blocked(fs))
    ensures OriginalOrClone(RestoreFrom(fs, t, snap).fs, id, snap)
  {
    if There(fs, Original(id)) {
      CrashSafe(fs, t, snap);
      StaysOrMoves(fs, RestoreFrom(fs, t, snap).fs, snap, Original(id));
    } else {
      assert Prepare(fs, t, snap).0 == fs && Prepare(fs, t, snap).2;
    }
  }

  /**
    "Original, clone, or original at an old path" survives every further call exactly when the original
    data is still there, or a plain directory blocks the way of the clone. Otherwise a completed call
    has deleted the original data, and one that moves the first clone aside and is cut off there leaves
    the target empty (the first clone is then intact at the old path, by CrashSafe).
   */
  lemma RepeatedExactly(fs: Fs, id: nat, snap: nat)
    requires OriginalOrClone(fs, id, snap)
    ensures (forall t :: OriginalOrClone(RestoreFrom(fs, t, snap).fs, id, snap))
            <==> There(fs, Original(id)) || Blocked(fs)
  {
    if There(fs, Original(id)) || Blocked(fs) {
      forall t ensures OriginalOrClone(RestoreFrom(fs, t, snap).fs, id, snap) {
        StaysOriginal(fs, t, id, snap);
      }
    } else {
      var t := CutOff(fs, snap);
      EmptyTarget(fs, RestoreFrom(fs, t, snap).fs, id, snap);
    }
  }

  lemma TwoCalls(fs: Fs, a: Call, b: Call)
    ensures var fs1 := RestoreFrom(fs, a.tape, a.snap).fs;
            Calls(fs, [a]) == fs1 && Calls(fs, [a, b]) == RestoreFrom(fs1, b.tape, b.snap).fs
  {
    assert [a, b][..1] == [a] && [a][..0] == [];
    assert Calls(fs, []) == fs;
  }

  /** Nothing fails: the original data is gone, and its place is taken. */
  lemma CleanReplaces(fs: Fs, id: nat, snap: nat) returns (t: Tape)
    requires fs == map[Target := Node(Original(id), true)]
    ensures var fs' := RestoreFrom(fs, t, snap).fs;
            AllDone(t) && HoldsClone(fs', snap) && !There(fs', Original(id)) && New !in fs'
  {
    t := Tape(seq(10, _ => Event(Done, 0)), false);
    CleanRestore(fs, t, snap, 10);
  }

  /** It happens: a call in which nothing fails, and one that moves the clone aside and is cut off there. */
  lemma RepeatedCallLosesBoth(id: nat, snap: nat) returns (a: Call, b: Call)
    ensures var fs: Fs := map[Target := Node(Original(id), true)];
            && AllDone(a.tape) && AllDone(b.tape) && a.snap == b.snap == snap
            && OriginalOrClone(Calls(fs, [a]), id, snap) && !OriginalOrClone(Calls(fs, [a, b]), id, snap)
  {
    var fs: Fs := map[Target := Node(Original(id), true)];
    var first := CleanReplaces(fs, id, snap);
    var fs1 := RestoreFrom(fs, first, snap).fs;
    var second := CutOff(fs1, snap);
    a, b := Call(first, snap), Call(second, snap);
    TwoCalls(fs, a, b);
    EmptyTarget(fs1, RestoreFrom(fs1, second, snap).fs, id, snap);
  }

  lemma EmptyTarget(fs: Fs, fs': Fs, id: nat, snap: nat)
    requires HoldsClone(fs, snap) && !There(fs, Original(id)) && Target !in fs'
    requires forall p: Slot | p.Old? && p in fs' :: (p in fs && fs'[p] == fs[p]) || fs'[p] == fs[Target]
    ensures !OriginalOrClone(fs', id, snap)
  {
  }
}
