/**
  What the parts of a cycle do, exactly: for every tape, the state after each part by the commands it ran
  and what happened to them.
 */
module Effects {
  import opened Snapshots
  import opened Protocol
  import opened Safety
  import opened Cycles

  /* ---- the tape ---- */

  /** The tape after `n` commands. */
  function After(t: Tape, n: nat): Tape {
    if n <= |t.script| then t.(script := t.script[n..]) else Tape([], true)
  }

  lemma AfterAdds(t: Tape, n: nat, m: nat)
    ensures After(After(t, n), m) == After(t, n + m)
    ensures EventAt(After(t, n), m) == EventAt(t, n + m)
  {
    if n + m <= |t.script| {
      assert t.script[n..][m..] == t.script[n + m..];
    }
  }

  lemma NextIsAfter(t: Tape)
    ensures Next(t) == (EventAt(t, 0), After(t, 1))
  {
  }

  /* ---- deletes ---- */

  /** One of the first `k` deletes of `doomed`, the first of them command `p` of the tape, removed `n`. */
  predicate Removed(t: Tape, p: nat, doomed: seq<Snapshot>, k: nat, n: Name)
    requires k <= |doomed|
  {
    exists i | 0 <= i < k :: doomed[i].name == n && Takes(EventAt(t, p + i).outcome)
  }

  /** Every delete is tried, whatever became of the others, and removes its entry exactly if it takes effect. */
  lemma {:induction false} SweepExactly(d: Dir, t: Tape, doomed: seq<Snapshot>)
    ensures var (d', t') := Sweep(d, t, doomed);
            && t' == After(t, |doomed|) && Within(d', d)
            && forall n :: n in d' <==> n in d && !Removed(t, 0, doomed, |doomed|, n)
    decreases |doomed|
  {
    if doomed != [] {
      NextIsAfter(t);
      var (e, t1) := Next(t);
      var d1 := if Takes(e.outcome) then d - {doomed[0].name} else d;
      var rest := doomed[1..];
      SweepExactly(d1, t1, rest);
      AfterAdds(t, 1, |rest|);
      forall n ensures Removed(t, 0, doomed, |doomed|, n)
                       <==> (doomed[0].name == n && Takes(e.outcome)) || Removed(t1, 0, rest, |rest|, n) {
        RemovedFirst(t, doomed, n);
      }
    }
  }

  lemma RemovedFirst(t: Tape, doomed: seq<Snapshot>, n: Name)
    requires doomed != []
    ensures Removed(t, 0, doomed, |doomed|, n)
            <==> (doomed[0].name == n && Takes(EventAt(t, 0).outcome))
                 || Removed(After(t, 1), 0, doomed[1..], |doomed| - 1, n)
  {
    var rest := doomed[1..];
    forall i | 0 <= i < |rest| ensures EventAt(After(t, 1), i) == EventAt(t, i + 1) && rest[i] == doomed[i + 1] {
      AfterAdds(t, 1, i);
    }
    if Removed(t, 0, doomed, |doomed|, n) {
      var i :| 0 <= i < |doomed| && doomed[i].name == n && Takes(EventAt(t, 0 + i).outcome);
      if i > 0 {
        assert rest[i - 1].name == n && Takes(EventAt(After(t, 1), 0 + (i - 1)).outcome);
      }
    }
    if Removed(After(t, 1), 0, rest, |rest|, n) {
      var i :| 0 <= i < |rest| && rest[i].name == n && Takes(EventAt(After(t, 1), 0 + i).outcome);
      assert doomed[i + 1].name == n && Takes(EventAt(t, 0 + (i + 1)).outcome);
    }
  }

  /* ---- taking snapshots ---- */

  /** The command that takes the snapshot: the second if the first reading of the clock gives a taken name. */
  function Attempt(w: World, subvol: string): nat {
    if Name(subvol, EventAt(w.tape, 0).now) in w.local then 1 else 0
  }

  /**
    A snapshot is made under the first of two readings of the clock whose name is free, exactly if the
    command takes effect. It is an error exactly if both names are taken or the command was not done.
   */
  lemma CreateExactly(w: World, subvol: string)
    ensures var (w', failed) := CreateSnapshot(w, subvol);
            var k := Attempt(w, subvol);
            var e, n, t := EventAt(w.tape, k), Name(subvol, EventAt(w.tape, k).now), After(w.tape, k + 1);
            && (failed <==> n in w.local || !e.outcome.Done?)
            && w' == if n !in w.local && Takes(e.outcome)
                     then w.(local := w.local[n := Copy(w.nextId, 0, true)], nextId := w.nextId + 1, tape := t)
                     else w.(tape := t)
  {
    NextIsAfter(w.tape);
    NextIsAfter(Next(w.tape).1);
    AfterAdds(w.tape, 1, 0);
    AfterAdds(w.tape, 1, 1);
  }

  /** When the cycle comes to the snapshot of subvolume `j`. */
  function AtSnapshot(w: World, subvols: seq<string>, j: nat): World
    requires j <= |subvols|
  {
    TakeSnapshots(w, subvols[..j], false).0
  }

  /**
    Every subvolume has its turn, whatever became of those before it: what there is of it in the end is what
    its own turn left, and that began with what there was of it.
   */
  lemma {:induction false} SnapshotTurn(w: World, subvols: seq<string>, failed: bool, j: nat)
    requires Distinct(subvols) && j < |subvols|
    ensures SameOn(w.local, AtSnapshot(w, subvols, j).local, subvols[j])
    ensures SameOn(CreateSnapshot(AtSnapshot(w, subvols, j), subvols[j]).0.local,
                   TakeSnapshots(w, subvols, failed).0.local, subvols[j])
    decreases |subvols|
  {
    var n, v := |subvols| - 1, subvols[j];
    TakeTouchesOnly(w, subvols[..j], false, v);
    TakeLast(w, subvols, failed);
    if j < n {
      var before := subvols[..n];
      assert before[..j] == subvols[..j] && before[j] == v && subvols[n] != v;
      SnapshotTurn(w, before, failed, j);
      StaysAfter(AtSnapshot(w, subvols, n), subvols[n], CreateSnapshot(AtSnapshot(w, subvols, j), v).0.local, v);
    }
  }

  /** Taking the snapshot of subvolume `j`, when its turn comes, is an error. */
  predicate SnapshotFails(w: World, subvols: seq<string>, j: nat)
    requires j < |subvols|
  {
    CreateSnapshot(AtSnapshot(w, subvols, j), subvols[j]).1
  }

  /** It is an error to take them exactly if it is one in some turn. */
  lemma {:induction false} TakeFails(w: World, subvols: seq<string>, failed: bool)
    ensures TakeSnapshots(w, subvols, failed).1
            <==> failed || exists j | 0 <= j < |subvols| :: SnapshotFails(w, subvols, j)
    decreases |subvols|
  {
    if subvols != [] {
      var n := |subvols| - 1;
      var before := subvols[..n];
      TakeFails(w, before, failed);
      TakeLast(w, subvols, failed);
      forall j | 0 <= j < n ensures SnapshotFails(w, subvols, j) == SnapshotFails(w, before, j) {
        assert before[..j] == subvols[..j] && before[j] == subvols[j];
      }
      assert SnapshotFails(w, subvols, n) == CreateSnapshot(AtSnapshot(w, subvols, n), subvols[n]).1;
      assert (exists j | 0 <= j < |subvols| :: SnapshotFails(w, subvols, j))
             <==> (exists j | 0 <= j < n :: SnapshotFails(w, before, j)) || SnapshotFails(w, subvols, n);
    }
  }

  lemma StaysAfter(w: World, v: string, d: Dir, u: string)
    requires SameOn(d, w.local, u) && u != v
    ensures SameOn(d, CreateSnapshot(w, v).0.local, u)
  {
    CreateTouchesOnly(w, v);
    assert SameOn(w.local, CreateSnapshot(w, v).0.local, u);
  }

  /** Taking them from the front is the same as leaving the last for last; the flag changes nothing else. */
  lemma {:induction false} TakeLast(w: World, subvols: seq<string>, failed: bool)
    requires subvols != []
    ensures var n := |subvols| - 1;
            var (w1, f) := TakeSnapshots(w, subvols[..n], failed);
            && w1 == AtSnapshot(w, subvols, n)
            && TakeSnapshots(w, subvols, failed)
               == (CreateSnapshot(w1, subvols[n]).0, f || CreateSnapshot(w1, subvols[n]).1)
    decreases |subvols|
  {
    var n := |subvols| - 1;
    if n > 0 {
      var (w1, f) := CreateSnapshot(w, subvols[0]);
      var rest := subvols[1..];
      assert subvols[..n][0] == subvols[0] && subvols[..n][1..] == rest[..n - 1];
      TakeLast(w1, rest, failed || f);
      TakeLast(w1, rest, f);
    } else {
      assert subvols[1..] == [];
    }
  }

  lemma CreateTouchesOnly(w: World, v: string)
    ensures forall u {:trigger SameOn(w.local, CreateSnapshot(w, v).0.local, u)} | u != v ::
              SameOn(w.local, CreateSnapshot(w, v).0.local, u)
  {
    CreateExactly(w, v);
  }

  lemma {:induction false} TakeTouchesOnly(w: World, subvols: seq<string>, failed: bool, u: string)
    requires u !in subvols
    ensures SameOn(w.local, TakeSnapshots(w, subvols, failed).0.local, u)
    decreases |subvols|
  {
    if subvols != [] {
      CreateTouchesOnly(w, subvols[0]);
      var (w1, f) := CreateSnapshot(w, subvols[0]);
      assert SameOn(w.local, w1.local, u);
      TakeTouchesOnly(w1, subvols[1..], failed || f, u);
    }
  }

  /** A new read-only snapshot of the subvolume, under a UUID that was not given out before, and nothing else of it. */
  ghost predicate OneMore(w: World, local': Dir, v: string) {
    exists n :: n !in w.local && n.subvol == v && n in local' && local'[n].SendUuid() >= w.nextId && local'[n].readOnly
                && SameOn(w.local, local' - {n}, v)
  }

  lemma OneMoreAfterTurn(w: World, w1: World, local': Dir, v: string)
    requires SameOn(w.local, w1.local, v) && w.nextId <= w1.nextId && !CreateSnapshot(w1, v).1
    requires SameOn(CreateSnapshot(w1, v).0.local, local', v)
    ensures OneMore(w, local', v)
  {
    CreateExactly(w1, v);
    var n := Name(v, EventAt(w1.tape, Attempt(w1, v)).now);
    assert CreateSnapshot(w1, v).0.local == w1.local[n := Copy(w1.nextId, 0, true)];
    assert n in local' && local'[n] == Copy(w1.nextId, 0, true) && n !in w.local;
    assert SameOn(w.local, local' - {n}, v);
  }

  /** If taking the snapshots is no error, each subvolume has exactly one more. */
  lemma SnapshotOfEach(w: World, subvols: seq<string>, j: nat)
    requires Distinct(subvols) && j < |subvols| && !TakeSnapshots(w, subvols, false).1
    ensures OneMore(w, TakeSnapshots(w, subvols, false).0.local, subvols[j])
  {
    SnapshotTurn(w, subvols, false, j);
    TakeFails(w, subvols, false);
    assert !SnapshotFails(w, subvols, j);
    TakeGivesLater(w, subvols[..j], false);
    OneMoreAfterTurn(w, AtSnapshot(w, subvols, j), TakeSnapshots(w, subvols, false).0.local, subvols[j]);
  }

  lemma {:induction false} TakeGivesLater(w: World, subvols: seq<string>, failed: bool)
    ensures w.nextId <= TakeSnapshots(w, subvols, failed).0.nextId
    decreases |subvols|
  {
    if subvols != [] {
      CreateExactly(w, subvols[0]);
      var (w1, f) := CreateSnapshot(w, subvols[0]);
      TakeGivesLater(w1, subvols[1..], failed || f);
    }
  }
}
