/**
  Where the guarantees end: how stale the cursor file can get in one cycle, exactly, and inputs at which an
  anchor is lost.
 */
module Limits {
  import opened Wrappers
  import opened Snapshots
  import opened CursorTable
  import opened Plan
  import opened Protocol
  import opened Safety
  import opened Cycles
  import opened Runs
  import opened Tapes
  import opened Theorems
  import opened Convergence
  import opened Sends

  /* ---- one cycle brings one copy ---- */

  /** At most one name of the subvolume has become a complete copy. */
  ghost predicate OneCopy(d: Dir, d': Dir, subvol: string) {
    exists n: Name :: OnlyCopy(d, d', subvol, n)
  }

  predicate OnlyCopy(d: Dir, d': Dir, subvol: string, n: Name) {
    forall m | m in d' && d'[m].Received() && m.subvol == subvol :: m == n || (m in d && d[m].Received())
  }

  lemma SubvolBringsOne(cfg: Config, x: Session, slave: string, subvol: string, local: seq<Snapshot>,
                        remote: seq<Snapshot>)
    requires slave in x.w.remote
    ensures OneCopy(x.w.remote[slave], ReplicateSubvol(cfg, x, slave, subvol, local, remote).w.remote[slave], subvol)
  {
    var garbage := OfKind(remote, Uuids(local), Leftover);
    var w1 := SweepRemote(x.w, slave, garbage);
    SweepRemovesOnly(x.w.remote[slave], x.w.tape, garbage);
    SendBringsOne(cfg, x.(w := w1), slave, subvol, local, remote);
    var d, d1, d2 := x.w.remote[slave], w1.remote[slave], SendAndPrune(cfg, x.(w := w1), slave, subvol, local,
        remote).w.remote[slave];
    var n :| OnlyCopy(d1, d2, subvol, n);
    assert OnlyCopy(d, d2, subvol, n);
  }

  lemma SendBringsOne(cfg: Config, x: Session, slave: string, subvol: string, local: seq<Snapshot>,
                      remote: seq<Snapshot>)
    requires slave in x.w.remote
    ensures OneCopy(x.w.remote[slave], SendAndPrune(cfg, x, slave, subvol, local, remote).w.remote[slave], subvol)
  {
    var d, d' := x.w.remote[slave], SendAndPrune(cfg, x, slave, subvol, local, remote).w.remote[slave];
    var complete := OfKind(remote, Uuids(local), Complete);
    match NewestOf(local, ReadOnlyOne)
    case None => assert OnlyCopy(d, d', subvol, Name(subvol, 0));
    case Some(latest) =>
      var parent := ParentOf(local, remote);
      SweepRemovesOnly(d, x.w.tape, PlanRemotePrune(complete, cfg.keepReceiver));
      DeliverBringsOne(x.w, slave, subvol, latest, parent, PlanRemotePrune(complete + [latest], cfg.keepReceiver));
      assert OnlyCopy(d, d', subvol, latest.name);
  }

  lemma DeliverBringsOne(w: World, slave: string, subvol: string, s: Snapshot, parent: Option<Snapshot>,
                         doomed: seq<Snapshot>)
    requires slave in w.remote
    ensures OnlyCopy(w.remote[slave], Deliver(w, slave, s, parent, doomed).0.remote[slave], subvol, s.name)
  {
    var w2 := Send(w, slave, s, parent).0;
    SweepRemovesOnly(w2.remote[slave], w2.tape, doomed);
  }

  lemma {:induction false} SubvolsBringOne(cfg: Config, x: Session, slave: string, subvols: seq<string>, infos: Dir,
                                           v: string)
    requires Ready(cfg, x, slave, subvols, infos)
    ensures OneCopy(x.w.remote[slave], ReplicateSubvols(cfg, x, slave, subvols, x.w.local, infos).w.remote[slave], v)
    decreases |subvols|
  {
    var d, d2 := x.w.remote[slave], ReplicateSubvols(cfg, x, slave, subvols, x.w.local, infos).w.remote[slave];
    if subvols == [] {
      assert OnlyCopy(d, d2, v, Name(v, 0));
    } else {
      var u, rest := subvols[0], subvols[1..];
      DistinctTail(subvols);
      ReadyNext(cfg, x, slave, subvols, infos);
      var x1 := ReplicateSubvol(cfg, x, slave, u, Listing(x.w.local, u), Listing(infos, u));
      if u == v {
        SubvolBringsOne(cfg, x, slave, v, Listing(x.w.local, v), Listing(infos, v));
        ReplicateSubvolsSafe(cfg, x1, slave, rest, infos);
        assert SameOn(x1.w.remote[slave], d2, v);
        var n :| OnlyCopy(d, x1.w.remote[slave], v, n);
        assert OnlyCopy(d, d2, v, n);
      } else {
        SubvolsBringOne(cfg, x1, slave, rest, infos, v);
        var n :| OnlyCopy(x1.w.remote[slave], d2, v, n);
        assert OnlyCopy(d, d2, v, n);
      }
    }
  }

  lemma {:induction false} SlavesBringOne(cfg: Config, x: Session, slaves: seq<string>, slave: string, v: string)
    requires Waiting(cfg, x, slaves) && slave in x.w.remote
    ensures OneCopy(x.w.remote[slave], ReplicateSlaves(cfg, x, slaves, x.w.local).w.remote[slave], v)
    decreases |slaves|
  {
    var d, d2 := x.w.remote[slave], ReplicateSlaves(cfg, x, slaves, x.w.local).w.remote[slave];
    if slaves == [] {
      assert OnlyCopy(d, d2, v, Name(v, 0));
    } else {
      var s, rest := slaves[0], slaves[1..];
      DistinctTail(slaves);
      WaitingNext(cfg, x, slaves);
      var x1 := ReplicateSlave(cfg, x, s, x.w.local);
      if s == slave {
        SlaveFixed(cfg, x1, rest, slave);
        OpenedReady(cfg, x, slave);
        SubvolsBringOne(cfg, Opened(x, slave), slave, cfg.subvolumes, d, v);
        assert d2 == d ==> OnlyCopy(d, d2, v, Name(v, 0));
      } else {
        ReplicateSlaveSafe(cfg, x, s);
        assert Untouched(x, x1, slave);
        SlavesBringOne(cfg, x1, rest, slave, v);
      }
    }
  }

  lemma NewerGrowsByOne(d: Dir, d': Dir, n: Name)
    requires OneCopy(d, d', n.subvol)
    ensures |Newer(d', n)| <= |Newer(d, n)| + 1
  {
    var m :| OnlyCopy(d, d', n.subvol, m);
    SubsetSize(Newer(d', n), Newer(d, n) + {m});
  }

  /** A cycle that does not save leaves the anchor while there is room for one more copy. */
  lemma RoomForOne(cfg: Config, w: World, slave: string, subvol: string)
    requires Inv(cfg, w) && ValidConfig(cfg) && slave in cfg.slaves && subvol in cfg.subvolumes
    requires HasAnchor(w, slave, subvol) && !Cycle(cfg, w).0.log.saved
    requires |Newer(w.remote[slave], Get(w.file, slave, subvol).value.name)| + 1 < AtLeastOne(cfg.keepReceiver)
    ensures HasAnchor(Cycle(cfg, w).0, slave, subvol)
  {
    var w', c := Cycle(cfg, w).0, Get(w.file, slave, subvol).value;
    if Stops(cfg, w) {
      StoppedCycle(cfg, w);
    } else {
      FullCycle(cfg, w);
      LocalStaysUnsaved(cfg, w);
      CycleSafe(cfg, w);
      StartWaiting(cfg, w);
      StartSafe(cfg, w);
      SlavesBringOne(cfg, BeforeSlaves(cfg, w), cfg.slaves, slave, subvol);
      var d, d' := w.remote[slave], w'.remote[slave];
      NewerGrowsByOne(d, d', c.name);
      assert Retains(AtLeastOne(cfg.keepReceiver), d, d');
      assert Kept(AtLeastOne(cfg.keepReceiver), d', c.name, d[c.name].receivedUuid);
    }
  }

  /* ---- a tape just long enough ---- */

  function Repeat(e: Event, n: nat): seq<Event> {
    seq(n, i => e)
  }

  function With(x: Session, script: seq<Event>): Session {
    x.(w := x.w.(tape := Tape(script, false)))
  }

  lemma RepeatNext(e: Event, n: nat)
    requires n > 0
    ensures Next(Tape(Repeat(e, n), false)) == (e, Tape(Repeat(e, n - 1), false))
  {
    assert Repeat(e, n)[1..] == Repeat(e, n - 1);
  }

  lemma RepeatMore(e: Event, m: nat, n: nat)
    ensures Repeat(e, m + n) == Repeat(e, m) + Repeat(e, n)
  {
  }

  lemma {:induction false} SweepUses(d: Dir, doomed: seq<Snapshot>, e: Event, n: nat)
    ensures Sweep(d, Tape(Repeat(e, |doomed| + n), false), doomed).1 == Tape(Repeat(e, n), false)
    ensures Sweep(d, Tape(Repeat(e, |doomed| + n), false), doomed).0
            == Sweep(d, Tape(Repeat(e, |doomed|), false), doomed).0
    decreases |doomed|
  {
    if doomed != [] {
      RepeatNext(e, |doomed| + n);
      RepeatNext(e, |doomed|);
      SweepUses(if Takes(e.outcome) then d - {doomed[0].name} else d, doomed[1..], e, n);
    }
  }

  lemma DeliverUses(w: World, slave: string, s: Snapshot, parent: Option<Snapshot>, doomed: seq<Snapshot>, e: Event)
    returns (n: nat)
    requires slave in w.remote
    ensures Deliver(w.(tape := Tape(Repeat(e, n), false)), slave, s, parent, doomed).0.tape == Tape([], false)
  {
    var (w2, failed) := Send(w.(tape := Tape(Repeat(e, 1), false)), slave, s, parent);
    n := if failed then 1 else 1 + |doomed|;
    RepeatNext(e, 1);
    RepeatNext(e, n);
    if !failed {
      SweepUses(w2.remote[slave], doomed, e, 0);
    }
  }

  lemma SendAndPruneUses(cfg: Config, x: Session, slave: string, subvol: string, local: seq<Snapshot>,
                         remote: seq<Snapshot>, e: Event)
    returns (n: nat)
    requires slave in x.w.remote
    ensures SendAndPrune(cfg, With(x, Repeat(e, n)), slave, subvol, local, remote).w.tape == Tape([], false)
  {
    var complete, latest, parent := OfKind(remote, Uuids(local), Complete), NewestOf(local, ReadOnlyOne),
        ParentOf(local, remote);
    if latest.None? {
      n := 0;
    } else if parent.Some? && parent.value.name == latest.value.name {
      var doomed := PlanRemotePrune(complete, cfg.keepReceiver);
      n := |doomed|;
      SweepUses(x.w.remote[slave], doomed, e, 0);
    } else {
      n := DeliverUses(x.w, slave, latest.value, parent, PlanRemotePrune(complete + [latest.value],
          cfg.keepReceiver), e);
    }
  }

  lemma SubvolUses(cfg: Config, x: Session, slave: string, subvol: string, local: seq<Snapshot>,
                   remote: seq<Snapshot>, e: Event)
    returns (n: nat)
    requires slave in x.w.remote
    ensures ReplicateSubvol(cfg, With(x, Repeat(e, n)), slave, subvol, local, remote).w.tape == Tape([], false)
  {
    var garbage := OfKind(remote, Uuids(local), Leftover);
    var w1 := SweepRemote(With(x, Repeat(e, |garbage|)).w, slave, garbage);
    var m := SendAndPruneUses(cfg, x.(w := w1), slave, subvol, local, remote, e);
    n := |garbage| + m;
    SweepRemoteUses(x, slave, garbage, e, m);
    var y := x.(w := w1);
    AfterLeftovers(cfg, With(x, Repeat(e, n)), With(y, Repeat(e, m)), slave, subvol, local, remote);
  }

  lemma AfterLeftovers(cfg: Config, x: Session, y: Session, slave: string, subvol: string, local: seq<Snapshot>,
                       remote: seq<Snapshot>)
    requires slave in x.w.remote && y == x.(w := SweepRemote(x.w, slave, OfKind(remote, Uuids(local), Leftover)))
    ensures ReplicateSubvol(cfg, x, slave, subvol, local, remote) == SendAndPrune(cfg, y, slave, subvol, local, remote)
  {
  }

  lemma SweepRemoteUses(x: Session, slave: string, doomed: seq<Snapshot>, e: Event, m: nat)
    requires slave in x.w.remote
    ensures var w1 := SweepRemote(With(x, Repeat(e, |doomed|)).w, slave, doomed);
            SweepRemote(With(x, Repeat(e, |doomed| + m)).w, slave, doomed) == With(x.(w := w1), Repeat(e, m)).w
  {
    SweepUses(x.w.remote[slave], doomed, e, m);
  }

  /** The step runs through exactly `k` commands of one kind, and leaves the rest of the tape. */
  ghost predicate Uses(f: (Session, string) -> Session, x: Session, name: string, e: Event, k: nat) {
    && f(With(x, Repeat(e, k)), name).w.tape == Tape([], false)
    && forall m: nat :: f(With(x, Repeat(e, k + m)), name) == With(f(With(x, Repeat(e, k)), name), Repeat(e, m))
  }

  ghost predicate UsesAny(f: (Session, string) -> Session, x: Session, name: string, e: Event) {
    exists k: nat :: Uses(f, x, name, e, k)
  }

  ghost predicate UsesSome(f: (Session, string) -> Session, e: Event) {
    forall x, name :: UsesAny(f, x, name, e)
  }

  lemma {:induction false} FoldUses(f: (Session, string) -> Session, x: Session, names: seq<string>, e: Event)
    returns (n: nat)
    requires UsesSome(f, e)
    ensures Fold(f, With(x, Repeat(e, n)), names).w.tape == Tape([], false)
    decreases |names|
  {
    if names == [] {
      n := 0;
    } else {
      assert UsesAny(f, x, names[0], e);
      var k: nat :| Uses(f, x, names[0], e, k);
      var x1 := f(With(x, Repeat(e, k)), names[0]);
      var m := FoldUses(f, x1, names[1..], e);
      n := k + m;
      assert f(With(x, Repeat(e, k + m)), names[0]) == With(x1, Repeat(e, m));
    }
  }

  lemma SubvolStepUses(cfg: Config, slave: string, local: Dir, infos: Dir, e: Event)
    ensures UsesSome(SubvolStep(cfg, slave, local, infos), e)
  {
    var f := SubvolStep(cfg, slave, local, infos);
    forall x: Session, v: string ensures UsesAny(f, x, v, e) {
      if slave in x.w.remote {
        var k := SubvolUses(cfg, x, slave, v, Listing(local, v), Listing(infos, v), e);
        forall m: nat ensures f(With(x, Repeat(e, k + m)), v) == With(f(With(x, Repeat(e, k)), v), Repeat(e, m)) {
          SubvolThen(cfg, x, slave, v, Listing(local, v), Listing(infos, v), e, k, m);
        }
        assert Uses(f, x, v, e, k);
      } else {
        assert Uses(f, x, v, e, 0);
      }
    }
  }

  lemma SubvolsUse(cfg: Config, x: Session, slave: string, subvols: seq<string>, local: Dir, infos: Dir, e: Event)
    returns (n: nat)
    requires slave in x.w.remote
    ensures ReplicateSubvols(cfg, With(x, Repeat(e, n)), slave, subvols, local, infos).w.tape == Tape([], false)
  {
    SubvolStepUses(cfg, slave, local, infos, e);
    n := FoldUses(SubvolStep(cfg, slave, local, infos), x, subvols, e);
    SubvolsFold(cfg, With(x, Repeat(e, n)), slave, subvols, local, infos);
  }

  /** What is on the tape beyond what a subvolume uses is left on it. */
  lemma SubvolThen(cfg: Config, x: Session, slave: string, v: string, local: seq<Snapshot>, remote: seq<Snapshot>,
                   e: Event, k: nat, m: nat)
    requires slave in x.w.remote
    requires ReplicateSubvol(cfg, With(x, Repeat(e, k)), slave, v, local, remote).w.tape == Tape([], false)
    ensures ReplicateSubvol(cfg, With(x, Repeat(e, k + m)), slave, v, local, remote)
            == With(ReplicateSubvol(cfg, With(x, Repeat(e, k)), slave, v, local, remote), Repeat(e, m))
  {
    RepeatMore(e, k, m);
    if m > 0 {
      SubvolSteps(cfg, With(x, Repeat(e, k)), With(x, Repeat(e, k + m)), Repeat(e, m), slave, v, local, remote);
    }
  }

  lemma SlaveUses(cfg: Config, x: Session, slave: string, local: Dir, e: Event) returns (n: nat)
    requires slave in x.w.remote && e.outcome.Done?
    ensures ReplicateSlave(cfg, With(x, Repeat(e, n)), slave, local).w.tape == Tape([], false)
  {
    var m := SubvolsUse(cfg, Opened(With(x, Repeat(e, 1)), slave), slave, cfg.subvolumes, local, x.w.remote[slave], e);
    n := 1 + m;
    RepeatNext(e, n);
    RepeatNext(e, 1);
    assert Opened(With(x, Repeat(e, n)), slave) == With(Opened(With(x, Repeat(e, 1)), slave), Repeat(e, m));
  }

  lemma SlavesUse(cfg: Config, x: Session, slaves: seq<string>, local: Dir, e: Event) returns (n: nat)
    requires (forall s | s in slaves :: s in x.w.remote) && e.outcome.Done?
    ensures ReplicateSlaves(cfg, With(x, Repeat(e, n)), slaves, local).w.tape == Tape([], false)
  {
    SlaveStepUses(cfg, local, e);
    n := FoldUses(SlaveStep(cfg, local), x, slaves, e);
    SlavesFold(cfg, With(x, Repeat(e, n)), slaves, local);
  }

  lemma SlaveStepUses(cfg: Config, local: Dir, e: Event)
    requires e.outcome.Done?
    ensures UsesSome(SlaveStep(cfg, local), e)
  {
    var f := SlaveStep(cfg, local);
    forall x: Session, slave: string ensures UsesAny(f, x, slave, e) {
      if slave in x.w.remote {
        var k := SlaveUses(cfg, x, slave, local, e);
        forall m: nat ensures f(With(x, Repeat(e, k + m)), slave)
            == With(f(With(x, Repeat(e, k)), slave), Repeat(e, m)) {
          SlaveThen(cfg, x, slave, local, e, k, m);
        }
        assert Uses(f, x, slave, e, k);
      } else {
        assert Uses(f, x, slave, e, 0);
      }
    }
  }

  lemma SlaveThen(cfg: Config, x: Session, slave: string, local: Dir, e: Event, k: nat, m: nat)
    requires slave in x.w.remote
    requires ReplicateSlave(cfg, With(x, Repeat(e, k)), slave, local).w.tape == Tape([], false)
    ensures ReplicateSlave(cfg, With(x, Repeat(e, k + m)), slave, local)
            == With(ReplicateSlave(cfg, With(x, Repeat(e, k)), slave, local), Repeat(e, m))
  {
    RepeatMore(e, k, m);
    if m > 0 {
      SlaveSteps(cfg, With(x, Repeat(e, k)), With(x, Repeat(e, k + m)), Repeat(e, m), slave, local);
    }
  }

  /** Taking snapshots at one and the same time: each name is there then, made now or before. */
  lemma {:induction false} TakeUses(w: World, subvols: seq<string>, failed: bool, e: Event) returns (n: nat)
    requires e.outcome.Done?
    ensures var w' := TakeSnapshots(w.(tape := Tape(Repeat(e, n), false)), subvols, failed).0;
            w'.tape == Tape([], false) && (forall v | v in subvols :: Name(v, e.now) in w'.local)
                && forall m | m in w.local :: m in w'.local
    decreases |subvols|
  {
    if subvols == [] {
      n := 0;
    } else {
      var v, rest := subvols[0], subvols[1..];
      var k := if Name(v, e.now) in w.local then 2 else 1;
      RepeatNext(e, k);
      RepeatNext(e, k - 1 + (2 - k));
      var (w1, f) := CreateSnapshot(w.(tape := Tape(Repeat(e, k), false)), v);
      var m := TakeUses(w1, rest, failed || f, e);
      n := k + m;
      RepeatNext(e, n);
      RepeatNext(e, n - 1 + (2 - k));
      assert CreateSnapshot(w.(tape := Tape(Repeat(e, n), false)), v) == (w1.(tape := Tape(Repeat(e, m), false)), f);
      assert subvols == [v] + rest;
    }
  }

  /** When the snapshots are taken with `k` commands, and the listing and the cursor file are read after them. */
  function Begun(cfg: Config, w: World, e: Event, k: nat): Session {
    var (w1, f) := TakeSnapshots(w.(log := Log(false, {}, false), tape := Tape(Repeat(e, k), false)), cfg.subvolumes,
        false);
    Session(w1.(log := w1.log.(loaded := true)), w1.file, f)
  }

  lemma StartUses(cfg: Config, w: World, e: Event, k: nat, m: nat)
    requires e.outcome.Done? && Begun(cfg, w, e, k).w.tape == Tape([], false)
    ensures Start(cfg, Loaded(w, Repeat(e, k + 2 + m))) == (With(Begun(cfg, w, e, k), Repeat(e, m)), true)
  {
    var a := w.(log := Log(false, {}, false), tape := Tape(Repeat(e, k), false));
    var b := w.(log := Log(false, {}, false), tape := Tape(Repeat(e, k + 2 + m), false));
    RepeatMore(e, k, 2 + m);
    TakeSteps(a, b, Repeat(e, 2 + m), cfg.subvolumes, false);
    var a1 := TakeSnapshots(a, cfg.subvolumes, false).0;
    assert a1.tape.script + Repeat(e, 2 + m) == Repeat(e, 2 + m);
    assert TakeSnapshots(b, cfg.subvolumes, false).0 == a1.(tape := Tape(Repeat(e, 2 + m), false));
    RepeatNext(e, 2 + m);
    RepeatNext(e, 1 + m);
  }

  /** A cycle of commands that all work, as far as its last slave and no further. */
  lemma PhaseUses(cfg: Config, w: World, e: Event) returns (n: nat)
    requires Connected(cfg, w) && e.outcome.Done?
    ensures var w0 := Loaded(w, Repeat(e, n));
            && Start(cfg, w0).1 && AfterSlaves(cfg, w0).w.tape == Tape([], false)
            && forall v | v in cfg.subvolumes :: Name(v, e.now) in BeforeSlaves(cfg, w0).w.local
  {
    var k := TakeUses(w.(log := Log(false, {}, false)), cfg.subvolumes, false, e);
    var x := Begun(cfg, w, e, k);
    BegunKeeps(cfg, w, e, k);
    var m := SlavesUse(cfg, x, cfg.slaves, x.w.local, e);
    n := k + 2 + m;
    StartUses(cfg, w, e, k, m);
    PhaseEnds(cfg, Loaded(w, Repeat(e, n)), x, Repeat(e, m));
  }

  lemma BegunKeeps(cfg: Config, w: World, e: Event, k: nat)
    ensures Begun(cfg, w, e, k).w.remote == w.remote
  {
  }

  lemma PhaseEnds(cfg: Config, w: World, x: Session, script: seq<Event>)
    requires Connected(cfg, w) && Connected(cfg, x.w) && Start(cfg, w) == (With(x, script), true)
    requires ReplicateSlaves(cfg, With(x, script), cfg.slaves, x.w.local).w.tape == Tape([], false)
    ensures AfterSlaves(cfg, w).w.tape == Tape([], false) && BeforeSlaves(cfg, w).w.local == x.w.local
  {
  }

  /* ---- how stale a cursor gets in one cycle ---- */

  /** With `k` copies newer than `n` on their way through a cycle, `k` are left. */
  lemma Crowded(k: nat, d: Dir, d': Dir, n: Name, latest: Name)
    requires Retains(k, d, d') && |Newer(d, n)| + 1 >= k
    requires latest in d' && d'[latest].Received() && latest !in d && latest.subvol == n.subvol && n.time < latest.time
    ensures |Newer(d', n)| >= k
  {
    if m :| m in Newer(d, n) && m !in Newer(d', n) {
      assert Kept(k, d', m, d[m].receivedUuid);
      SubsetSize(Newer(d', m), Newer(d', n));
    } else {
      SubsetSize(Newer(d, n) + {latest}, Newer(d', n));
    }
  }

  /** If there is room for `k` entries only, the copy they are all newer than has gone. */
  lemma PushedOut(k: nat, d: Dir, d': Dir, n: Name, latest: Name)
    requires Retains(k, d, d') && |Newer(d, n)| + 1 >= k && Tidy(d', n.subvol, k)
    requires latest in d' && d'[latest].Received() && latest !in d && latest.subvol == n.subvol && n.time < latest.time
    ensures n !in d'
  {
    Crowded(k, d, d', n, latest);
    if n in d' {
      SubsetSize(Newer(d', n) + {n}, NamesOf(d', n.subvol));
    }
  }

  /** A time after all times on the master and on the slave. */
  lemma After(a: Dir, b: Dir) returns (now: int)
    ensures forall n | n in a || n in b :: n.time < now
  {
    var times := set n | n in a.Keys + b.Keys :: n.time;
    now := AboveAll(times);
    forall n | n in a || n in b ensures n.time < now {
      assert n in a.Keys + b.Keys;
      assert n.time in times;
    }
  }

  /**
    Without room for one more copy there is a cycle that loses the anchor: every command works, and it is cut off
    before it saves.
   */
  lemma NoRoom(cfg: Config, w: World, slave: string, subvol: string) returns (script: seq<Event>)
    requires Inv(cfg, w) && ValidConfig(cfg) && slave in cfg.slaves && subvol in cfg.subvolumes
    requires HasAnchor(w, slave, subvol)
    requires |Newer(w.remote[slave], Get(w.file, slave, subvol).value.name)| + 1 >= AtLeastOne(cfg.keepReceiver)
    ensures AllDone(Tape(script, false))
    ensures var w' := Cycle(cfg, Loaded(w, script)).0;
            !w'.log.saved && w'.file == w.file && !HasAnchor(w', slave, subvol)
  {
    var now := After(w.local, w.remote[slave]);
    var e := Event(Done, now);
    var n := PhaseUses(cfg, w, e);
    script := Repeat(e, n);
    LoadedInv(cfg, w, script);
    CutBeforeSave(cfg, Loaded(w, script), slave, subvol, now);
  }

  /** When the tape ends with the last slave, nothing is saved and the slaves stay as they are then. */
  lemma NotSaved(cfg: Config, w: World)
    requires Inv(cfg, w) && ValidConfig(cfg) && !Stops(cfg, w) && AfterSlaves(cfg, w).w.tape == Tape([], false)
    ensures var w' := Cycle(cfg, w).0; !w'.log.saved && w'.file == w.file && w'.remote == AfterSlaves(cfg, w).w.remote
  {
    FullCycle(cfg, w);
    var y := AfterSlaves(cfg, w);
    assert Finish(cfg, y, BeforeSlaves(cfg, w).w.local).0.log.saved == y.w.log.saved;
  }

  lemma CutBeforeSave(cfg: Config, w: World, slave: string, subvol: string, now: int)
    requires Inv(cfg, w) && ValidConfig(cfg) && slave in cfg.slaves && subvol in cfg.subvolumes
             && HasAnchor(w, slave, subvol)
    requires |Newer(w.remote[slave], Get(w.file, slave, subvol).value.name)| + 1 >= AtLeastOne(cfg.keepReceiver)
    requires (forall n | n in w.local || n in w.remote[slave] :: n.time < now) && AllDone(w.tape)
    requires Start(cfg, w).1 && AfterSlaves(cfg, w).w.tape == Tape([], false)
    requires Name(subvol, now) in BeforeSlaves(cfg, w).w.local
    ensures var w' := Cycle(cfg, w).0; !w'.log.saved && w'.file == w.file && !HasAnchor(w', slave, subvol)
  {
    var x, w' := BeforeSlaves(cfg, w), Cycle(cfg, w).0;
    var c, k := Get(w.file, slave, subvol).value, AtLeastOne(cfg.keepReceiver);
    SlavesFollow(cfg, x, cfg.slaves, x.w.local);
    CleanStart(cfg, w);
    StartWaiting(cfg, w);
    PhaseConverges(cfg, x, slave, subvol);
    CycleSafe(cfg, w);
    NotSaved(cfg, w);
    var latest := NewestCopied(cfg, w, slave, subvol, now);
    var d, d' := w.remote[slave], w'.remote[slave];
    assert Retains(k, d, d');
    PushedOut(k, d, d', c.name, latest);
  }

  /** The newest local snapshot is a new copy on the slave when the phase ends. */
  lemma NewestCopied(cfg: Config, w: World, slave: string, subvol: string, now: int) returns (latest: Name)
    requires Inv(cfg, w) && ValidConfig(cfg) && slave in cfg.slaves && subvol in cfg.subvolumes && !Stops(cfg, w)
    requires slave in w.remote && Name(subvol, now) in BeforeSlaves(cfg, w).w.local
    requires slave in AfterSlaves(cfg, w).w.log.reached
    requires AtLatest(BeforeSlaves(cfg, w).w.local, AfterSlaves(cfg, w).cur, slave, subvol)
    ensures var d' := AfterSlaves(cfg, w).w.remote[slave];
            latest in d' && d'[latest].Received() && latest.subvol == subvol && latest.time >= now
  {
    var x, y := BeforeSlaves(cfg, w), AfterSlaves(cfg, w);
    var list := Listing(x.w.local, subvol);
    FullCycle(cfg, w);
    ReachedCursor(cfg, w, slave, subvol);
    NewestOfIsNewest(list, ReadOnlyOne);
    var s := Latest(x.w.local, subvol).value;
    latest := s.name;
    var mine := Snapshot(Name(subvol, now), x.w.local[Name(subvol, now)]);
    assert mine in list && Meets(mine, ReadOnlyOne);
  }

  /**
    Tightness of the stale-cursor bound, for one cycle: every next cycle that does not save leaves the anchor on
    both sides exactly if the slave has room for one more copy beside it.
   */
  lemma UnsavedCycleExactly(cfg: Config, w: World, slave: string, subvol: string)
    requires Inv(cfg, w) && ValidConfig(cfg) && slave in cfg.slaves && subvol in cfg.subvolumes
    requires HasAnchor(w, slave, subvol)
    ensures (forall script :: !Cycle(cfg, Loaded(w, script)).0.log.saved ==>
            HasAnchor(Cycle(cfg, Loaded(w, script)).0, slave, subvol))
            <==> |Newer(w.remote[slave], Get(w.file, slave, subvol).value.name)| + 1 < AtLeastOne(cfg.keepReceiver)
  {
    if |Newer(w.remote[slave], Get(w.file, slave, subvol).value.name)| + 1 < AtLeastOne(cfg.keepReceiver) {
      forall script | !Cycle(cfg, Loaded(w, script)).0.log.saved ensures HasAnchor(Cycle(cfg, Loaded(w, script)).0,
          slave, subvol) {
        LoadedInv(cfg, w, script);
        RoomForOne(cfg, Loaded(w, script), slave, subvol);
      }
    } else {
      var script := NoRoom(cfg, w, slave, subvol);
      assert !HasAnchor(Cycle(cfg, Loaded(w, script)).0, slave, subvol);
    }
  }

  /* ---- inputs at which an anchor is lost ---- */

  /** One slave, one subvolume, one copy to keep: the first snapshot has been sent, and the cursor names it. */
  function OneSlave(slave: string, subvol: string): Config {
    Config([subvol], [slave], 1, 1, 0)
  }

  function FirstSent(slave: string, subvol: string, script: seq<Event>): World {
    var n := Name(subvol, 0);
    World(map[n := Copy(1, 0, true)], map[slave := map[n := Copy(2, 1, true)]],
          map[slave := map[subvol := Cursor(n, 1)]], 3, Tape(script, false), Log(true, {}, true), [])
  }

  /** It is a state the theorems apply to, with its cursor backed on both sides. */
  lemma FirstSentSound(slave: string, subvol: string, script: seq<Event>)
    ensures var cfg, w := OneSlave(slave, subvol), FirstSent(slave, subvol, script);
            Inv(cfg, w) && ValidConfig(cfg) && HasAnchor(w, slave, subvol) && CursorsBacked(cfg, w, [])
  {
    var cfg, w, n := OneSlave(slave, subvol), FirstSent(slave, subvol, script), Name(subvol, 0);
    assert Dominated(w.local, n, 1);
    assert CopyOk(cfg, w.local, n, w.remote[slave][n], w.nextId);
    assert HasAnchor(w, slave, subvol);
  }

  lemma ListingOfOne(d: Dir, n: Name)
    requires d.Keys == {n}
    ensures Listing(d, n.subvol) == [Snapshot(n, d[n])]
  {
    SortedUnique(Listing(d, n.subvol), [Snapshot(n, d[n])]);
  }

  lemma ListingOfTwo(d: Dir, n: Name, m: Name)
    requires d.Keys == {n, m} && n.subvol == m.subvol && n.time < m.time
    ensures Listing(d, n.subvol) == [Snapshot(n, d[n]), Snapshot(m, d[m])]
  {
    SortedUnique(Listing(d, n.subvol), [Snapshot(n, d[n]), Snapshot(m, d[m])]);
  }

  /** With one subvolume and one slave, the loops are one turn. */
  lemma TakeOne(w: World, subvol: string)
    ensures TakeSnapshots(w, [subvol], false) == CreateSnapshot(w, subvol)
  {
    var (w1, f) := CreateSnapshot(w, subvol);
    assert [subvol][1..] == [];
    assert TakeSnapshots(w1, [], f) == (w1, f);
  }

  lemma OneTurn(cfg: Config, x: Session, slave: string, subvol: string, local: Dir, infos: Dir)
    requires slave in x.w.remote
    ensures ReplicateSlaves(cfg, x, [slave], local) == ReplicateSlave(cfg, x, slave, local)
    ensures ReplicateSubvols(cfg, x, slave, [subvol], local, infos)
            == ReplicateSubvol(cfg, x, slave, subvol, Listing(local, subvol), Listing(infos, subvol))
  {
    assert [slave][1..] == [] && [subvol][1..] == [];
    var x1 := ReplicateSubvol(cfg, x, slave, subvol, Listing(local, subvol), Listing(infos, subvol));
    assert ReplicateSubvols(cfg, x1, slave, [], local, infos) == x1;
    var x2 := ReplicateSlave(cfg, x, slave, local);
    assert ReplicateSlaves(cfg, x2, [], local) == x2;
  }

  lemma NextIs(e: Event, rest: seq<Event>)
    ensures Next(Tape([e] + rest, false)) == (e, Tape(rest, false))
  {
    assert ([e] + rest)[1..] == rest;
  }

  /** How the cycle begins, when a snapshot is made or refused and the local listing works. */
  lemma FirstStart(slave: string, subvol: string, take: Event, read: Event, rest: seq<Event>)
    requires take.now == 1 && (take.outcome.Done? || take.outcome.Refused?)
    ensures var n := Name(subvol, 0);
            var w := FirstSent(slave, subvol, [take] + ([Event(Done, 1)] + ([read] + rest)));
            var (x, listed) := Start(OneSlave(slave, subvol), w);
            && listed && x.w.tape == Tape(rest, false) && x.w.log == Log(read.outcome.Done?, {}, false)
            && x.w.remote == w.remote && x.w.file == w.file
            && x.cur == (if read.outcome.Done? then w.file else map[])
            && (if take.outcome.Done? then x.w.local == w.local[Name(subvol, 1) := Copy(3, 0, true)]
               && x.w.nextId == 4 else x.w.local == w.local)
  {
    var done := Event(Done, 1);
    var w := FirstSent(slave, subvol, [take] + ([done] + ([read] + rest))).(log := Log(false, {}, false));
    NextIs(take, [done] + ([read] + rest));
    NextIs(done, [read] + rest);
    NextIs(read, rest);
    TakeOne(w, subvol);
  }

  function FirstCopy(subvol: string): Snapshot { Snapshot(Name(subvol, 0), Copy(2, 1, true)) }

  function First(subvol: string): Snapshot { Snapshot(Name(subvol, 0), Copy(1, 0, true)) }

  function Second(subvol: string): Snapshot { Snapshot(Name(subvol, 1), Copy(3, 0, true)) }

  /** The plan for the second cycle: nothing is garbage, the first snapshot is the parent, and its copy will go. */
  lemma SecondPlan(subvol: string)
    ensures var list, there := [First(subvol), Second(subvol)], [FirstCopy(subvol)];
            && OfKind(there, Uuids(list), Complete) == there && OfKind(there, Uuids(list), Leftover) == []
            && ParentOf(list, there) == Some(First(subvol)) && NewestOf(list, ReadOnlyOne) == Some(Second(subvol))
            && PlanRemotePrune(there + [Second(subvol)], 1) == there
  {
    var list, there := [First(subvol), Second(subvol)], [FirstCopy(subvol)];
    assert Uuids(list) == {1, 3};
    assert there[..0] == [] && list[..1] == [First(subvol)];
    assert OfKind(there[..0], Uuids(list), Complete) == [] && OfKind(there[..0], Uuids(list), Leftover) == [];
    assert ReceivedUuids(there) == {1};
    assert NewestOf([First(subvol)], SentAs({1})) == Some(First(subvol));
    assert (there + [Second(subvol)])[..1] == there;
  }

  /** The second snapshot goes to the slave, and the prune takes the first one there. */
  lemma SecondReplacesFirst(x: Session, slave: string, subvol: string)
    requires slave in x.w.remote && x.w.remote[slave] == map[Name(subvol, 0) := FirstCopy(subvol).copy]
    requires x.w.tape == Tape([Event(Done, 1), Event(Done, 1)], false)
    ensures var r := ReplicateSubvol(OneSlave(slave, subvol), x, slave, subvol, [First(subvol), Second(subvol)],
            [FirstCopy(subvol)]);
            Name(subvol, 0) !in r.w.remote[slave] && r.w.tape == Tape([], false) && r.w.file == x.w.file
  {
    SecondPlan(subvol);
    SweepNothing(x.w, slave);
    SecondDelivered(x.w, slave, subvol);
  }

  lemma SecondDelivered(w: World, slave: string, subvol: string)
    requires slave in w.remote && w.remote[slave] == map[Name(subvol, 0) := FirstCopy(subvol).copy]
    requires w.tape == Tape([Event(Done, 1), Event(Done, 1)], false)
    ensures var (w', failed) := Deliver(w, slave, Second(subvol), Some(First(subvol)), [FirstCopy(subvol)]);
            !failed && Name(subvol, 0) !in w'.remote[slave] && w'.tape == Tape([], false) && w'.file == w.file
  {
    var e := Event(Done, 1);
    NextIs(e, [e]);
    NextIs(e, []);
    var w2 := Send(w, slave, Second(subvol), Some(First(subvol))).0;
    var n := Name(subvol, 0);
    assert n in w.remote[slave] && w.remote[slave][n].Received()
        && w.remote[slave][n].receivedUuid == First(subvol).copy.SendUuid();
    assert w2.tape == Tape([e], false);
    assert [FirstCopy(subvol)][1..] == [];
    assert Sweep(w2.remote[slave] - {n}, Tape([], false), []) == (w2.remote[slave] - {n}, Tape([], false));
  }

  /**
    Between the remote prune and the save the cursor on disk is stale: six commands that work, and then the end
    of the process. The slave no longer has the copy that the cursor file still names.
   */
  lemma CursorGoesStale(slave: string, subvol: string)
    ensures var e := Event(Done, 1);
            var w := FirstSent(slave, subvol, [e, e, e, e, e, e]);
            var w' := Cycle(OneSlave(slave, subvol), w).0;
            HasAnchor(w, slave, subvol) && w'.file == w.file && !HasAnchor(w', slave, subvol)
  {
    var e := Event(Done, 1);
    var cfg, w := OneSlave(slave, subvol), FirstSent(slave, subvol, [e, e, e, e, e, e]);
    FirstSentSound(slave, subvol, w.tape.script);
    assert w.tape.script == [e] + ([e] + ([e] + [e, e, e]));
    FirstStart(slave, subvol, e, e, [e, e, e]);
    var x := BeforeSlaves(cfg, w);
    NextIs(e, [e, e]);
    var o := Opened(x, slave);
    ListingOfTwo(x.w.local, Name(subvol, 0), Name(subvol, 1));
    ListingOfOne(x.w.remote[slave], Name(subvol, 0));
    OneTurn(cfg, x, slave, subvol, x.w.local, x.w.remote[slave]);
    OneTurn(cfg, o, slave, subvol, x.w.local, x.w.remote[slave]);
    SecondReplacesFirst(o, slave, subvol);
    CutThere(cfg, w, AfterSlaves(cfg, w));
  }

  lemma CutThere(cfg: Config, w: World, y: Session)
    requires Connected(cfg, w) && cfg.slaves != [] && Start(cfg, w).1 && AfterSlaves(cfg, w) == y
             && y.w.tape == Tape([], false)
    ensures Cycle(cfg, w).0.file == y.w.file && Cycle(cfg, w).0.remote == y.w.remote
  {
  }

  /**
    A cursor file that cannot be read is saved over: the slave is not reached in that cycle, and its cursor is
    gone although both sides still have the snapshot.
   */
  lemma UnreadableFileLosesAnchor(slave: string, subvol: string)
    ensures var done, no := Event(Done, 1), Event(Refused, 1);
            var w := FirstSent(slave, subvol, [no, done, no, no, done]);
            var w' := Cycle(OneSlave(slave, subvol), w).0;
            HasAnchor(w, slave, subvol) && w'.log.saved && w'.local == w.local && w'.remote == w.remote
            && Get(w'.file, slave, subvol).None?
  {
    var done, no := Event(Done, 1), Event(Refused, 1);
    var cfg, w := OneSlave(slave, subvol), FirstSent(slave, subvol, [no, done, no, no, done]);
    FirstSentSound(slave, subvol, w.tape.script);
    assert w.tape.script == [no] + ([done] + ([no] + [no, done]));
    FirstStart(slave, subvol, no, no, [no, done]);
    var x := BeforeSlaves(cfg, w);
    NextIs(no, [done]);
    NextIs(done, []);
    OneTurn(cfg, x, slave, subvol, x.w.local, x.w.remote[slave]);
    SavedOver(cfg, w, AfterSlaves(cfg, w));
  }

  lemma SavedOver(cfg: Config, w: World, y: Session)
    requires Connected(cfg, w) && cfg.slaves != [] && Start(cfg, w).1 && AfterSlaves(cfg, w) == y
    requires Next(y.w.tape).0.outcome.Done? && !y.w.log.loaded && y.cur == map[]
    ensures var w' := Cycle(cfg, w).0;
              w'.log.saved && w'.local == y.w.local && w'.remote == y.w.remote && w'.file == map[]
  {
  }
}
