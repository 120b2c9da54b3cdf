/** What a cycle achieves: when it reports success, and when nothing fails. */
module Convergence {
  import opened Wrappers
  import opened Snapshots
  import opened CursorTable
  import opened Plan
  import opened Protocol
  import opened Safety
  import opened Replication
  import opened Cycles
  import opened Runs
  import opened Theorems
  import opened Tapes
  import opened LocalPruning

  /* ---- success means synced ---- */

  function Latest(local: Dir, subvol: string): Option<Snapshot> {
    NewestOf(Listing(local, subvol), ReadOnlyOne)
  }

  /** The cursor names the newest local snapshot. */
  predicate AtLatest(local: Dir, cur: Cursors, slave: string, subvol: string) {
    Latest(local, subvol).Some? && Get(cur, slave, subvol) == Some(CursorOf(Latest(local, subvol).value))
  }

  lemma SubvolAtLatest(cfg: Config, x: Session, slave: string, subvol: string)
    requires Inv(cfg, x.w) && slave in x.w.remote && subvol in cfg.subvolumes
    requires !ReplicateSubvol(cfg, x, slave, subvol, Listing(x.w.local, subvol),
             Listing(x.w.remote[slave], subvol)).failed
    ensures !x.failed
    ensures AtLatest(x.w.local, ReplicateSubvol(cfg, x, slave, subvol, Listing(x.w.local, subvol),
            Listing(x.w.remote[slave], subvol)).cur, slave, subvol)
  {
    var local, remote := Listing(x.w.local, subvol), Listing(x.w.remote[slave], subvol);
    PlannerView(cfg, x.w, slave, subvol, local, remote);
    var parent := ParentOf(local, remote);
    var latest := Latest(x.w.local, subvol).value;
    SetGet(Remember(x.cur, slave, subvol, parent), slave, subvol, latest);
    if parent.Some? { SetGet(x.cur, slave, subvol, parent.value); }
  }

  lemma {:induction false} SubvolsAtLatest(cfg: Config, x: Session, slave: string, subvols: seq<string>, infos: Dir)
    requires Ready(cfg, x, slave, subvols, infos)
    requires !ReplicateSubvols(cfg, x, slave, subvols, x.w.local, infos).failed
    ensures !x.failed
    ensures forall v {:trigger AtLatest(x.w.local, ReplicateSubvols(cfg, x, slave, subvols, x.w.local, infos).cur,
            slave, v)} |
              v in subvols :: AtLatest(x.w.local, ReplicateSubvols(cfg, x, slave, subvols, x.w.local, infos).cur,
                  slave, v)
    decreases |subvols|
  {
    if subvols != [] {
      var v, rest := subvols[0], subvols[1..];
      DistinctTail(subvols);
      ReadyNext(cfg, x, slave, subvols, infos);
      var x1 := ReplicateSubvol(cfg, x, slave, v, Listing(x.w.local, v), Listing(infos, v));
      SubvolsAtLatest(cfg, x1, slave, rest, infos);
      FirstAtLatest(cfg, x, slave, v, infos);
      CursorFixed(cfg, x1, slave, rest, infos, v);
      var r := ReplicateSubvols(cfg, x1, slave, rest, x.w.local, infos);
      forall u | u in subvols ensures AtLatest(x.w.local, r.cur, slave, u) {
        if u != v { assert u in rest && AtLatest(x1.w.local, r.cur, slave, u); }
      }
    }
  }

  lemma FirstAtLatest(cfg: Config, x: Session, slave: string, v: string, infos: Dir)
    requires Inv(cfg, x.w) && slave in x.w.remote && v in cfg.subvolumes && SameOn(infos, x.w.remote[slave], v)
    requires !ReplicateSubvol(cfg, x, slave, v, Listing(x.w.local, v), Listing(infos, v)).failed
    ensures !x.failed
    ensures AtLatest(x.w.local, ReplicateSubvol(cfg, x, slave, v, Listing(x.w.local, v), Listing(infos, v)).cur,
            slave, v)
  {
    ListingSameOn(infos, x.w.remote[slave], v);
    SubvolAtLatest(cfg, x, slave, v);
  }

  /** Replicating other subvolumes leaves this one's cursor and its copies alone. */
  lemma CursorFixed(cfg: Config, x: Session, slave: string, subvols: seq<string>, infos: Dir, v: string)
    requires Ready(cfg, x, slave, subvols, infos) && v !in subvols
    ensures var r := ReplicateSubvols(cfg, x, slave, subvols, x.w.local, infos);
            Get(r.cur, slave, v) == Get(x.cur, slave, v) && SameOn(x.w.remote[slave], r.w.remote[slave], v)
  {
    ReplicateSubvolsSafe(cfg, x, slave, subvols, infos);
  }

  lemma OpenedReady(cfg: Config, x: Session, slave: string)
    requires Inv(cfg, x.w) && ValidConfig(cfg) && slave in x.w.remote
    ensures Ready(cfg, Opened(x, slave), slave, cfg.subvolumes, x.w.remote[slave])
  {
  }

  lemma SlaveAtLatest(cfg: Config, x: Session, slave: string)
    requires Inv(cfg, x.w) && ValidConfig(cfg) && slave in x.w.remote
    requires !ReplicateSlave(cfg, x, slave, x.w.local).failed
    ensures !x.failed && slave in ReplicateSlave(cfg, x, slave, x.w.local).w.log.reached
    ensures forall v {:trigger AtLatest(x.w.local, ReplicateSlave(cfg, x, slave, x.w.local).cur, slave, v)} |
              v in cfg.subvolumes :: AtLatest(x.w.local, ReplicateSlave(cfg, x, slave, x.w.local).cur, slave, v)
  {
    OpenedReady(cfg, x, slave);
    SubvolsAtLatest(cfg, Opened(x, slave), slave, cfg.subvolumes, x.w.remote[slave]);
    ReplicateSubvolsSafe(cfg, Opened(x, slave), slave, cfg.subvolumes, x.w.remote[slave]);
  }

  /** The slaves that are to come have not been reached yet. */
  ghost predicate Waiting(cfg: Config, x: Session, slaves: seq<string>) {
    Inv(cfg, x.w) && ValidConfig(cfg) && Distinct(slaves) && forall s | s in slaves ::
        s in x.w.remote && s !in x.w.log.reached
  }

  lemma WaitingNext(cfg: Config, x: Session, slaves: seq<string>)
    requires Waiting(cfg, x, slaves) && slaves != []
    ensures var x1 := ReplicateSlave(cfg, x, slaves[0], x.w.local);
            Waiting(cfg, x1, slaves[1..]) && x1.w.local == x.w.local
  {
    DistinctTail(slaves);
    ReplicateSlaveSafe(cfg, x, slaves[0]);
  }

  /** Replicating to other slaves leaves this one alone. */
  lemma SlaveFixed(cfg: Config, x: Session, slaves: seq<string>, slave: string)
    requires Waiting(cfg, x, slaves) && slave !in slaves && slave in x.w.remote
    ensures var r := ReplicateSlaves(cfg, x, slaves, x.w.local);
            && r.w.remote[slave] == x.w.remote[slave] && (slave in x.w.log.reached ==> slave in r.w.log.reached)
            && forall v :: Get(r.cur, slave, v) == Get(x.cur, slave, v)
  {
    ReplicateSlavesSafe(cfg, x, slaves);
    assert Untouched(x, ReplicateSlaves(cfg, x, slaves, x.w.local), slave);
  }

  lemma {:induction false} SlavesAtLatest(cfg: Config, x: Session, slaves: seq<string>, s: string, v: string)
    requires Waiting(cfg, x, slaves) && s in slaves && v in cfg.subvolumes
    requires !ReplicateSlaves(cfg, x, slaves, x.w.local).failed
    ensures var r := ReplicateSlaves(cfg, x, slaves, x.w.local);
            s in r.w.log.reached && AtLatest(x.w.local, r.cur, s, v)
    decreases |slaves|
  {
    var x1, rest := ReplicateSlave(cfg, x, slaves[0], x.w.local), slaves[1..];
    DistinctTail(slaves);
    WaitingNext(cfg, x, slaves);
    if s == slaves[0] {
      FailureSticks(cfg, x1, rest);
      SlaveAtLatest(cfg, x, s);
      SlaveFixed(cfg, x1, rest, s);
      assert AtLatest(x.w.local, x1.cur, s, v);
    } else {
      SlavesAtLatest(cfg, x1, rest, s, v);
    }
  }

  lemma {:induction false} FailureSticks(cfg: Config, x: Session, slaves: seq<string>)
    requires Waiting(cfg, x, slaves) && !ReplicateSlaves(cfg, x, slaves, x.w.local).failed
    ensures !x.failed
    decreases |slaves|
  {
    if slaves != [] {
      WaitingNext(cfg, x, slaves);
      FailureSticks(cfg, ReplicateSlave(cfg, x, slaves[0], x.w.local), slaves[1..]);
      SlaveAtLatest(cfg, x, slaves[0]);
    }
  }

  /** The slave holds a complete copy of the newest local snapshot, and the cursor on disk names it. */
  ghost predicate Synced(w: World, slave: string, subvol: string) {
    HasAnchor(w, slave, subvol) && AtLatest(w.local, w.file, slave, subvol)
  }

  /** Pruning keeps the newest local snapshot the newest. */
  lemma LatestStays(cfg: Config, w: World, w': World, subvol: string)
    requires LocalOk(w.local, w.nextId) && LocalOk(w'.local, w'.nextId)
    requires Within(w'.local, w.local) && NewestStays(w.local, w'.local) && Latest(w.local, subvol).Some?
    ensures Latest(w'.local, subvol) == Latest(w.local, subvol)
  {
    var a, b := Listing(w.local, subvol), Listing(w'.local, subvol);
    NewestOfIsNewest(a, ReadOnlyOne);
    NewestOfIsNewest(b, ReadOnlyOne);
    var s := Latest(w.local, subvol).value;
    assert Outlived(w'.local, s.name);
    var m :| m in w'.local && m.subvol == s.name.subvol && s.name.time <= m.time;
    var y := Snapshot(m, w'.local[m]);
    assert y in b && y in a && Meets(y, ReadOnlyOne);
    assert y == s;
    var z := Latest(w'.local, subvol).value;
    assert z in a;
  }

  lemma SyncedAfterFinish(cfg: Config, w: World, slave: string, subvol: string)
    requires Inv(cfg, w) && ValidConfig(cfg) && !Stops(cfg, w) && slave in cfg.slaves && subvol in cfg.subvolumes
    requires Cycle(cfg, w).0.log.saved
    requires slave in AfterSlaves(cfg, w).w.log.reached && AtLatest(AfterSlaves(cfg, w).w.local,
             AfterSlaves(cfg, w).cur, slave, subvol)
    ensures Synced(Cycle(cfg, w).0, slave, subvol)
  {
    var y, w' := AfterSlaves(cfg, w), Cycle(cfg, w).0;
    FullCycle(cfg, w);
    CursorInFile(cfg, w, slave, subvol);
    ReachedCursor(cfg, w, slave, subvol);
    LatestStays(cfg, y.w, w', subvol);
    NewestOfIsNewest(Listing(w'.local, subvol), ReadOnlyOne);
  }

  lemma StartWaiting(cfg: Config, w: World)
    requires Inv(cfg, w) && ValidConfig(cfg)
    ensures Waiting(cfg, BeforeSlaves(cfg, w), cfg.slaves)
    ensures AfterSlaves(cfg, w).w.local == BeforeSlaves(cfg, w).w.local
  {
    StartSafe(cfg, w);
    ReplicateSlavesSafe(cfg, BeforeSlaves(cfg, w), cfg.slaves);
  }

  lemma NoErrorMeans(cfg: Config, w: World)
    requires Connected(cfg, w) && cfg.slaves != [] && !Cycle(cfg, w).1
    ensures !Stops(cfg, w) && !AfterSlaves(cfg, w).failed && Cycle(cfg, w).0.log.saved
  {
  }

  /**
    A cycle that returns no error has synced every slave: it holds a complete copy of the newest local
    snapshot of every subvolume, and the saved cursor names that snapshot.
   */
  lemma SuccessMeansSynced(cfg: Config, w: World, slave: string, subvol: string)
    requires Inv(cfg, w) && ValidConfig(cfg) && slave in cfg.slaves && subvol in cfg.subvolumes
    requires !Cycle(cfg, w).1
    ensures Synced(Cycle(cfg, w).0, slave, subvol)
  {
    NoErrorMeans(cfg, w);
    StartWaiting(cfg, w);
    SlavesAtLatest(cfg, BeforeSlaves(cfg, w), cfg.slaves, slave, subvol);
    SyncedAfterFinish(cfg, w, slave, subvol);
  }

  /* ---- a cycle in which nothing fails ---- */

  lemma {:induction false} SweepDone(d: Dir, t: Tape, doomed: seq<Snapshot>)
    requires AllDone(t) && !Sweep(d, t, doomed).1.dead
    ensures forall x | x in doomed :: x.name !in Sweep(d, t, doomed).0
    decreases |doomed|
  {
    if doomed != [] {
      NextFollows(t);
      var (e, t1) := Next(t);
      var d1 := if Takes(e.outcome) then d - {doomed[0].name} else d;
      SweepFollows(d1, t1, doomed[1..]);
      SweepDone(d1, t1, doomed[1..]);
      SweepRemovesOnly(d1, t1, doomed[1..]);
      assert doomed == [doomed[0]] + doomed[1..];
    }
  }

  /** The subvolume on the slave: complete copies only, and at most `k` of them. */
  predicate Tidy(d: Dir, subvol: string, k: nat) {
    (forall n | n in d && n.subvol == subvol :: d[n].Received()) && |NamesOf(d, subvol)| <= k
  }

  /** Pruning a slave that holds exactly the copies listed leaves at most the newest max(keep, 1). */
  lemma PruneTidies(keep: int, d: Dir, t: Tape, c: seq<Snapshot>, subvol: string)
    requires Sorted(c) && AllDone(t) && !Sweep(d, t, PlanRemotePrune(c, keep)).1.dead
    requires forall n | n in d && n.subvol == subvol :: d[n].Received() && exists x | x in c :: x.name == n
    ensures Tidy(Sweep(d, t, PlanRemotePrune(c, keep)).0, subvol, AtLeastOne(keep))
  {
    var cut := Past(|c|, keep);
    var d' := Sweep(d, t, c[..cut]).0;
    SweepDone(d, t, c[..cut]);
    SweepRemovesOnly(d, t, c[..cut]);
    OnlyYoung(d', c, cut, subvol);
  }

  /** Without the names of the first `cut`, the names of the rest are all there is. */
  lemma OnlyYoung(d: Dir, c: seq<Snapshot>, cut: nat, subvol: string)
    requires Sorted(c) && cut <= |c| && forall x | x in c[..cut] :: x.name !in d
    requires forall n | n in d && n.subvol == subvol :: exists x | x in c :: x.name == n
    ensures |NamesOf(d, subvol)| <= |c| - cut
  {
    NamesCount(c[cut..]);
    forall n | n in NamesOf(d, subvol) ensures n in NamesIn(c[cut..]) {
      var x :| x in c && x.name == n;
      assert x in c[..cut] || x in c[cut..];
    }
    SubsetSize(NamesOf(d, subvol), NamesIn(c[cut..]));
  }

  /** Every entry of the subvolume is among the complete ones or among the leftovers. */
  ghost predicate Covered(d: Dir, subvol: string, complete: seq<Snapshot>, garbage: seq<Snapshot>) {
    forall n {:trigger ListedIn(n, complete)} | n in d && n.subvol == subvol :: ListedIn(n, complete)
        || ListedIn(n, garbage)
  }

  ghost predicate ListedIn(n: Name, s: seq<Snapshot>) {
    exists x | x in s :: x.name == n
  }

  /** No slave entry is one of the master's own, so the split of a listing covers it. */
  lemma SplitIsTotal(cfg: Config, w: World, slave: string, subvol: string)
    requires Inv(cfg, w) && slave in w.remote
    ensures var own, remote := Uuids(Listing(w.local, subvol)), Listing(w.remote[slave], subvol);
            Covered(w.remote[slave], subvol, OfKind(remote, own, Complete), OfKind(remote, own, Leftover))
  {
    var d := w.remote[slave];
    var own, remote := Uuids(Listing(w.local, subvol)), Listing(d, subvol);
    OfKindExact(remote, own, Complete);
    OfKindExact(remote, own, Leftover);
    assert RemoteOk(cfg, w.local, d, w.nextId);
    forall n | n in d && n.subvol == subvol
      ensures ListedIn(n, OfKind(remote, own, Complete)) || ListedIn(n, OfKind(remote, own, Leftover))
    {
      assert CopyOk(cfg, w.local, n, d[n], w.nextId);
      var x := Snapshot(n, d[n]);
      assert x in remote && KindOf(x, own) != Own;
      assert x in OfKind(remote, own, Complete) || x in OfKind(remote, own, Leftover);
    }
  }

  /** Once the leftovers are gone, the subvolume holds what was listed as complete and nothing else. */
  ghost predicate CompleteOnly(d: Dir, subvol: string, complete: seq<Snapshot>) {
    && (forall n | n in d && n.subvol == subvol :: d[n].Received() && ListedIn(n, complete))
    && (forall x | x in complete :: x.name in d && d[x.name].Received() && x.name.subvol == subvol)
  }

  lemma GarbageGone(d: Dir, t: Tape, subvol: string, complete: seq<Snapshot>, garbage: seq<Snapshot>)
    requires Covered(d, subvol, complete, garbage) && AllDone(t) && !Sweep(d, t, garbage).1.dead
    requires forall x | x in complete :: x.name in d && d[x.name].Received() && x.name.subvol == subvol
    requires forall x | x in garbage :: x.name in d && !d[x.name].Received()
    ensures CompleteOnly(Sweep(d, t, garbage).0, subvol, complete) && AllDone(Sweep(d, t, garbage).1)
  {
    var d1 := Sweep(d, t, garbage).0;
    SweepFollows(d, t, garbage);
    SweepDone(d, t, garbage);
    SweepRemovesOnly(d, t, garbage);
    forall n | n in d1 && n.subvol == subvol ensures d1[n].Received() && ListedIn(n, complete) {
      assert ListedIn(n, complete) || ListedIn(n, garbage);
    }
  }

  lemma PruneConverges(keep: int, d: Dir, t: Tape, subvol: string, complete: seq<Snapshot>)
    requires Sorted(complete) && CompleteOnly(d, subvol, complete)
    requires AllDone(t) && !Sweep(d, t, PlanRemotePrune(complete, keep)).1.dead
    ensures Tidy(Sweep(d, t, PlanRemotePrune(complete, keep)).0, subvol, AtLeastOne(keep))
  {
    forall n | n in d && n.subvol == subvol ensures d[n].Received() && exists x | x in complete :: x.name == n {
      assert ListedIn(n, complete);
    }
    PruneTidies(keep, d, t, complete, subvol);
  }

  /** With the leftovers gone, the send goes through. */
  lemma SendConverges(w: World, slave: string, subvol: string, complete: seq<Snapshot>, latest: Snapshot,
                      parent: Option<Snapshot>)
    requires slave in w.remote && AllDone(w.tape) && CompleteOnly(w.remote[slave], subvol, complete)
    requires latest.name.subvol == subvol && latest.copy.SendUuid() != 0
    requires forall x | x in complete :: x.name.time < latest.name.time
    requires ParentThere(w.remote[slave], parent) && !Send(w, slave, latest, parent).0.tape.dead
    ensures var (w2, failed) := Send(w, slave, latest, parent);
            !failed && AllDone(w2.tape) && CompleteOnly(w2.remote[slave], subvol, complete + [latest])
  {
    NextFollows(w.tape);
    var d, c := w.remote[slave], complete + [latest];
    assert latest.name in d ==> ListedIn(latest.name, complete);
    assert !ListedIn(latest.name, complete);
    var d2 := Send(w, slave, latest, parent).0.remote[slave];
    forall n | n in d2 && n.subvol == subvol ensures d2[n].Received() && ListedIn(n, c) {
      if n == latest.name {
        assert latest in c;
      } else {
        assert n in d && ListedIn(n, complete);
        var y :| y in complete && y.name == n;
        assert y in c;
      }
    }
  }

  /** When nothing fails, a subvolume that has a local snapshot ends up tidy on the slave, without error. */
  lemma SubvolConverges(cfg: Config, x: Session, slave: string, subvol: string)
    requires Inv(cfg, x.w) && slave in x.w.remote && subvol in cfg.subvolumes && Listing(x.w.local, subvol) != []
    requires AllDone(x.w.tape)
    requires !ReplicateSubvol(cfg, x, slave, subvol, Listing(x.w.local, subvol),
             Listing(x.w.remote[slave], subvol)).w.tape.dead
    ensures var r := ReplicateSubvol(cfg, x, slave, subvol, Listing(x.w.local, subvol),
            Listing(x.w.remote[slave], subvol));
            r.failed == x.failed && AllDone(r.w.tape) && Tidy(r.w.remote[slave], subvol, AtLeastOne(cfg.keepReceiver))
  {
    var local, remote := Listing(x.w.local, subvol), Listing(x.w.remote[slave], subvol);
    var complete, garbage := OfKind(remote, Uuids(local), Complete), OfKind(remote, Uuids(local), Leftover);
    var latest, parent := NewestOf(local, ReadOnlyOne), ParentOf(local, remote);
    PlannerView(cfg, x.w, slave, subvol, local, remote);
    SplitIsTotal(cfg, x.w, slave, subvol);
    SendsAreApplicable(cfg, x.w, slave, subvol);
    BranchConverges(cfg, x, slave, subvol, local, remote, complete, garbage, latest.value, parent);
  }

  lemma UpToDateConverges(keep: int, d: Dir, t: Tape, subvol: string, complete: seq<Snapshot>, garbage: seq<Snapshot>)
    requires Sorted(complete) && Covered(d, subvol, complete, garbage) && AllDone(t)
    requires forall x | x in complete :: x.name in d && d[x.name].Received() && x.name.subvol == subvol
    requires forall x | x in garbage :: x.name in d && !d[x.name].Received()
    requires var (d1, t1) := Sweep(d, t, garbage); !Sweep(d1, t1, PlanRemotePrune(complete, keep)).1.dead
    ensures var (d1, t1) := Sweep(d, t, garbage);
            var (d2, t2) := Sweep(d1, t1, PlanRemotePrune(complete, keep));
            Tidy(d2, subvol, AtLeastOne(keep)) && AllDone(t2)
  {
    var (d1, t1) := Sweep(d, t, garbage);
    SweepFollows(d1, t1, PlanRemotePrune(complete, keep));
    GarbageGone(d, t, subvol, complete, garbage);
    PruneConverges(keep, d1, t1, subvol, complete);
  }

  lemma SentConverges(keep: int, w: World, slave: string, subvol: string, complete: seq<Snapshot>,
                      garbage: seq<Snapshot>,
                      latest: Snapshot, parent: Option<Snapshot>)
    requires slave in w.remote && AllDone(w.tape) && Sorted(complete)
             && Covered(w.remote[slave], subvol, complete, garbage)
    requires var d := w.remote[slave];
             && (forall x | x in complete :: x.name in d && d[x.name].Received() && x.name.subvol == subvol)
             && (forall x | x in garbage :: x.name in d && !d[x.name].Received())
    requires forall x | x in complete :: x.name.time < latest.name.time
    requires latest.name.subvol == subvol && latest.copy.SendUuid() != 0
    requires var w1 := SweepRemote(w, slave, garbage);
             && ParentThere(w1.remote[slave], parent)
             && !Deliver(w1, slave, latest, parent, PlanRemotePrune(complete + [latest], keep)).0.tape.dead
    ensures var (w3, failed) := Deliver(SweepRemote(w, slave, garbage), slave, latest, parent,
            PlanRemotePrune(complete + [latest], keep));
            !failed && AllDone(w3.tape) && Tidy(w3.remote[slave], subvol, AtLeastOne(keep))
  {
    var w1, doomed := SweepRemote(w, slave, garbage), PlanRemotePrune(complete + [latest], keep);
    DeliverFollows(w1, slave, latest, parent, doomed);
    GarbageGone(w.remote[slave], w.tape, subvol, complete, garbage);
    DeliverConverges(keep, w1, slave, subvol, complete, latest, parent);
  }

  lemma DeliverConverges(keep: int, w: World, slave: string, subvol: string, complete: seq<Snapshot>, latest: Snapshot,
                         parent: Option<Snapshot>)
    requires slave in w.remote && AllDone(w.tape) && Sorted(complete) && CompleteOnly(w.remote[slave], subvol, complete)
    requires forall x | x in complete :: x.name.time < latest.name.time
    requires latest.name.subvol == subvol && latest.copy.SendUuid() != 0 && ParentThere(w.remote[slave], parent)
    requires !Deliver(w, slave, latest, parent, PlanRemotePrune(complete + [latest], keep)).0.tape.dead
    ensures var (w', failed) := Deliver(w, slave, latest, parent, PlanRemotePrune(complete + [latest], keep));
            !failed && AllDone(w'.tape) && Tidy(w'.remote[slave], subvol, AtLeastOne(keep))
  {
    var w2, c := Send(w, slave, latest, parent).0, complete + [latest];
    SweepFollows(w2.remote[slave], w2.tape, PlanRemotePrune(c, keep));
    SendConverges(w, slave, subvol, complete, latest, parent);
    PruneConverges(keep, w2.remote[slave], w2.tape, subvol, c);
  }

  lemma BranchConverges(cfg: Config, x: Session, slave: string, subvol: string, local: seq<Snapshot>,
                        remote: seq<Snapshot>,
                        complete: seq<Snapshot>, garbage: seq<Snapshot>, latest: Snapshot, parent: Option<Snapshot>)
    requires slave in x.w.remote && AllDone(x.w.tape)
    requires latest.copy.SendUuid() != 0
    requires complete == OfKind(remote, Uuids(local), Complete) && garbage == OfKind(remote, Uuids(local), Leftover)
    requires Some(latest) == NewestOf(local, ReadOnlyOne) && parent == ParentOf(local, remote)
    requires Planned(x.w.local, x.w.remote[slave], subvol, complete, garbage, latest, parent)
    requires Covered(x.w.remote[slave], subvol, complete, garbage)
             && ParentThere(SweepRemote(x.w, slave, garbage).remote[slave], parent)
    requires !ReplicateSubvol(cfg, x, slave, subvol, local, remote).w.tape.dead
    ensures var r := ReplicateSubvol(cfg, x, slave, subvol, local, remote);
            r.failed == x.failed && AllDone(r.w.tape) && Tidy(r.w.remote[slave], subvol, AtLeastOne(cfg.keepReceiver))
  {
    if parent.Some? && parent.value.name == latest.name {
      UpToDateConverges(cfg.keepReceiver, x.w.remote[slave], x.w.tape, subvol, complete, garbage);
    } else {
      SentConverges(cfg.keepReceiver, x.w, slave, subvol, complete, garbage, latest, parent);
    }
  }

  /* ---- the same over the whole cycle ---- */

  lemma {:induction false} SubvolsConverge(cfg: Config, x: Session, slave: string, subvols: seq<string>, infos: Dir)
    requires Ready(cfg, x, slave, subvols, infos) && AllDone(x.w.tape)
    requires forall v | v in subvols :: Listing(x.w.local, v) != []
    requires !ReplicateSubvols(cfg, x, slave, subvols, x.w.local, infos).w.tape.dead
    ensures var r := ReplicateSubvols(cfg, x, slave, subvols, x.w.local, infos);
            r.failed == x.failed && forall v | v in subvols :: Tidy(r.w.remote[slave], v, AtLeastOne(cfg.keepReceiver))
    decreases |subvols|
  {
    if subvols != [] {
      var v, rest := subvols[0], subvols[1..];
      DistinctTail(subvols);
      ReadyNext(cfg, x, slave, subvols, infos);
      var x1 := ReplicateSubvol(cfg, x, slave, v, Listing(x.w.local, v), Listing(infos, v));
      SubvolsFollow(cfg, x1, slave, rest, x.w.local, infos);
      FirstConverges(cfg, x, slave, v, infos);
      SubvolsConverge(cfg, x1, slave, rest, infos);
      CursorFixed(cfg, x1, slave, rest, infos, v);
      TidySameOn(x1.w.remote[slave], ReplicateSubvols(cfg, x1, slave, rest, x.w.local, infos).w.remote[slave], v,
          AtLeastOne(cfg.keepReceiver));
    }
  }

  lemma FirstConverges(cfg: Config, x: Session, slave: string, v: string, infos: Dir)
    requires Inv(cfg, x.w) && slave in x.w.remote && v in cfg.subvolumes && SameOn(infos, x.w.remote[slave], v)
    requires Listing(x.w.local, v) != [] && AllDone(x.w.tape)
    requires !ReplicateSubvol(cfg, x, slave, v, Listing(x.w.local, v), Listing(infos, v)).w.tape.dead
    ensures var r := ReplicateSubvol(cfg, x, slave, v, Listing(x.w.local, v), Listing(infos, v));
            r.failed == x.failed && AllDone(r.w.tape) && Tidy(r.w.remote[slave], v, AtLeastOne(cfg.keepReceiver))
  {
    ListingSameOn(infos, x.w.remote[slave], v);
    SubvolConverges(cfg, x, slave, v);
  }

  lemma TidySameOn(d: Dir, d': Dir, v: string, k: nat)
    requires Tidy(d, v, k) && SameOn(d, d', v)
    ensures Tidy(d', v, k)
  {
    assert NamesOf(d', v) == NamesOf(d, v);
  }

  lemma SlaveConverges(cfg: Config, x: Session, slave: string)
    requires Inv(cfg, x.w) && ValidConfig(cfg) && slave in x.w.remote && AllDone(x.w.tape)
    requires forall v | v in cfg.subvolumes :: Listing(x.w.local, v) != []
    requires !ReplicateSlave(cfg, x, slave, x.w.local).w.tape.dead
    ensures var r := ReplicateSlave(cfg, x, slave, x.w.local);
            r.failed == x.failed && AllDone(r.w.tape) && forall v | v in cfg.subvolumes ::
                Tidy(r.w.remote[slave], v, AtLeastOne(cfg.keepReceiver))
  {
    NextFollows(x.w.tape);
    OpenedReady(cfg, x, slave);
    SubvolsFollow(cfg, Opened(x, slave), slave, cfg.subvolumes, x.w.local, x.w.remote[slave]);
    SubvolsConverge(cfg, Opened(x, slave), slave, cfg.subvolumes, x.w.remote[slave]);
  }

  lemma {:induction false} SlavesConverge(cfg: Config, x: Session, slaves: seq<string>)
    requires Waiting(cfg, x, slaves) && AllDone(x.w.tape)
    requires forall v | v in cfg.subvolumes :: Listing(x.w.local, v) != []
    requires !ReplicateSlaves(cfg, x, slaves, x.w.local).w.tape.dead
    ensures var r := ReplicateSlaves(cfg, x, slaves, x.w.local);
            r.failed == x.failed && AllDone(r.w.tape)
            && forall s, v | s in slaves && v in cfg.subvolumes :: Tidy(r.w.remote[s], v, AtLeastOne(cfg.keepReceiver))
    decreases |slaves|
  {
    if slaves != [] {
      var slave, rest := slaves[0], slaves[1..];
      DistinctTail(slaves);
      WaitingNext(cfg, x, slaves);
      var x1 := ReplicateSlave(cfg, x, slave, x.w.local);
      SlavesFollow(cfg, x1, rest, x.w.local);
      SlaveConverges(cfg, x, slave);
      SlavesConverge(cfg, x1, rest);
      SlaveFixed(cfg, x1, rest, slave);
    }
  }

  lemma CreateFills(w: World, subvol: string)
    requires AllDone(w.tape) && !CreateSnapshot(w, subvol).0.tape.dead
    ensures var w' := CreateSnapshot(w, subvol).0;
            !w.tape.dead && Within(w.local, w'.local) && Name(subvol, Next(w.tape).0.now) in w'.local
  {
    NextFollows(w.tape);
    NextFollows(Next(w.tape).1);
  }

  /** Every configured subvolume has a local snapshot once its own was taken, or its name was taken. */
  lemma {:induction false} SnapshotsFill(w: World, subvols: seq<string>, failed: bool)
    requires AllDone(w.tape) && !TakeSnapshots(w, subvols, failed).0.tape.dead
    ensures var w' := TakeSnapshots(w, subvols, failed).0;
            && AllDone(w'.tape) && !w.tape.dead && Within(w.local, w'.local)
            && forall v | v in subvols :: exists n | n in w'.local :: n.subvol == v
    decreases |subvols|
  {
    if subvols != [] {
      var (w1, f) := CreateSnapshot(w, subvols[0]);
      CreateFollows(w, subvols[0]);
      SnapshotsFill(w1, subvols[1..], failed || f);
      CreateFills(w, subvols[0]);
      assert subvols == [subvols[0]] + subvols[1..];
      assert Name(subvols[0], Next(w.tape).0.now) in TakeSnapshots(w1, subvols[1..], failed || f).0.local;
    }
  }

  /** The cycle has come to its first slave, and every subvolume has a snapshot. */
  lemma CleanStart(cfg: Config, w: World)
    requires Inv(cfg, w) && AllDone(w.tape) && !BeforeSlaves(cfg, w).w.tape.dead
    ensures Start(cfg, w).1 && AllDone(BeforeSlaves(cfg, w).w.tape) && BeforeSlaves(cfg, w).w.log.loaded
    ensures forall v | v in cfg.subvolumes :: Listing(BeforeSlaves(cfg, w).w.local, v) != []
  {
    var w0 := w.(log := Log(false, {}, false));
    var (w1, failed) := TakeSnapshots(w0, cfg.subvolumes, false);
    NextFollows(w1.tape);
    NextFollows(Next(w1.tape).1);
    TakeFollows(w0, cfg.subvolumes, false);
    SnapshotsFill(w0, cfg.subvolumes, false);
    forall v | v in cfg.subvolumes ensures Listing(w1.local, v) != [] {
      var n :| n in w1.local && n.subvol == v;
      assert Snapshot(n, w1.local[n]) in Listing(w1.local, v);
    }
  }

  /* ---- the local side ---- */

  /** At most max(keep_sender, 1) local snapshots of the subvolume, and one for each slave. */
  predicate LocalTidy(cfg: Config, local: Dir, subvol: string) {
    |NamesOf(local, subvol)| <= AtLeastOne(cfg.keepSender) + |cfg.slaves|
  }

  lemma PruneLocalTidies(cfg: Config, w: World, subvol: string, cur: Cursors)
    requires AllDone(w.tape) && !PruneLocal(cfg, w, subvol, Listing(w.local, subvol), cur).tape.dead
    ensures LocalTidy(cfg, PruneLocal(cfg, w, subvol, Listing(w.local, subvol), cur).local, subvol)
  {
    var list, t := Listing(w.local, subvol), Next(w.tape).1;
    var doomed := Doomed(cfg, w.tape, subvol, list, cur);
    NextFollows(w.tape);
    SweepDone(w.local, t, doomed);
    SweepRemovesOnly(w.local, t, doomed);
    LocalPruneExact(list, cfg.keepSender, subvol, cfg.slaves, cur, Age(cfg.maxAnchorAge, Next(w.tape).0.now));
    var left, gone, all := NamesOf(Sweep(w.local, t, doomed).0, subvol), NamesIn(doomed), NamesIn(list);
    NamesCount(list);
    NamesCount(doomed);
    forall n | n in left ensures n in all && n !in gone {
      assert Snapshot(n, w.local[n]) in list;
    }
    assert left !! gone && left + gone <= all;
    SubsetSize(left + gone, all);
  }

  lemma {:induction false} PrunesTidy(cfg: Config, w: World, subvols: seq<string>, infos: Dir, cur: Cursors)
    requires Inv(cfg, w) && Distinct(subvols) && forall v | v in subvols :: SameOn(infos, w.local, v)
    requires AllDone(w.tape) && !PruneLocals(cfg, w, subvols, infos, cur).tape.dead
    ensures AllTidy(cfg, w.local, PruneLocals(cfg, w, subvols, infos, cur).local, subvols)
    decreases |subvols|
  {
    if subvols != [] {
      var v, rest := subvols[0], subvols[1..];
      DistinctTail(subvols);
      ListingSameOn(infos, w.local, v);
      PruneLocalSafe(cfg, w, v, cur);
      var w1 := PruneLocal(cfg, w, v, Listing(w.local, v), cur);
      forall u | u in rest ensures SameOn(infos, w1.local, u) {
        assert SameOn(infos, w.local, u) && SameOn(w.local, w1.local, u);
      }
      PruneFollows(cfg, w, v, Listing(w.local, v), cur);
      PrunesFollow(cfg, w1, rest, infos, cur);
      PruneLocalTidies(cfg, w, v, cur);
      PrunesTidy(cfg, w1, rest, infos, cur);
      TidyJoin(cfg, w.local, w1.local, PruneLocals(cfg, w1, rest, infos, cur).local, subvols);
    }
  }

  /** Each of the subvolumes is tidy, and the others are as they were. */
  ghost predicate AllTidy(cfg: Config, d: Dir, d': Dir, subvols: seq<string>) {
    && (forall v | v in subvols :: LocalTidy(cfg, d', v))
    && (forall v {:trigger SameOn(d, d', v)} | v !in subvols :: SameOn(d, d', v))
  }

  lemma TidyJoin(cfg: Config, d: Dir, d1: Dir, d2: Dir, subvols: seq<string>)
    requires subvols != [] && Distinct(subvols) && LocalTidy(cfg, d1, subvols[0])
    requires (forall u | u != subvols[0] :: SameOn(d, d1, u)) && AllTidy(cfg, d1, d2, subvols[1..])
    ensures AllTidy(cfg, d, d2, subvols)
  {
    var v := subvols[0];
    DistinctTail(subvols);
    assert SameOn(d1, d2, v);
    assert NamesOf(d2, v) == NamesOf(d1, v);
    forall u | u !in subvols ensures SameOn(d, d2, u) {
      assert SameOn(d, d1, u) && SameOn(d1, d2, u);
    }
  }

  /** With all commands done, the cursors are saved, the local side is pruned, and the flag is what it was. */
  lemma FinishConverges(cfg: Config, x: Session)
    requires Inv(cfg, x.w) && ValidConfig(cfg) && x.w.log.loaded && AllDone(x.w.tape)
             && !Finish(cfg, x, x.w.local).0.tape.dead
    ensures var (w', failed) := Finish(cfg, x, x.w.local);
            w'.log.saved && failed == x.failed && forall v | v in cfg.subvolumes :: LocalTidy(cfg, w'.local, v)
  {
    FinishFollows(cfg, x, x.w.local);
    NextFollows(x.w.tape);
    PrunesTidy(cfg, Written(cfg, x), cfg.subvolumes, x.w.local, x.cur);
  }

  /**
    Convergence: a cycle in which no command fails leaves every slave synced, with no leftover of a configured
    subvolume and at most max(keep_receiver, 1) complete copies of it, and at most max(keep_sender, 1) local
    snapshots and one for each slave. It returns an error only for a snapshot whose name was taken twice.
   */
  lemma CleanCycleConverges(cfg: Config, w: World, slave: string, subvol: string)
    requires Inv(cfg, w) && ValidConfig(cfg) && slave in cfg.slaves && subvol in cfg.subvolumes
    requires AllDone(w.tape) && !Cycle(cfg, w).0.tape.dead
    ensures var (w', failed) := Cycle(cfg, w);
            && failed == BeforeSlaves(cfg, w).failed && Synced(w', slave, subvol)
            && Tidy(w'.remote[slave], subvol, AtLeastOne(cfg.keepReceiver)) && LocalTidy(cfg, w'.local, subvol)
  {
    var x, y := BeforeSlaves(cfg, w), AfterSlaves(cfg, w);
    CycleFollows(cfg, w);
    CleanStart(cfg, w);
    StartWaiting(cfg, w);
    PhaseConverges(cfg, x, slave, subvol);
    FullCycle(cfg, w);
    FinishConverges(cfg, y);
    SyncedAfterFinish(cfg, w, slave, subvol);
  }

  /** The phase over the slaves, whatever failed before it. */
  lemma PhaseConverges(cfg: Config, x: Session, slave: string, subvol: string)
    requires Waiting(cfg, x, cfg.slaves) && AllDone(x.w.tape) && slave in cfg.slaves && subvol in cfg.subvolumes
    requires forall v | v in cfg.subvolumes :: Listing(x.w.local, v) != []
    requires !ReplicateSlaves(cfg, x, cfg.slaves, x.w.local).w.tape.dead
    ensures var y := ReplicateSlaves(cfg, x, cfg.slaves, x.w.local);
            && y.failed == x.failed && AllDone(y.w.tape) && Tidy(y.w.remote[slave], subvol,
               AtLeastOne(cfg.keepReceiver))
            && slave in y.w.log.reached && AtLatest(x.w.local, y.cur, slave, subvol)
  {
    var x0 := x.(failed := false);
    SlavesFlag(cfg, x, cfg.slaves, x.w.local);
    SlavesConverge(cfg, x0, cfg.slaves);
    SlavesAtLatest(cfg, x0, cfg.slaves, slave, subvol);
  }

  /** A cycle that is alive at its end was alive at every point of it. */
  lemma CycleFollows(cfg: Config, w: World)
    requires Connected(cfg, w) && cfg.slaves != [] && !Cycle(cfg, w).0.tape.dead
    ensures !BeforeSlaves(cfg, w).w.tape.dead
    ensures Start(cfg, w).1 ==> !AfterSlaves(cfg, w).w.tape.dead && !Next(AfterSlaves(cfg, w).w.tape).1.dead
  {
    if Start(cfg, w).1 {
      var x, y := BeforeSlaves(cfg, w), AfterSlaves(cfg, w);
      SlavesFollow(cfg, x, cfg.slaves, x.w.local);
      FinishFollows(cfg, y, x.w.local);
    }
  }
}
