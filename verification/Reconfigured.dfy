/**
  Runs in which the configuration changes between the cycles: slaves are added and deleted, the limits
  change, and subvolumes are added and dropped. What a cycle is not configured for it leaves alone.
 */
module Reconfigured {
  import opened Wrappers
  import opened Snapshots
  import opened CursorTable
  import opened Plan
  import opened Protocol
  import opened Safety
  import opened Cycles
  import opened LocalPruning
  import opened Runs
  import opened Theorems
  import opened Standalone
  import R = Restore

  /* ---- what a cycle leaves alone ---- */

  /** The two directories hold the same of every other subvolume. */
  ghost predicate SameOutside(d: Dir, d': Dir, subvols: seq<string>) {
    forall v {:trigger SameOn(d, d', v)} | v !in subvols :: SameOn(d, d', v)
  }

  ghost predicate LeftAlone(w: World, w': World, slaves: seq<string>, subvols: seq<string>) {
    && w'.remote.Keys == w.remote.Keys && SameOutside(w.local, w'.local, subvols)
    && forall s | s in w.remote ::
         if s in slaves then SameOutside(w.remote[s], w'.remote[s], subvols) else w'.remote[s] == w.remote[s]
  }

  predicate AllOf(list: seq<Snapshot>, subvols: seq<string>) {
    forall x | x in list :: x.name.subvol in subvols
  }

  lemma SameOutsideJoin(d: Dir, d1: Dir, d2: Dir, subvols: seq<string>)
    requires SameOutside(d, d1, subvols) && SameOutside(d1, d2, subvols)
    ensures SameOutside(d, d2, subvols)
  {
    forall v | v !in subvols ensures SameOn(d, d2, v) {
      assert SameOn(d, d1, v) && SameOn(d1, d2, v);
    }
  }

  lemma LeftAloneJoin(w: World, w1: World, w2: World, slaves: seq<string>, subvols: seq<string>)
    requires LeftAlone(w, w1, slaves, subvols) && LeftAlone(w1, w2, slaves, subvols)
    ensures LeftAlone(w, w2, slaves, subvols)
  {
    SameOutsideJoin(w.local, w1.local, w2.local, subvols);
    forall s | s in w.remote && s in slaves ensures SameOutside(w.remote[s], w2.remote[s], subvols) {
      SameOutsideJoin(w.remote[s], w1.remote[s], w2.remote[s], subvols);
    }
  }

  lemma SweepOutside(d: Dir, t: Tape, doomed: seq<Snapshot>, subvols: seq<string>)
    requires AllOf(doomed, subvols)
    ensures SameOutside(d, Sweep(d, t, doomed).0, subvols)
  {
    SweepRemovesOnly(d, t, doomed);
  }

  lemma CreateLeavesAlone(w: World, v: string, slaves: seq<string>, subvols: seq<string>)
    requires v in subvols
    ensures LeftAlone(w, CreateSnapshot(w, v).0, slaves, subvols)
  {
  }

  lemma {:induction false} TakeLeavesAlone(w: World, todo: seq<string>, failed: bool, slaves: seq<string>,
                                           subvols: seq<string>)
    requires forall v | v in todo :: v in subvols
    ensures LeftAlone(w, TakeSnapshots(w, todo, failed).0, slaves, subvols)
    decreases |todo|
  {
    if todo != [] {
      var (w1, f) := CreateSnapshot(w, todo[0]);
      assert todo[0] in todo && forall v | v in todo[1..] :: v in todo;
      CreateLeavesAlone(w, todo[0], slaves, subvols);
      TakeLeavesAlone(w1, todo[1..], failed || f, slaves, subvols);
      LeftAloneJoin(w, w1, TakeSnapshots(w1, todo[1..], failed || f).0, slaves, subvols);
    }
  }

  lemma {:induction false} OfKindAmong(remote: seq<Snapshot>, own: set<Uuid>, kind: Kind)
    ensures forall x | x in OfKind(remote, own, kind) :: x in remote
  {
    if remote != [] {
      OfKindAmong(remote[..|remote| - 1], own, kind);
    }
  }

  lemma SweepLeavesAlone(w: World, slave: string, doomed: seq<Snapshot>, slaves: seq<string>, subvols: seq<string>)
    requires slave in w.remote && slave in slaves && AllOf(doomed, subvols)
    ensures LeftAlone(w, SweepRemote(w, slave, doomed), slaves, subvols)
  {
    SweepOutside(w.remote[slave], w.tape, doomed, subvols);
  }

  lemma DeliverLeavesAlone(w: World, slave: string, s: Snapshot, parent: Option<Snapshot>, doomed: seq<Snapshot>,
                           slaves: seq<string>, subvols: seq<string>)
    requires slave in w.remote && slave in slaves && AllOf(doomed, subvols) && s.name.subvol in subvols
    ensures LeftAlone(w, Deliver(w, slave, s, parent, doomed).0, slaves, subvols)
  {
    var w1 := Send(w, slave, s, parent).0;
    assert LeftAlone(w, w1, slaves, subvols);
    SweepLeavesAlone(w1, slave, doomed, slaves, subvols);
    LeftAloneJoin(w, w1, SweepRemote(w1, slave, doomed), slaves, subvols);
  }

  lemma SendAndPruneLeavesAlone(cfg: Config, x: Session, slave: string, v: string, list: seq<Snapshot>,
                                there: seq<Snapshot>, slaves: seq<string>, subvols: seq<string>)
    requires slave in x.w.remote && slave in slaves && AllOf(list, subvols) && AllOf(there, subvols) && Sorted(list)
    ensures LeftAlone(x.w, SendAndPrune(cfg, x, slave, v, list, there).w, slaves, subvols)
  {
    var complete := OfKind(there, Uuids(list), Complete);
    OfKindAmong(there, Uuids(list), Complete);
    NewestOfIsNewest(list, ReadOnlyOne);
    if NewestOf(list, ReadOnlyOne).Some? {
      var latest, parent := NewestOf(list, ReadOnlyOne).value, ParentOf(list, there);
      SweepLeavesAlone(x.w, slave, PlanRemotePrune(complete, cfg.keepReceiver), slaves, subvols);
      DeliverLeavesAlone(x.w, slave, latest, parent, PlanRemotePrune(complete + [latest], cfg.keepReceiver), slaves,
        subvols);
    }
  }

  lemma SubvolLeavesAlone(cfg: Config, x: Session, slave: string, v: string, list: seq<Snapshot>,
                          there: seq<Snapshot>, slaves: seq<string>, subvols: seq<string>)
    requires slave in x.w.remote && slave in slaves && AllOf(list, subvols) && AllOf(there, subvols) && Sorted(list)
    ensures LeftAlone(x.w, ReplicateSubvol(cfg, x, slave, v, list, there).w, slaves, subvols)
  {
    var garbage := OfKind(there, Uuids(list), Leftover);
    OfKindAmong(there, Uuids(list), Leftover);
    SweepLeavesAlone(x.w, slave, garbage, slaves, subvols);
    var w1 := SweepRemote(x.w, slave, garbage);
    SendAndPruneLeavesAlone(cfg, x.(w := w1), slave, v, list, there, slaves, subvols);
    LeftAloneJoin(x.w, w1, ReplicateSubvol(cfg, x, slave, v, list, there).w, slaves, subvols);
  }

  lemma {:induction false} SubvolsLeaveAlone(cfg: Config, x: Session, slave: string, todo: seq<string>, local: Dir,
                                             infos: Dir, slaves: seq<string>, subvols: seq<string>)
    requires slave in x.w.remote && slave in slaves && forall v | v in todo :: v in subvols
    ensures LeftAlone(x.w, ReplicateSubvols(cfg, x, slave, todo, local, infos).w, slaves, subvols)
    decreases |todo|
  {
    if todo != [] {
      var v := todo[0];
      assert v in todo && forall u | u in todo[1..] :: u in todo;
      var x1 := ReplicateSubvol(cfg, x, slave, v, Listing(local, v), Listing(infos, v));
      SubvolLeavesAlone(cfg, x, slave, v, Listing(local, v), Listing(infos, v), slaves, subvols);
      SubvolsLeaveAlone(cfg, x1, slave, todo[1..], local, infos, slaves, subvols);
      LeftAloneJoin(x.w, x1.w, ReplicateSubvols(cfg, x1, slave, todo[1..], local, infos).w, slaves, subvols);
    }
  }

  lemma SlaveLeavesAlone(cfg: Config, x: Session, slave: string, local: Dir, slaves: seq<string>)
    requires slave in x.w.remote && slave in slaves
    ensures LeftAlone(x.w, ReplicateSlave(cfg, x, slave, local).w, slaves, cfg.subvolumes)
  {
    var w := x.w.(tape := Next(x.w.tape).1);
    var y := x.(w := w.(log := w.log.(reached := w.log.reached + {slave})));
    SubvolsLeaveAlone(cfg, y, slave, cfg.subvolumes, local, w.remote[slave], slaves, cfg.subvolumes);
  }

  lemma {:induction false} SlavesLeaveAlone(cfg: Config, x: Session, todo: seq<string>, local: Dir,
                                            slaves: seq<string>)
    requires forall s | s in todo :: s in x.w.remote && s in slaves
    ensures LeftAlone(x.w, ReplicateSlaves(cfg, x, todo, local).w, slaves, cfg.subvolumes)
    decreases |todo|
  {
    if todo != [] {
      var s := todo[0];
      assert s in todo && forall u | u in todo[1..] :: u in todo;
      SlaveLeavesAlone(cfg, x, s, local, slaves);
      var x1 := ReplicateSlave(cfg, x, s, local);
      SlavesLeaveAlone(cfg, x1, todo[1..], local, slaves);
      LeftAloneJoin(x.w, x1.w, ReplicateSlaves(cfg, x1, todo[1..], local).w, slaves, cfg.subvolumes);
    }
  }

  lemma {:induction false} PrunesLeaveAlone(cfg: Config, w: World, todo: seq<string>, local: Dir, cur: Cursors,
                                            subvols: seq<string>)
    requires forall v | v in todo :: v in subvols
    ensures LeftAlone(w, PruneLocals(cfg, w, todo, local, cur), cfg.slaves, subvols)
    decreases |todo|
  {
    if todo != [] {
      var v := todo[0];
      assert v in todo && forall u | u in todo[1..] :: u in todo;
      var list := Listing(local, v);
      var (e, t) := Next(w.tape);
      var age := Age(cfg.maxAnchorAge, e.now);
      LocalPruneExact(list, cfg.keepSender, v, cfg.slaves, cur, age);
      SweepOutside(w.local, t, LocalPrune(list, cfg.keepSender, v, cfg.slaves, cur, age).delete, subvols);
      var w1 := PruneLocal(cfg, w, v, list, cur);
      PrunesLeaveAlone(cfg, w1, todo[1..], local, cur, subvols);
      LeftAloneJoin(w, w1, PruneLocals(cfg, w1, todo[1..], local, cur), cfg.slaves, subvols);
    }
  }

  /**
    Whatever happens in a cycle, what it is not configured for stays exactly as it is: every other slave, and
    on both sides the snapshots of every other subvolume.
   */
  lemma CycleLeavesOthersAlone(cfg: Config, w: World)
    requires Connected(cfg, w)
    ensures LeftAlone(w, Cycle(cfg, w).0, cfg.slaves, cfg.subvolumes)
  {
    var slaves, subvols := cfg.slaves, cfg.subvolumes;
    TakeLeavesAlone(w.(log := Log(false, {}, false)), subvols, false, slaves, subvols);
    var (x, listed) := Start(cfg, w);
    assert LeftAlone(w, x.w, slaves, subvols);
    if slaves != [] && listed {
      SlavesLeaveAlone(cfg, x, slaves, x.w.local, slaves);
      var y := ReplicateSlaves(cfg, x, slaves, x.w.local);
      LeftAloneJoin(w, x.w, y.w, slaves, subvols);
      FinishLeavesAlone(cfg, y, x.w.local);
      LeftAloneJoin(w, y.w, Finish(cfg, y, x.w.local).0, slaves, subvols);
    }
  }

  lemma FinishLeavesAlone(cfg: Config, x: Session, local: Dir)
    ensures LeftAlone(x.w, Finish(cfg, x, local).0, cfg.slaves, cfg.subvolumes)
  {
    var (e, t) := Next(x.w.tape);
    var w := x.w.(tape := t);
    var w1 := if Takes(e.outcome) then w.(file := Saved(x.cur, cfg.slaves), log := w.log.(saved := true)) else w;
    PrunesLeaveAlone(cfg, w1, cfg.subvolumes, local, x.cur, cfg.subvolumes);
  }

  /* ---- runs ---- */

  /** A cycle, the configuration it reads and what happens to its commands. */
  datatype Turn = Turn(cfg: Config, script: seq<Event>)

  /** Valid, and part of `all`, which names every slave and every subvolume of the run. */
  ghost predicate Fits(cfg: Config, all: Config) {
    && ValidConfig(cfg) && (forall s | s in cfg.slaves :: s in all.slaves)
    && (forall v | v in cfg.subvolumes :: v in all.subvolumes)
  }

  ghost predicate AllFit(turns: seq<Turn>, all: Config) {
    forall turn | turn in turns :: Fits(turn.cfg, all)
  }

  function Turns(w: World, turns: seq<Turn>): (r: World)
    requires forall turn | turn in turns :: Connected(turn.cfg, w)
    ensures r.remote.Keys == w.remote.Keys
  {
    if turns == [] then w
    else
      var last := turns[|turns| - 1];
      assert last in turns && Connected(last.cfg, w);
      Cycle(last.cfg, Loaded(Turns(w, turns[..|turns| - 1]), last.script)).0
  }

  lemma NarrowInv(all: Config, w: World, cfg: Config)
    requires Inv(all, w) && Fits(cfg, all)
    ensures Inv(cfg, w)
  {
    forall slave | slave in w.remote ensures RemoteOk(cfg, w.local, w.remote[slave], w.nextId) {
      var d := w.remote[slave];
      assert RemoteOk(all, w.local, d, w.nextId);
      forall n | n in d ensures CopyOk(cfg, w.local, n, d[n], w.nextId) {
        assert CopyOk(all, w.local, n, d[n], w.nextId);
      }
    }
  }

  /** The invariant for all subvolumes is kept by a cycle that is configured for some of them. */
  lemma WideInv(all: Config, w: World, cfg: Config)
    requires Inv(all, w) && Fits(cfg, all) && Connected(cfg, w)
    requires Inv(cfg, Cycle(cfg, w).0)
    ensures Inv(all, Cycle(cfg, w).0)
  {
    var w' := Cycle(cfg, w).0;
    CycleLeavesOthersAlone(cfg, w);
    forall slave | slave in w'.remote ensures RemoteOk(all, w'.local, w'.remote[slave], w'.nextId) {
      var d, d' := w.remote[slave], w'.remote[slave];
      assert RemoteOk(all, w.local, d, w.nextId) && RemoteOk(cfg, w'.local, d', w'.nextId);
      forall n | n in d' ensures CopyOk(all, w'.local, n, d'[n], w'.nextId) {
        assert CopyOk(cfg, w'.local, n, d'[n], w'.nextId);
        if n.subvol !in cfg.subvolumes && n.subvol in all.subvolumes && d'[n].Received() {
          assert slave in cfg.slaves ==> SameOn(d, d', n.subvol);
          assert CopyOk(all, w.local, n, d[n], w.nextId);
          var m :| m in w.local && m.subvol == n.subvol
                   && (n.time < m.time || (m == n && w.local[m].SendUuid() == d[n].receivedUuid));
          assert SameOn(w.local, w'.local, n.subvol);
          assert m in w'.local && w'.local[m] == w.local[m];
        }
      }
    }
  }

  lemma FewerRetained(k: nat, k': nat, d: Dir, d': Dir)
    requires k <= k' && Retains(k', d, d')
    ensures Retains(k, d, d')
  {
    forall n | n in d && d[n].Received() ensures Kept(k, d', n, d[n].receivedUuid) {
      assert Kept(k', d', n, d[n].receivedUuid);
    }
  }

  /** Every cycle of the run keeps `k` copies or more. */
  predicate KeepAtLeast(k: nat, turns: seq<Turn>) {
    forall turn | turn in turns :: k <= AtLeastOne(turn.cfg.keepReceiver)
  }

  /** Safety of every run, whatever the configurations. */
  lemma {:induction false} TurnsSafe(all: Config, w: World, turns: seq<Turn>, k: nat)
    requires Inv(all, w) && AllFit(turns, all) && KeepAtLeast(k, turns)
    ensures var w' := Turns(w, turns);
            && Inv(all, w') && NewestStays(w.local, w'.local)
            && forall s | s in w.remote :: Retains(k, w.remote[s], w'.remote[s])
  {
    if turns == [] {
      GrownNewestStays(w.local, w.local);
      forall s | s in w.remote ensures Retains(k, w.remote[s], w.remote[s]) {
        GrownRetains(k, w.remote[s], w.remote[s]);
      }
    } else {
      var before, last := turns[..|turns| - 1], turns[|turns| - 1];
      assert last in turns && forall turn | turn in before :: turn in turns;
      TurnsSafe(all, w, before, k);
      OneTurnSafe(all, w, Turns(w, before), last, k);
    }
  }

  lemma OneTurnSafe(all: Config, w: World, w1: World, last: Turn, k: nat)
    requires Inv(all, w1) && Fits(last.cfg, all) && NewestStays(w.local, w1.local) && w1.remote.Keys == w.remote.Keys
    requires forall s | s in w.remote :: Retains(k, w.remote[s], w1.remote[s])
    requires k <= AtLeastOne(last.cfg.keepReceiver)
    ensures var w' := Cycle(last.cfg, Loaded(w1, last.script)).0;
            && Inv(all, w') && NewestStays(w.local, w'.local)
            && forall s | s in w.remote :: Retains(k, w.remote[s], w'.remote[s])
  {
    var w' := Cycle(last.cfg, Loaded(w1, last.script)).0;
    LoadedInv(all, w1, last.script);
    NarrowInv(all, Loaded(w1, last.script), last.cfg);
    CycleSafe(last.cfg, Loaded(w1, last.script));
    WideInv(all, Loaded(w1, last.script), last.cfg);
    NewestStaysTransitive(w.local, w1.local, w'.local);
    forall s | s in w.remote ensures Retains(k, w.remote[s], w'.remote[s]) {
      FewerRetained(k, AtLeastOne(last.cfg.keepReceiver), w1.remote[s], w'.remote[s]);
      RetainsTransitive(k, w.remote[s], w1.remote[s], w'.remote[s]);
    }
  }

  /** A promotable copy is never lost, also on a slave that is deleted from the configuration and added again. */
  lemma PromotableSurvives(all: Config, w: World, turns: seq<Turn>, slave: string, subvol: string)
    requires Inv(all, w) && AllFit(turns, all) && slave in w.remote && Promotable(w.remote[slave], subvol).Some?
    ensures var p, p' := Promotable(w.remote[slave], subvol), Promotable(Turns(w, turns).remote[slave], subvol);
            p'.Some? && p.value.name.time <= p'.value.name.time
  {
    TurnsSafe(all, w, turns, 1);
    PromotableGrows(1, w.remote[slave], Turns(w, turns).remote[slave], subvol);
  }

  /** What a cycle of the run asks for an anchor to be kept: it configures both sides of it, and it is not over age. */
  predicate Keeps(turn: Turn, log: Log, slave: string, subvol: string, time: int) {
    && slave in turn.cfg.slaves && subvol in turn.cfg.subvolumes && Met(Keeping(slave), log)
    && Young(turn.cfg, Tape(turn.script, false), time)
  }

  predicate KeptThroughout(w: World, turns: seq<Turn>, slave: string, subvol: string, time: int)
    requires forall turn | turn in turns :: Connected(turn.cfg, w)
  {
    turns == [] ||
    (KeptThroughout(w, turns[..|turns| - 1], slave, subvol, time)
     && Keeps(turns[|turns| - 1], Turns(w, turns).log, slave, subvol, time))
  }

  /** An anchor stays while other slaves and subvolumes come and go and the limits change. */
  lemma {:induction false} AnchorSurvives(all: Config, w: World, turns: seq<Turn>, slave: string, subvol: string)
    requires Inv(all, w) && AllFit(turns, all) && HasAnchor(w, slave, subvol)
    requires KeptThroughout(w, turns, slave, subvol, Get(w.file, slave, subvol).value.name.time)
    ensures var w' := Turns(w, turns);
            HasAnchor(w', slave, subvol)
            && Get(w.file, slave, subvol).value.name.time <= Get(w'.file, slave, subvol).value.name.time
  {
    if turns != [] {
      var before, last := turns[..|turns| - 1], turns[|turns| - 1];
      assert last in turns && forall turn | turn in before :: turn in turns;
      AnchorSurvives(all, w, before, slave, subvol);
      TurnsSafe(all, w, before, 0);
      var w1 := Turns(w, before);
      LoadedInv(all, w1, last.script);
      NarrowInv(all, Loaded(w1, last.script), last.cfg);
      var t := Tape(last.script, false);
      assert HasAnchor(Loaded(w1, last.script), slave, subvol);
      YoungFollows(last.cfg, t, t, Get(w.file, slave, subvol).value.name.time,
        Get(w1.file, slave, subvol).value.name.time);
      AnchorKeptExactly(last.cfg, Loaded(w1, last.script), slave, subvol);
    }
  }

  /** The runs of module Protocol are those in which the configuration stays. */
  lemma {:induction false} RunIsTurns(cfg: Config, w: World, scripts: seq<seq<Event>>)
    requires Connected(cfg, w) && ValidConfig(cfg)
    ensures var turns := seq(|scripts|, i requires 0 <= i < |scripts| => Turn(cfg, scripts[i]));
            AllFit(turns, cfg) && Turns(w, turns) == Run(cfg, w, scripts)
  {
    if scripts != [] {
      var n := |scripts| - 1;
      var turns := seq(|scripts|, i requires 0 <= i < |scripts| => Turn(cfg, scripts[i]));
      RunIsTurns(cfg, w, scripts[..n]);
      assert turns[..n] == seq(n, i requires 0 <= i < n => Turn(cfg, scripts[..n][i]));
    }
  }

  /**
    The point of the whole, for runs with any configurations: a slave that once had a complete copy is
    promoted, when the promotion itself does not fail, to one that is complete and at least as new.
   */
  lemma PromotionAfterTurns(all: Config, w: World, turns: seq<Turn>, slave: string, disks: Disks,
                            subvols: seq<string>, subvol: string)
    requires Inv(all, w) && AllFit(turns, all) && slave in w.remote && Promotable(w.remote[slave], subvol).Some?
    requires Distinct(subvols) && subvol in subvols && R.DoneFor(disks.tape, 10 * |subvols|)
    requires forall v | v in subvols :: Standalone.Clear(At(disks, v), disks.tape)
    ensures PromotedTo(disks, Turns(w, turns).remote[slave], subvols, subvol,
              Promotable(w.remote[slave], subvol).value.name.time)
  {
    PromotableSurvives(all, w, turns, slave, subvol);
    CleanPromotion(disks, Turns(w, turns).remote[slave], subvols, subvol);
  }
}
