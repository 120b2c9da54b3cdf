/** When a cycle is an error, exactly; and what every turn of every run sends. */
module CycleEffects {
  import opened Wrappers
  import opened Snapshots
  import opened CursorTable
  import opened Plan
  import opened Protocol
  import opened Safety
  import opened Cycles
  import opened Runs
  import opened Tapes
  import opened Theorems
  import opened Sends
  import opened Effects
  import opened LocalEffects
  import opened SlaveEffects

  /** The state after the snapshots of the cycle are taken, and whether that was an error. */
  function Taken(cfg: Config, w: World): (World, bool) {
    TakeSnapshots(w.(log := Log(false, {}, false)), cfg.subvolumes, false)
  }

  /**
    The start of a cycle: it goes on exactly if the snapshots could be listed, and then with the cursors on disk
    exactly if they could be read, with none otherwise.
   */
  lemma StartExactly(cfg: Config, w: World)
    ensures var (x, listed) := Start(cfg, w);
            var (w1, failed) := Taken(cfg, w);
            && x.w.tape == After(w1.tape, if listed then 2 else 1)
            && (listed <==> DoneAt(w1.tape, 0)) && x.w.local == w1.local && x.w.streams == w.streams
            && (listed ==>
                  && x.failed == failed && (x.w.log.loaded <==> DoneAt(w1.tape, 1))
                  && x.cur == if x.w.log.loaded then w.file else map[])
  {
    var w1 := Taken(cfg, w).0;
    NextIsAfter(w1.tape);
    NextIsAfter(Next(w1.tape).1);
    AfterAdds(w1.tape, 1, 0);
    AfterAdds(w1.tape, 1, 1);
    TakeSendsNothing(w.(log := Log(false, {}, false)), cfg.subvolumes, false);
  }

  lemma {:induction false} TakeSendsNothing(w: World, subvols: seq<string>, failed: bool)
    ensures TakeSnapshots(w, subvols, failed).0.streams == w.streams
    decreases |subvols|
  {
    if subvols != [] {
      CreateExactly(w, subvols[0]);
      var (w1, f) := CreateSnapshot(w, subvols[0]);
      TakeSendsNothing(w1, subvols[1..], failed || f);
    }
  }

  /** The slave answers when its turn comes. */
  predicate Answers(cfg: Config, w: World, i: nat)
    requires Connected(cfg, w) && i < |cfg.slaves|
  {
    DoneAt(AtSlave(cfg, w, i).w.tape, 0)
  }

  /** The state after the turn of subvolume `j` on slave `i`, with no error from before. */
  function TurnOf(cfg: Config, w: World, i: nat, j: nat): (r: Session)
    requires Connected(cfg, w) && i < |cfg.slaves| && j < |cfg.subvolumes|
    ensures r.w.remote.Keys == w.remote.Keys
  {
    var slave, v := cfg.slaves[i], cfg.subvolumes[j];
    ReplicateSubvol(cfg, AtSubvol(cfg, w, i, j).(failed := false), slave, v,
      Listing(BeforeSlaves(cfg, w).w.local, v), Listing(AtSlave(cfg, w, i).w.remote[slave], v))
  }

  /** One of the turns of the first `j` subvolumes on slave `i` is an error. */
  predicate ATurnFails(cfg: Config, w: World, i: nat, j: nat)
    requires Connected(cfg, w) && i < |cfg.slaves| && j <= |cfg.subvolumes|
  {
    j > 0 && (ATurnFails(cfg, w, i, j - 1) || TurnOf(cfg, w, i, j - 1).failed)
  }

  predicate SlaveFails(cfg: Config, w: World, i: nat)
    requires Connected(cfg, w) && i < |cfg.slaves|
  {
    !Answers(cfg, w, i) || ATurnFails(cfg, w, i, |cfg.subvolumes|)
  }

  /** An error after the first `j` subvolumes on slave `i`, which has answered. */
  predicate FailedBySubvol(cfg: Config, w: World, i: nat, j: nat)
    requires Connected(cfg, w) && i < |cfg.slaves| && j <= |cfg.subvolumes|
  {
    var s, slave := AtSlave(cfg, w, i), cfg.slaves[i];
    ReplicateSubvols(cfg, Opened(s, slave), slave, cfg.subvolumes[..j], BeforeSlaves(cfg, w).w.local,
      s.w.remote[slave]).failed
  }

  lemma FailedNext(cfg: Config, x: Session, slave: string, subvols: seq<string>, j: nat, local: Dir, infos: Dir)
    requires slave in x.w.remote && j < |subvols|
    ensures var y := ReplicateSubvols(cfg, x, slave, subvols[..j], local, infos);
            ReplicateSubvols(cfg, x, slave, subvols[..j + 1], local, infos).failed
            <==> y.failed || ReplicateSubvol(cfg, y.(failed := false), slave, subvols[j], Listing(local, subvols[j]),
                                             Listing(infos, subvols[j])).failed
  {
    var y, v := ReplicateSubvols(cfg, x, slave, subvols[..j], local, infos), subvols[j];
    SubvolsLast(cfg, x, slave, subvols[..j + 1], local, infos);
    assert subvols[..j + 1][..j] == subvols[..j];
    SubvolFlag(cfg, y, slave, v, Listing(local, v), Listing(infos, v));
  }

  lemma FailedByNextSubvol(cfg: Config, w: World, i: nat, j: nat)
    requires Connected(cfg, w) && i < |cfg.slaves| && j < |cfg.subvolumes|
    ensures FailedBySubvol(cfg, w, i, j + 1) <==> FailedBySubvol(cfg, w, i, j) || TurnOf(cfg, w, i, j).failed
  {
    var s, slave := AtSlave(cfg, w, i), cfg.slaves[i];
    FailedNext(cfg, Opened(s, slave), slave, cfg.subvolumes, j, BeforeSlaves(cfg, w).w.local, s.w.remote[slave]);
  }

  lemma {:induction false} SubvolsFail(cfg: Config, w: World, i: nat, j: nat)
    requires Connected(cfg, w) && i < |cfg.slaves| && j <= |cfg.subvolumes|
    ensures FailedBySubvol(cfg, w, i, j) <==> FailedBySubvol(cfg, w, i, 0) || ATurnFails(cfg, w, i, j)
  {
    if j > 0 {
      SubvolsFail(cfg, w, i, j - 1);
      FailedByNextSubvol(cfg, w, i, j - 1);
    }
  }

  lemma SubvolsLast(cfg: Config, x: Session, slave: string, subvols: seq<string>, local: Dir, infos: Dir)
    requires slave in x.w.remote && subvols != []
    ensures var n := |subvols| - 1;
            ReplicateSubvols(cfg, x, slave, subvols, local, infos)
            == ReplicateSubvol(cfg, ReplicateSubvols(cfg, x, slave, subvols[..n], local, infos), slave, subvols[n],
                               Listing(local, subvols[n]), Listing(infos, subvols[n]))
  {
    var n := |subvols| - 1;
    SubvolsSplit(cfg, x, slave, subvols, n, local, infos);
    assert subvols[n..][0] == subvols[n] && subvols[n..][1..] == [];
  }

  lemma SlavesLast(cfg: Config, x: Session, slaves: seq<string>, local: Dir)
    requires slaves != [] && forall s | s in slaves :: s in x.w.remote
    ensures var n := |slaves| - 1;
            ReplicateSlaves(cfg, x, slaves, local)
            == ReplicateSlave(cfg, ReplicateSlaves(cfg, x, slaves[..n], local), slaves[n], local)
  {
    var n := |slaves| - 1;
    SlavesSplit(cfg, x, slaves, n, local);
    assert slaves[n..][0] == slaves[n] && slaves[n..][1..] == [];
  }

  predicate FailedBySlave(cfg: Config, w: World, i: nat)
    requires Connected(cfg, w) && i <= |cfg.slaves|
  {
    ReplicateSlaves(cfg, BeforeSlaves(cfg, w), cfg.slaves[..i], BeforeSlaves(cfg, w).w.local).failed
  }

  /** The turn of a slave as its connection and then its subvolumes. */
  lemma SlaveIsSubvols(cfg: Config, x: Session, slave: string, local: Dir)
    requires slave in x.w.remote
    ensures ReplicateSlave(cfg, x, slave, local).failed
            <==> !DoneAt(x.w.tape, 0)
                 || ReplicateSubvols(cfg, Opened(x, slave), slave, cfg.subvolumes, local, x.w.remote[slave]).failed
  {
    NextIsAfter(x.w.tape);
  }

  lemma OneSlaveFails(cfg: Config, w: World, i: nat)
    requires Connected(cfg, w) && i < |cfg.slaves|
    ensures ReplicateSlave(cfg, AtSlave(cfg, w, i), cfg.slaves[i], BeforeSlaves(cfg, w).w.local).failed
            <==> AtSlave(cfg, w, i).failed || SlaveFails(cfg, w, i)
  {
    var n := |cfg.subvolumes|;
    SlaveIsSubvols(cfg, AtSlave(cfg, w, i), cfg.slaves[i], BeforeSlaves(cfg, w).w.local);
    SubvolsFail(cfg, w, i, n);
    assert cfg.subvolumes[..n] == cfg.subvolumes && cfg.subvolumes[..0] == [];
  }

  lemma FailedByNextSlave(cfg: Config, w: World, i: nat)
    requires Connected(cfg, w) && i < |cfg.slaves|
    ensures FailedBySlave(cfg, w, i + 1) <==> FailedBySlave(cfg, w, i) || SlaveFails(cfg, w, i)
  {
    var x := BeforeSlaves(cfg, w);
    SlavesLast(cfg, x, cfg.slaves[..i + 1], x.w.local);
    assert cfg.slaves[..i + 1][..i] == cfg.slaves[..i];
    OneSlaveFails(cfg, w, i);
  }

  /** Each slave is asked, whatever became of those before it. */
  lemma {:induction false} SlavesFail(cfg: Config, w: World, i: nat)
    requires Connected(cfg, w) && i <= |cfg.slaves|
    ensures FailedBySlave(cfg, w, i)
            <==> BeforeSlaves(cfg, w).failed || exists k | 0 <= k < i :: SlaveFails(cfg, w, k)
  {
    if i > 0 {
      SlavesFail(cfg, w, i - 1);
      FailedByNextSlave(cfg, w, i - 1);
    }
  }

  /**
    A cycle with slaves is an error exactly if taking a snapshot was one, the snapshots could not be listed, the
    cursor file could not be read or was not saved, a slave did not answer, or the turn of a subvolume was an
    error. A cycle without slaves does nothing.
   */
  lemma CycleFails(cfg: Config, w: World)
    requires Inv(cfg, w) && ValidConfig(cfg)
    ensures cfg.slaves == [] ==> Cycle(cfg, w) == (w.(log := Log(false, {}, false)), false)
    ensures cfg.slaves != [] ==>
              (Cycle(cfg, w).1 <==>
                || Taken(cfg, w).1
                || !DoneAt(Taken(cfg, w).0.tape, 0)
                || !DoneAt(Taken(cfg, w).0.tape, 1)
                || (exists i | 0 <= i < |cfg.slaves| :: SlaveFails(cfg, w, i))
                || !DoneAt(AfterSlaves(cfg, w).w.tape, 0))
  {
    StartExactly(cfg, w);
    if cfg.slaves != [] && Start(cfg, w).1 {
      FinishExactly(cfg, w);
      SlavesFail(cfg, w, |cfg.slaves|);
      assert cfg.slaves[..|cfg.slaves|] == cfg.slaves;
    }
  }

  /* ---- who is reached ---- */

  lemma SubvolKeepsLog(cfg: Config, x: Session, slave: string, v: string, list: seq<Snapshot>, there: seq<Snapshot>)
    requires slave in x.w.remote
    ensures ReplicateSubvol(cfg, x, slave, v, list, there).w.log == x.w.log
  {
  }

  lemma {:induction false} SubvolsKeepLog(cfg: Config, x: Session, slave: string, subvols: seq<string>, local: Dir,
                                          infos: Dir)
    requires slave in x.w.remote
    ensures ReplicateSubvols(cfg, x, slave, subvols, local, infos).w.log == x.w.log
    decreases |subvols|
  {
    if subvols != [] {
      var v := subvols[0];
      SubvolKeepsLog(cfg, x, slave, v, Listing(local, v), Listing(infos, v));
      SubvolsKeepLog(cfg, ReplicateSubvol(cfg, x, slave, v, Listing(local, v), Listing(infos, v)), slave,
        subvols[1..], local, infos);
    }
  }

  lemma {:induction false} SlavesReached(cfg: Config, x: Session, slaves: seq<string>, local: Dir, i: nat)
    requires Distinct(slaves) && i < |slaves| && forall s | s in slaves :: s in x.w.remote && s !in x.w.log.reached
    ensures slaves[i] in ReplicateSlaves(cfg, x, slaves, local).w.log.reached
            <==> DoneAt(ReplicateSlaves(cfg, x, slaves[..i], local).w.tape, 0)
    decreases |slaves|
  {
    var n := |slaves| - 1;
    SlavesLast(cfg, x, slaves, local);
    var y := ReplicateSlaves(cfg, x, slaves[..n], local);
    OneReached(cfg, y, slaves[n], local);
    if i < n {
      SlavesReached(cfg, x, slaves[..n], local, i);
      assert slaves[..n][..i] == slaves[..i];
    } else {
      NotYetReached(cfg, x, slaves[..n], local, slaves[n]);
    }
  }

  lemma OneReached(cfg: Config, x: Session, slave: string, local: Dir)
    requires slave in x.w.remote
    ensures ReplicateSlave(cfg, x, slave, local).w.log.reached
            == x.w.log.reached + if DoneAt(x.w.tape, 0) then {slave} else {}
  {
    NextIsAfter(x.w.tape);
    SubvolsKeepLog(cfg, Opened(x, slave), slave, cfg.subvolumes, local, x.w.remote[slave]);
  }

  lemma {:induction false} NotYetReached(cfg: Config, x: Session, slaves: seq<string>, local: Dir, slave: string)
    requires slave !in slaves && slave !in x.w.log.reached && forall s | s in slaves :: s in x.w.remote
    ensures slave !in ReplicateSlaves(cfg, x, slaves, local).w.log.reached
    decreases |slaves|
  {
    if slaves != [] {
      OneReached(cfg, x, slaves[0], local);
      NotYetReached(cfg, ReplicateSlave(cfg, x, slaves[0], local), slaves[1..], local, slave);
    }
  }

  /** A slave counts as reached exactly if it answers when its turn comes. */
  lemma ReachedExactly(cfg: Config, w: World, i: nat)
    requires Inv(cfg, w) && ValidConfig(cfg) && !Stops(cfg, w) && i < |cfg.slaves|
    ensures cfg.slaves[i] in Cycle(cfg, w).0.log.reached <==> Answers(cfg, w, i)
  {
    FullCycle(cfg, w);
    SlavesReached(cfg, BeforeSlaves(cfg, w), cfg.slaves, BeforeSlaves(cfg, w).w.local, i);
  }

  /* ---- every turn of every run ---- */

  /** What the turn of subvolume `j` on slave `i` goes by: the local snapshots, and the slave as it was listed. */
  function LocalList(cfg: Config, w: World, j: nat): seq<Snapshot>
    requires j < |cfg.subvolumes|
  {
    Listing(BeforeSlaves(cfg, w).w.local, cfg.subvolumes[j])
  }

  function RemoteList(cfg: Config, w: World, i: nat, j: nat): seq<Snapshot>
    requires Connected(cfg, w) && i < |cfg.slaves| && j < |cfg.subvolumes|
  {
    Listing(AtSlave(cfg, w, i).w.remote[cfg.slaves[i]], cfg.subvolumes[j])
  }

  /** Every turn of every run leaves exactly what TurnLeft says, going by the listing from before the slave's turn. */
  lemma EveryTurnExactly(cfg: Config, w: World, scripts: seq<seq<Event>>, next: seq<Event>, i: nat, j: nat,
                         latest: Snapshot)
    requires Inv(cfg, w) && ValidConfig(cfg) && i < |cfg.slaves| && j < |cfg.subvolumes|
    requires NewestOf(LocalList(cfg, Loaded(Run(cfg, w, scripts), next), j), ReadOnlyOne) == Some(latest)
    ensures var w1 := Loaded(Run(cfg, w, scripts), next);
            var local, remote := LocalList(cfg, w1, j), RemoteList(cfg, w1, i, j);
            TurnLeft(AtSubvol(cfg, w1, i, j).(failed := false), TurnOf(cfg, w1, i, j), cfg.slaves[i],
              cfg.subvolumes[j], OfKind(remote, Uuids(local), Leftover), OfKind(remote, Uuids(local), Complete),
              latest, ParentOf(local, remote), cfg.keepReceiver)
  {
    RunSafe(cfg, w, scripts);
    LoadedInv(cfg, Run(cfg, w, scripts), next);
    var w1 := Loaded(Run(cfg, w, scripts), next);
    NothingBefore(cfg, w1, i, j);
    var x := AtSubvol(cfg, w1, i, j);
    ListingSameOn(AtSlave(cfg, w1, i).w.remote[cfg.slaves[i]], x.w.remote[cfg.slaves[i]], cfg.subvolumes[j]);
    TurnExactly(cfg, x.(failed := false), cfg.slaves[i], cfg.subvolumes[j], latest);
  }

  /**
    Offline catch-up, as a stream: after any run that keeps the anchor, whatever the next turn of the subvolume
    streams to the slave is the newest snapshot, incremental, from a parent at least as new as the cursor was.
   */
  lemma CatchUpStream(cfg: Config, w: World, scripts: seq<seq<Event>>, next: seq<Event>, i: nat, j: nat,
                      latest: Snapshot, stream: Stream)
    requires Inv(cfg, w) && ValidConfig(cfg) && i < |cfg.slaves| && j < |cfg.subvolumes|
    requires HasAnchor(w, cfg.slaves[i], cfg.subvolumes[j]) && Throughout(cfg, w, scripts, Keeping(cfg.slaves[i]))
    requires YoungThroughout(cfg, scripts, Get(w.file, cfg.slaves[i], cfg.subvolumes[j]).value.name.time)
    requires var w1 := Loaded(Run(cfg, w, scripts), next);
             && NewestOf(LocalList(cfg, w1, j), ReadOnlyOne) == Some(latest)
             && TurnOf(cfg, w1, i, j).w.streams == AtSubvol(cfg, w1, i, j).w.streams + [stream]
    ensures stream.slave == cfg.slaves[i] && stream.name == latest.name && stream.parent.Some?
    ensures Get(w.file, cfg.slaves[i], cfg.subvolumes[j]).value.name.time <= stream.parent.value.time
  {
    var w1 := Loaded(Run(cfg, w, scripts), next);
    EveryTurnExactly(cfg, w, scripts, next, i, j, latest);
    CatchUpIsIncremental(cfg, w, scripts, next, i, j);
    var before, parent := AtSubvol(cfg, w1, i, j).w.streams, ParentOf(LocalList(cfg, w1, j), RemoteList(cfg, w1, i, j));
    var after := TurnOf(cfg, w1, i, j).w.streams;
    assert after[|before|] == stream;
  }
}
