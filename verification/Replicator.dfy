/**
  The replicator itself: the loops of `replicator.go`, changing the two sides, the cursor table and
  the cursor file in place. Each method is proved to do what the function of the same name in module
  Protocol says, so every theorem about that function is a theorem about the method.
 */
module Replicator {
  import opened Wrappers
  import opened Snapshots
  import opened CursorTable
  import Planner = Plan
  import P = Protocol
  import opened Tapes

  class Replicator {
    const cfg: P.Config
    var local: P.Dir
    var remote: map<string, P.Dir>
    var file: Cursors
    var nextId: Uuid
    var tape: P.Tape
    var log: P.Log
    var streams: seq<P.Stream>

    function State(): P.World
      reads this
    {
      P.World(local, remote, file, nextId, tape, log, streams)
    }

    constructor (cfg: P.Config, w: P.World)
      ensures this.cfg == cfg && State() == w
    {
      this.cfg := cfg;
      local, remote, file, nextId, tape := w.local, w.remote, w.file, w.nextId, w.tape;
      log, streams := w.log, w.streams;
    }

    /** Runs one command: what happens to it is the next event of the tape. */
    method Command() returns (e: P.Event)
      modifies this`tape
      ensures (e, tape) == P.Next(old(tape))
    {
      var (event, t) := P.Next(tape);
      e, tape := event, t;
    }

    /* ---- local side ---- */

    method CreateSnapshot(subvol: string) returns (failed: bool)
      modifies this
      ensures (State(), failed) == P.CreateSnapshot(old(State()), subvol)
    {
      var attempt := 0;
      var e := Command();
      while Name(subvol, e.now) in local
        invariant 0 <= attempt <= 1
        invariant State() == old(State()).(tape := tape)
        invariant attempt == 0 ==> (e, tape) == P.Next(old(tape))
        invariant attempt == 1 ==>
                    Name(subvol, P.Next(old(tape)).0.now) in local && (e, tape) == P.Next(P.Next(old(tape)).1)
        decreases 1 - attempt
      {
        if attempt == 1 {
          return true;
        }
        attempt := attempt + 1;
        e := Command();
      }
      if P.Takes(e.outcome) {
        local, nextId := local[Name(subvol, e.now) := Copy(nextId, 0, true)], nextId + 1;
      }
      return !e.outcome.Done?;
    }

    method DeleteLocal(doomed: seq<Snapshot>)
      modifies this`local, this`tape
      ensures State() == P.SweepLocal(old(State()), doomed)
    {
      for i := 0 to |doomed|
        invariant P.Sweep(old(local), old(tape), doomed) == P.Sweep(local, tape, doomed[i..])
      {
        var e := Command();
        if P.Takes(e.outcome) {
          local := local - {doomed[i].name};
        }
      }
    }

    method PruneLocal(subvol: string, list: seq<Snapshot>, cur: Cursors)
      modifies this`local, this`tape
      ensures State() == P.PruneLocal(cfg, old(State()), subvol, list, cur)
    {
      var e := Command();
      var plan := Planner.PlanLocalPrune(list, cfg.keepSender, subvol, cfg.slaves, cur,
          Planner.Age(cfg.maxAnchorAge, e.now));
      DeleteLocal(plan.delete);
    }

    /* ---- one slave ---- */

    method DeleteRemote(slave: string, doomed: seq<Snapshot>)
      requires slave in remote
      modifies this`remote, this`tape
      ensures State() == P.SweepRemote(old(State()), slave, doomed)
    {
      for i := 0 to |doomed|
        invariant slave in remote && remote == old(remote)[slave := remote[slave]]
        invariant P.Sweep(old(remote)[slave], old(tape), doomed) == P.Sweep(remote[slave], tape, doomed[i..])
      {
        var e := Command();
        if P.Takes(e.outcome) {
          remote := remote[slave := remote[slave] - {doomed[i].name}];
        }
      }
    }

    /** btrfs send piped into btrfs receive. */
    method Send(slave: string, s: Snapshot, parent: Option<Snapshot>) returns (failed: bool)
      requires slave in remote
      modifies this`remote, this`tape, this`nextId, this`streams
      ensures (State(), failed) == P.Send(old(State()), slave, s, parent)
    {
      var e := Command();
      var arrival := P.Arrival(s, nextId, e.outcome);
      if s.name in remote[slave] || !P.ParentThere(remote[slave], parent) || arrival.None? {
        return true;
      }
      remote, nextId := remote[slave := remote[slave][s.name := arrival.value]], nextId + 1;
      streams := streams + [P.StreamOf(slave, s, parent)];
      return !e.outcome.Done?;
    }

    method ReplicateSubvol(slave: string, subvol: string, list: seq<Snapshot>, there: seq<Snapshot>, cur: Table)
      returns (failed: bool)
      requires slave in remote
      modifies this, cur
      ensures P.Session(State(), cur.m, failed) == P.ReplicateSubvol(cfg, P.Session(old(State()), old(cur.m), false),
              slave, subvol, list, there)
    {
      var complete, garbage := Planner.SplitRemote(there, list);
      DeleteRemote(slave, garbage);
      var latest := Planner.NewestReadOnly(list);
      if latest.None? {
        return true;
      }
      var parent := Planner.LatestCommon(list, complete);
      if parent.None? {
        cur.Remove(slave, subvol);
      } else {
        cur.SetTo(slave, subvol, parent.value);
      }
      if parent.None? || parent.value.name != latest.value.name {
        var bad := Send(slave, latest.value, parent);
        if bad {
          return true;
        }
        cur.SetTo(slave, subvol, latest.value);
        complete := complete + [latest.value];
      }
      DeleteRemote(slave, Planner.PlanRemotePrune(complete, cfg.keepReceiver));
      return false;
    }

    method ReplicateSlave(slave: string, lists: map<string, seq<Snapshot>>, ghost infos: P.Dir, cur: Table)
      returns (failed: bool)
      requires slave in remote
      requires forall v | v in cfg.subvolumes :: v in lists && lists[v] == P.Listing(infos, v)
      modifies this, cur
      ensures P.Session(State(), cur.m, failed) == P.ReplicateSlave(cfg, P.Session(old(State()), old(cur.m), false),
              slave, infos)
    {
      var e := Command();
      if !e.outcome.Done? {
        return true;
      }
      log := log.(reached := log.reached + {slave});
      failed := false;
      var there := remote[slave];
      ghost var start := P.Session(State(), cur.m, false);
      for i := 0 to |cfg.subvolumes|
        invariant slave in remote && remote.Keys == old(remote).Keys
        invariant P.ReplicateSubvols(cfg, start, slave, cfg.subvolumes, infos, there)
               == P.ReplicateSubvols(cfg, P.Session(State(), cur.m, failed), slave, cfg.subvolumes[i..], infos, there)
      {
        var v := cfg.subvolumes[i];
        ghost var before := P.Session(State(), cur.m, failed);
        var bad := ReplicateSubvol(slave, v, lists[v], P.Listing(there, v), cur);
        SubvolFlag(cfg, before, slave, v, P.Listing(infos, v), P.Listing(there, v));
        failed := failed || bad;
      }
    }

    /* ---- the cycle ---- */

    method TakeSnapshots() returns (failed: bool)
      modifies this
      ensures (State(), failed) == P.TakeSnapshots(old(State()), cfg.subvolumes, false)
    {
      failed := false;
      for i := 0 to |cfg.subvolumes|
        invariant P.TakeSnapshots(old(State()), cfg.subvolumes, false)
                  == P.TakeSnapshots(State(), cfg.subvolumes[i..], failed)
      {
        var bad := CreateSnapshot(cfg.subvolumes[i]);
        failed := failed || bad;
      }
    }

    method ListLocal() returns (lists: map<string, seq<Snapshot>>)
      ensures forall v | v in cfg.subvolumes :: v in lists && lists[v] == P.Listing(local, v)
    {
      lists := map[];
      for i := 0 to |cfg.subvolumes|
        invariant forall v | v in cfg.subvolumes[..i] :: v in lists && lists[v] == P.Listing(local, v)
      {
        lists := lists[cfg.subvolumes[i] := P.Listing(local, cfg.subvolumes[i])];
      }
    }

    method ReplicateSlaves(lists: map<string, seq<Snapshot>>, ghost infos: P.Dir, cur: Table, before: bool)
      returns (failed: bool)
      requires P.Connected(cfg, State())
      requires forall v | v in cfg.subvolumes :: v in lists && lists[v] == P.Listing(infos, v)
      modifies this, cur
      ensures P.Session(State(), cur.m, failed) == P.ReplicateSlaves(cfg,
              P.Session(old(State()), old(cur.m), before), cfg.slaves, infos)
    {
      failed := before;
      ghost var start := P.Session(State(), cur.m, before);
      for i := 0 to |cfg.slaves|
        invariant remote.Keys == old(remote).Keys
        invariant P.ReplicateSlaves(cfg, start, cfg.slaves, infos)
               == P.ReplicateSlaves(cfg, P.Session(State(), cur.m, failed), cfg.slaves[i..], infos)
      {
        ghost var x := P.Session(State(), cur.m, failed);
        var bad := ReplicateSlave(cfg.slaves[i], lists, infos, cur);
        SlaveFlag(cfg, x, cfg.slaves[i], infos);
        failed := failed || bad;
      }
    }

    method PruneLocals(lists: map<string, seq<Snapshot>>, ghost infos: P.Dir, cur: Cursors)
      requires forall v | v in cfg.subvolumes :: v in lists && lists[v] == P.Listing(infos, v)
      modifies this`local, this`tape
      ensures State() == P.PruneLocals(cfg, old(State()), cfg.subvolumes, infos, cur)
    {
      for i := 0 to |cfg.subvolumes|
        invariant P.PruneLocals(cfg, old(State()), cfg.subvolumes, infos, cur)
               == P.PruneLocals(cfg, State(), cfg.subvolumes[i..], infos, cur)
      {
        PruneLocal(cfg.subvolumes[i], lists[cfg.subvolumes[i]], cur);
      }
    }

    /** Reads the cursor file; one that cannot be read is taken for one without cursors. */
    method LoadCursors(failed: bool) returns (cur: Table)
      modifies this`log, this`tape
      ensures fresh(cur) && P.Session(State(), cur.m, failed) == P.Load(old(State()), failed)
    {
      var e := Command();
      log := log.(loaded := e.outcome.Done?);
      cur := new Table(if log.loaded then file else map[]);
    }

    method SaveCursors(cur: Table) returns (failed: bool)
      modifies this`file, this`log, this`tape
      ensures State() == Written(cfg, P.Session(old(State()), cur.m, false))
      ensures failed <==> !P.Next(old(tape)).0.outcome.Done?
    {
      var e := Command();
      if P.Takes(e.outcome) {
        var st := cur.ToSave(cfg.slaves);
        file, log := st, log.(saved := true);
      }
      return !e.outcome.Done?;
    }

    /** One cycle; true means that it returned an error. */
    method RunCycle() returns (failed: bool)
      requires P.Connected(cfg, State())
      modifies this
      ensures (State(), failed) == P.Cycle(cfg, old(State()))
    {
      log := P.Log(false, {}, false);
      if cfg.slaves == [] {
        return false;
      }
      failed := TakeSnapshots();
      var listing := Command();
      if !listing.outcome.Done? {
        return true;
      }
      var lists := ListLocal();
      ghost var infos := local;
      var cur := LoadCursors(failed);
      failed := ReplicateSlaves(lists, infos, cur, failed);
      var unsaved := SaveCursors(cur);
      if unsaved || !log.loaded {
        return true;
      }
      PruneLocals(lists, infos, cur.m);
    }
  }
}
