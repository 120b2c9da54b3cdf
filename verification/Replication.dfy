/** What replicating to a slave does: safety of every outcome, and the cursors it leaves. */
module Replication {
  import opened Wrappers
  import opened Snapshots
  import opened CursorTable
  import opened Plan
  import opened Protocol
  import opened Safety

  /** The two directories agree on every other subvolume. */
  predicate SameElsewhere(d: Dir, d': Dir, subvol: string) {
    && (forall n | n in d && n.subvol != subvol :: n in d' && d'[n] == d[n])
    && (forall n | n in d' && n.subvol != subvol :: n in d)
  }

  /** The cursor names a local snapshot and a complete copy of it on the slave. */
  predicate Backed(local: Dir, d: Dir, subvol: string, c: Cursor) {
    && c.name.subvol == subvol
    && c.name in local && local[c.name].SendUuid() == c.uuid
    && c.name in d && d[c.name].Received() && d[c.name].receivedUuid == c.uuid
  }

  /* ---- on one slave's directory ---- */

  /** Replicating one subvolume keeps the slave sound, retains copies and leaves other subvolumes alone. */
  ghost predicate DirStep(cfg: Config, local: Dir, d: Dir, d': Dir, subvol: string, id: Uuid) {
    && RemoteOk(cfg, local, d', id)
    && Retains(AtLeastOne(cfg.keepReceiver), d, d')
    && SameElsewhere(d, d', subvol)
  }

  lemma DirStepTransitive(cfg: Config, local: Dir, d: Dir, d1: Dir, d2: Dir, subvol: string, id1: Uuid, id2: Uuid)
    requires DirStep(cfg, local, d, d1, subvol, id1) && DirStep(cfg, local, d1, d2, subvol, id2)
    ensures DirStep(cfg, local, d, d2, subvol, id2)
  {
    RetainsTransitive(AtLeastOne(cfg.keepReceiver), d, d1, d2);
  }

  lemma WithinKeepsRemoteOk(cfg: Config, local: Dir, d: Dir, d': Dir, id: Uuid)
    requires RemoteOk(cfg, local, d, id) && Within(d', d)
    ensures RemoteOk(cfg, local, d', id)
  {
    forall n | n in d' ensures CopyOk(cfg, local, n, d'[n], id) {
      assert CopyOk(cfg, local, n, d[n], id);
    }
  }

  /** Deleting leftovers touches no complete copy. */
  lemma GarbageStep(cfg: Config, local: Dir, d: Dir, t: Tape, garbage: seq<Snapshot>, subvol: string, id: Uuid)
    requires RemoteOk(cfg, local, d, id)
    requires forall x | x in garbage :: x.name.subvol == subvol && x.name in d && !d[x.name].Received()
    ensures var d1 := Sweep(d, t, garbage).0;
            && DirStep(cfg, local, d, d1, subvol, id) && Within(d1, d)
            && forall n | n in d && d[n].Received() :: n in d1 && d1[n] == d[n]
  {
    SweepRemovesOnly(d, t, garbage);
    WithinKeepsRemoteOk(cfg, local, d, Sweep(d, t, garbage).0, id);
  }

  /** Pruning keeps at least the newest of the list. */
  lemma PruneStep(cfg: Config, local: Dir, d: Dir, t: Tape, c: seq<Snapshot>, subvol: string, id: Uuid)
    requires RemoteOk(cfg, local, d, id) && Sorted(c)
    requires forall x | x in c :: x.name in d && d[x.name].Received() && x.name.subvol == subvol
    ensures var d' := Sweep(d, t, PlanRemotePrune(c, cfg.keepReceiver)).0;
            && DirStep(cfg, local, d, d', subvol, id) && Within(d', d)
            && (c != [] ==> c[|c| - 1].name in d')
  {
    PruneRetains(cfg.keepReceiver, d, t, c, subvol);
    var doomed := PlanRemotePrune(c, cfg.keepReceiver);
    assert forall x | x in doomed :: x in c;
    SweepRemovesOnly(d, t, doomed);
    WithinKeepsRemoteOk(cfg, local, d, Sweep(d, t, doomed).0, id);
  }

  /** A receive adds an entry under a name that was free. */
  lemma ArrivalStep(cfg: Config, local: Dir, d: Dir, latest: Snapshot, id: Uuid, o: Outcome)
    requires LocalOk(local, id) && RemoteOk(cfg, local, d, id)
    requires latest.name in local && local[latest.name] == latest.copy && latest.name !in d
    requires Arrival(latest, id, o).Some?
    ensures DirStep(cfg, local, d, d[latest.name := Arrival(latest, id, o).value], latest.name.subvol, id + 1)
  {
    var c := Arrival(latest, id, o).value;
    var d' := d[latest.name := c];
    forall n | n in d' ensures CopyOk(cfg, local, n, d'[n], id + 1) {
      if n == latest.name {
        assert local[n].SendUuid() == latest.copy.SendUuid();
      } else {
        assert CopyOk(cfg, local, n, d[n], id);
      }
    }
  }

  /* ---- on the world ---- */

  lemma RemoteOkLater(cfg: Config, local: Dir, d: Dir, id: Uuid, id': Uuid)
    requires RemoteOk(cfg, local, d, id) && id <= id'
    ensures RemoteOk(cfg, local, d, id')
  {
    forall n | n in d ensures CopyOk(cfg, local, n, d[n], id') {
      assert CopyOk(cfg, local, n, d[n], id);
    }
  }

  lemma OnlyOneSlave(cfg: Config, w: World, w': World, slave: string, subvol: string)
    requires Inv(cfg, w) && slave in w.remote && slave in w'.remote
    requires w'.local == w.local && w'.file == w.file && w'.log == w.log && w.nextId <= w'.nextId
    requires w'.remote == w.remote[slave := w'.remote[slave]]
    requires DirStep(cfg, w.local, w.remote[slave], w'.remote[slave], subvol, w'.nextId)
    ensures Inv(cfg, w') && RemoteStep(cfg, w, w')
  {
    forall s | s in w'.remote ensures RemoteOk(cfg, w'.local, w'.remote[s], w'.nextId)
        && Retains(AtLeastOne(cfg.keepReceiver), w.remote[s], w'.remote[s]) {
      if s != slave {
        assert w'.remote[s] == w.remote[s];
        RemoteOkLater(cfg, w.local, w.remote[s], w.nextId, w'.nextId);
      }
    }
  }

  /** What one call of replicateSubvol leaves behind. */
  ghost predicate SubvolDone(cfg: Config, x: Session, r: Session, slave: string, subvol: string, empty: bool,
                             parent: Option<Snapshot>)
    requires slave in x.w.remote && slave in r.w.remote
  {
    && Inv(cfg, r.w) && RemoteStep(cfg, x.w, r.w)
    && r.w.log == x.w.log && r.w.remote == x.w.remote[slave := r.w.remote[slave]]
    && SameElsewhere(x.w.remote[slave], r.w.remote[slave], subvol)
    && CursorDone(x.cur, r.cur, slave, subvol, x.w.local, r.w.remote[slave], empty, parent)
  }

  /** The cursor it leaves: backed on both sides, at least as new as the parent, and no other changed. */
  ghost predicate CursorDone(cur: Cursors, cur': Cursors, slave: string, subvol: string, local: Dir, d: Dir,
                             empty: bool, parent: Option<Snapshot>) {
    var c := Get(cur', slave, subvol);
    && (empty ==> cur' == cur)
    && (!empty && c.Some? ==> Backed(local, d, subvol, c.value))
    && (parent.Some? ==> c.Some? && parent.value.name.time <= c.value.name.time)
    && (forall s, v | s != slave || v != subvol :: Get(cur', s, v) == Get(cur, s, v))
  }

  /** The facts about the two listings that the steps below need. */
  ghost predicate Planned(local: Dir, d: Dir, subvol: string, complete: seq<Snapshot>, garbage: seq<Snapshot>,
                          latest: Snapshot, parent: Option<Snapshot>) {
    && Sorted(complete)
    && (forall x | x in complete :: x.name in d && d[x.name].Received() && x.name.subvol == subvol)
    && (forall x | x in garbage :: x.name in d && !d[x.name].Received() && x.name.subvol == subvol)
    && latest.name in local && latest.copy == local[latest.name] && latest.name.subvol == subvol
    && (parent.Some? ==>
          var p := parent.value;
          && p.name in local && p.copy == local[p.name] && p.name.subvol == subvol && p.name.time <= latest.name.time
          && p.name in d && d[p.name].Received() && d[p.name].receivedUuid == p.copy.SendUuid())
    && (forall x | x in complete :: x.name.time < latest.name.time || (x.name == latest.name && parent == Some(latest)))
    && (parent == Some(latest) ==> complete != [] && complete[|complete| - 1].name == latest.name)
  }

  lemma PlannerView(cfg: Config, w: World, slave: string, subvol: string, local: seq<Snapshot>, remote: seq<Snapshot>)
    requires Inv(cfg, w) && slave in w.remote && subvol in cfg.subvolumes
    requires local == Listing(w.local, subvol) && remote == Listing(w.remote[slave], subvol)
    ensures local == [] <==> NewestOf(local, ReadOnlyOne).None?
    ensures local == [] ==> ParentOf(local, remote).None?
    ensures local != [] ==>
              Planned(w.local, w.remote[slave], subvol, OfKind(remote, Uuids(local), Complete),
                  OfKind(remote, Uuids(local), Leftover),
                      NewestOf(local, ReadOnlyOne).value, ParentOf(local, remote))
    ensures forall x | x in OfKind(remote, Uuids(local), Leftover) ::
              x.name in w.remote[slave] && !w.remote[slave][x.name].Received() && x.name.subvol == subvol
  {
    var complete := OfKind(remote, Uuids(local), Complete);
    Decisions(cfg, w, slave, subvol, local, remote, complete);
    OfKindExact(remote, Uuids(local), Leftover);
    ParentIsCommon(cfg, w, slave, subvol);
    if local != [] {
      var latest, parent := NewestOf(local, ReadOnlyOne).value, ParentOf(local, remote);
      forall x | x in complete ensures x.name.time < latest.name.time
          || (x.name == latest.name && parent == Some(latest)) {
        LatestDominates(cfg, w, slave, subvol, latest, x);
      }
      if parent == Some(latest) {
        var y := Snapshot(latest.name, w.remote[slave][latest.name]);
        assert y in complete;
        LastIsNewest(complete, y);
      }
    }
  }

  lemma LastIsNewest(c: seq<Snapshot>, y: Snapshot)
    requires Sorted(c) && y in c && forall x | x in c :: x.name.time < y.name.time || x.name == y.name
    ensures c != [] && c[|c| - 1].name == y.name
  {
    var i :| 0 <= i < |c| && c[i] == y;
    assert c[|c| - 1] in c;
  }

  lemma SubvolSafe(cfg: Config, x: Session, slave: string, subvol: string)
    requires Inv(cfg, x.w) && slave in x.w.remote && subvol in cfg.subvolumes
    ensures var r := ReplicateSubvol(cfg, x, slave, subvol, Listing(x.w.local, subvol),
            Listing(x.w.remote[slave], subvol));
            SubvolDone(cfg, x, r, slave, subvol, Listing(x.w.local, subvol) == [],
                ParentOf(Listing(x.w.local, subvol), Listing(x.w.remote[slave], subvol)))
  {
    var local, remote := Listing(x.w.local, subvol), Listing(x.w.remote[slave], subvol);
    var r := ReplicateSubvol(cfg, x, slave, subvol, local, remote);
    var complete, garbage := OfKind(remote, Uuids(local), Complete), OfKind(remote, Uuids(local), Leftover);
    PlannerView(cfg, x.w, slave, subvol, local, remote);
    if local == [] {
      GarbageStep(cfg, x.w.local, x.w.remote[slave], x.w.tape, garbage, subvol, x.w.nextId);
      OnlyOneSlave(cfg, x.w, r.w, slave, subvol);
    } else {
      SubvolBranches(cfg, x, slave, subvol, local, remote, complete, garbage, NewestOf(local, ReadOnlyOne).value,
          ParentOf(local, remote));
    }
  }

  /** What ReplicateSubvol comes to when there is a snapshot to send. */
  lemma SubvolTurn(cfg: Config, x: Session, slave: string, subvol: string, local: seq<Snapshot>,
                   remote: seq<Snapshot>, latest: Snapshot)
    requires slave in x.w.remote && NewestOf(local, ReadOnlyOne) == Some(latest)
    ensures var r := ReplicateSubvol(cfg, x, slave, subvol, local, remote);
            var complete, parent := OfKind(remote, Uuids(local), Complete), ParentOf(local, remote);
            var w1, cur := SweepRemote(x.w, slave, OfKind(remote, Uuids(local), Leftover)),
                Remember(x.cur, slave, subvol, parent);
            if parent.Some? && parent.value.name == latest.name then
              r.w == SweepRemote(w1, slave, PlanRemotePrune(complete, cfg.keepReceiver)) && r.cur == cur
            else
              var (w2, failed) := Deliver(w1, slave, latest, parent,
                  PlanRemotePrune(complete + [latest], cfg.keepReceiver));
              r.w == w2 && r.cur == if failed then cur else Set(cur, slave, subvol, latest)
  {
  }

  lemma SubvolBranches(cfg: Config, x: Session, slave: string, subvol: string, local: seq<Snapshot>,
                       remote: seq<Snapshot>,
                       complete: seq<Snapshot>, garbage: seq<Snapshot>, latest: Snapshot, parent: Option<Snapshot>)
    requires Inv(cfg, x.w) && slave in x.w.remote
    requires complete == OfKind(remote, Uuids(local), Complete) && garbage == OfKind(remote, Uuids(local), Leftover)
    requires NewestOf(local, ReadOnlyOne) == Some(latest) && parent == ParentOf(local, remote)
    requires Planned(x.w.local, x.w.remote[slave], subvol, complete, garbage, latest, parent)
    ensures SubvolDone(cfg, x, ReplicateSubvol(cfg, x, slave, subvol, local, remote), slave, subvol, false, parent)
  {
    SubvolTurn(cfg, x, slave, subvol, local, remote, latest);
    var r, w1 := ReplicateSubvol(cfg, x, slave, subvol, local, remote), SweepRemote(x.w, slave, garbage);
    GarbageStep(cfg, x.w.local, x.w.remote[slave], x.w.tape, garbage, subvol, x.w.nextId);
    TurnDone(cfg, x, w1, r, slave, subvol, complete, latest, parent);
  }

  /** The turn from the world after the leftovers are deleted. */
  lemma TurnDone(cfg: Config, x: Session, w1: World, r: Session, slave: string, subvol: string, complete: seq<Snapshot>,
                 latest: Snapshot, parent: Option<Snapshot>)
    requires Inv(cfg, x.w) && slave in x.w.remote && slave in w1.remote && slave in r.w.remote
    requires w1 == x.w.(remote := x.w.remote[slave := w1.remote[slave]], tape := w1.tape)
    requires Planned(x.w.local, x.w.remote[slave], subvol, complete, [], latest, parent)
    requires DirStep(cfg, x.w.local, x.w.remote[slave], w1.remote[slave], subvol, x.w.nextId)
    requires var d, d1 := x.w.remote[slave], w1.remote[slave]; forall n | n in d && d[n].Received() ::
               n in d1 && d1[n] == d[n]
    requires var cur := Remember(x.cur, slave, subvol, parent);
             if parent.Some? && parent.value.name == latest.name then
               r.w == SweepRemote(w1, slave, PlanRemotePrune(complete, cfg.keepReceiver)) && r.cur == cur
             else
               var (w2, failed) := Deliver(w1, slave, latest, parent,
                   PlanRemotePrune(complete + [latest], cfg.keepReceiver));
               r.w == w2 && r.cur == if failed then cur else Set(cur, slave, subvol, latest)
    ensures SubvolDone(cfg, x, r, slave, subvol, false, parent)
  {
    if parent.Some? && parent.value.name == latest.name {
      UpToDateStep(cfg, x, w1, r, slave, subvol, complete, latest);
    } else {
      SentStep(cfg, x, w1, r, slave, subvol, complete, latest, parent);
    }
  }

  lemma UpToDateStep(cfg: Config, x: Session, w1: World, r: Session, slave: string, subvol: string,
                     complete: seq<Snapshot>, latest: Snapshot)
    requires Inv(cfg, x.w) && slave in x.w.remote && slave in w1.remote && slave in r.w.remote
    requires w1 == x.w.(remote := x.w.remote[slave := w1.remote[slave]], tape := w1.tape)
    requires Planned(x.w.local, x.w.remote[slave], subvol, complete, [], latest, Some(latest))
    requires DirStep(cfg, x.w.local, x.w.remote[slave], w1.remote[slave], subvol, x.w.nextId)
    requires forall n | n in x.w.remote[slave] && x.w.remote[slave][n].Received() ::
               n in w1.remote[slave] && w1.remote[slave][n] == x.w.remote[slave][n]
    requires r.w == SweepRemote(w1, slave, PlanRemotePrune(complete, cfg.keepReceiver))
    requires r.cur == Set(x.cur, slave, subvol, latest)
    ensures SubvolDone(cfg, x, r, slave, subvol, false, Some(latest))
  {
    var d, d1, d3 := x.w.remote[slave], w1.remote[slave], r.w.remote[slave];
    PruneStep(cfg, x.w.local, d1, w1.tape, complete, subvol, x.w.nextId);
    DirStepTransitive(cfg, x.w.local, d, d1, d3, subvol, x.w.nextId, x.w.nextId);
    OnlyOneSlave(cfg, x.w, r.w, slave, subvol);
    assert Backed(x.w.local, d3, subvol, CursorOf(latest));
    SetGet(x.cur, slave, subvol, latest);
  }

  /** From the world after the garbage to the world after the send. */
  lemma SendStep(cfg: Config, w: World, slave: string, latest: Snapshot, parent: Option<Snapshot>)
    requires Inv(cfg, w) && slave in w.remote
    requires latest.name in w.local && latest.copy == w.local[latest.name]
    ensures var (w2, failed) := Send(w, slave, latest, parent);
            && DirStep(cfg, w.local, w.remote[slave], w2.remote[slave], latest.name.subvol, w2.nextId)
            && Within(w.remote[slave], w2.remote[slave])
            && w2 == w.(remote := w.remote[slave := w2.remote[slave]], tape := w2.tape, nextId := w2.nextId,
                        streams := w2.streams)
               && w.nextId <= w2.nextId
            && (!failed ==> latest.name in w2.remote[slave] && w2.remote[slave][latest.name].Received()
                            && w2.remote[slave][latest.name].receivedUuid == latest.copy.SendUuid())
  {
    var (e, t) := Next(w.tape);
    var d := w.remote[slave];
    assert RemoteOk(cfg, w.local, d, w.nextId);
    if latest.name !in d && ParentThere(d, parent) && Arrival(latest, w.nextId, e.outcome).Some? {
      ArrivalStep(cfg, w.local, d, latest, w.nextId, e.outcome);
    } else {
      assert w.remote[slave := d] == w.remote;
    }
  }

  /** The world after a send and the prune that follows it: only this slave is another. */
  lemma DeliverFrame(w: World, slave: string, s: Snapshot, parent: Option<Snapshot>, doomed: seq<Snapshot>)
    requires slave in w.remote
    ensures var w' := Deliver(w, slave, s, parent, doomed).0;
            && w' == w.(remote := w.remote[slave := w'.remote[slave]], tape := w'.tape, nextId := w'.nextId,
                        streams := w'.streams)
               && w.nextId <= w'.nextId
  {
    assert w.remote[slave := w.remote[slave]] == w.remote;
  }

  lemma SentDirs(cfg: Config, w: World, w1: World, slave: string, subvol: string, complete: seq<Snapshot>,
                 latest: Snapshot,
                 parent: Option<Snapshot>)
    requires Inv(cfg, w1) && slave in w.remote && slave in w1.remote && w1.local == w.local
    requires Planned(w.local, w.remote[slave], subvol, complete, [], latest, parent) && parent != Some(latest)
    requires DirStep(cfg, w.local, w.remote[slave], w1.remote[slave], subvol, w1.nextId)
    requires var d, d1 := w.remote[slave], w1.remote[slave]; forall n | n in d && d[n].Received() ::
               n in d1 && d1[n] == d[n]
    ensures var (w', failed) := Deliver(w1, slave, latest, parent,
            PlanRemotePrune(complete + [latest], cfg.keepReceiver));
            && DirStep(cfg, w.local, w.remote[slave], w'.remote[slave], subvol, w'.nextId)
            && if failed then parent.Some? ==> Backed(w.local, w'.remote[slave], subvol, CursorOf(parent.value))
               else Backed(w.local, w'.remote[slave], subvol, CursorOf(latest))
  {
    var d, d1 := w.remote[slave], w1.remote[slave];
    SendStep(cfg, w1, slave, latest, parent);
    var (w2, failed) := Send(w1, slave, latest, parent);
    var d2 := w2.remote[slave];
    DirStepTransitive(cfg, w.local, d, d1, d2, subvol, w1.nextId, w2.nextId);
    if !failed {
      SentPrune(cfg, w.local, d, d2, w2.tape, subvol, complete, latest, w2.nextId);
    }
  }

  /** The prune after a send that succeeded. */
  lemma SentPrune(cfg: Config, local: Dir, d: Dir, d2: Dir, t: Tape, subvol: string, complete: seq<Snapshot>,
                  latest: Snapshot, id: Uuid)
    requires DirStep(cfg, local, d, d2, subvol, id)
    requires Sorted(complete) && forall x | x in complete ::
               x.name.time < latest.name.time && x.name.subvol == subvol && x.name in d2 && d2[x.name].Received()
    requires latest.name.subvol == subvol && latest.name in d2 && d2[latest.name].Received()
    ensures var d3 := Sweep(d2, t, PlanRemotePrune(complete + [latest], cfg.keepReceiver)).0;
            DirStep(cfg, local, d, d3, subvol, id) && latest.name in d3 && d3[latest.name] == d2[latest.name]
  {
    var c := complete + [latest];
    PruneStep(cfg, local, d2, t, c, subvol, id);
    DirStepTransitive(cfg, local, d, d2, Sweep(d2, t, PlanRemotePrune(c, cfg.keepReceiver)).0, subvol, id, id);
  }

  lemma SentStep(cfg: Config, x: Session, w1: World, r: Session, slave: string, subvol: string, complete: seq<Snapshot>,
                 latest: Snapshot, parent: Option<Snapshot>)
    requires Inv(cfg, x.w) && slave in x.w.remote && slave in w1.remote && slave in r.w.remote
    requires w1 == x.w.(remote := x.w.remote[slave := w1.remote[slave]], tape := w1.tape)
    requires Planned(x.w.local, x.w.remote[slave], subvol, complete, [], latest, parent) && parent != Some(latest)
    requires DirStep(cfg, x.w.local, x.w.remote[slave], w1.remote[slave], subvol, x.w.nextId)
    requires var d, d1 := x.w.remote[slave], w1.remote[slave]; forall n | n in d && d[n].Received() ::
               n in d1 && d1[n] == d[n]
    requires var (w2, failed) := Deliver(w1, slave, latest, parent,
             PlanRemotePrune(complete + [latest], cfg.keepReceiver));
             var cur := Remember(x.cur, slave, subvol, parent);
             r.w == w2 && r.cur == if failed then cur else Set(cur, slave, subvol, latest)
    ensures SubvolDone(cfg, x, r, slave, subvol, false, parent)
  {
    var doomed := PlanRemotePrune(complete + [latest], cfg.keepReceiver);
    OnlyOneSlave(cfg, x.w, w1, slave, subvol);
    DeliverFrame(w1, slave, latest, parent, doomed);
    SentDirs(cfg, x.w, w1, slave, subvol, complete, latest, parent);
    OnlyOneSlave(cfg, x.w, r.w, slave, subvol);
    SentCursor(x.cur, slave, subvol, x.w.local, r.w.remote[slave], latest, parent,
        Deliver(w1, slave, latest, parent, doomed).1);
  }

  lemma SentCursor(cur: Cursors, slave: string, subvol: string, local: Dir, d: Dir, latest: Snapshot,
                   parent: Option<Snapshot>,
                   failed: bool)
    requires parent.Some? ==> parent.value.name.time <= latest.name.time
    requires if failed then parent.Some? ==> Backed(local, d, subvol, CursorOf(parent.value))
             else Backed(local, d, subvol, CursorOf(latest))
    ensures var kept := Remember(cur, slave, subvol, parent);
            CursorDone(cur, if failed then kept else Set(kept, slave, subvol, latest), slave, subvol, local, d,
                false, parent)
  {
    SetGet(Remember(cur, slave, subvol, parent), slave, subvol, latest);
    if parent.Some? {
      SetGet(cur, slave, subvol, parent.value);
    } else {
      ClearGet(cur, slave, subvol);
    }
  }

  /**
    Sends are applicable: whatever became of the garbage deletions before it, when a send is issued
    the slave holds a complete copy of the parent, and the parent is strictly older.
   */
  lemma SendsAreApplicable(cfg: Config, w: World, slave: string, subvol: string)
    requires Inv(cfg, w) && slave in w.remote && subvol in cfg.subvolumes
    ensures var local, remote := Listing(w.local, subvol), Listing(w.remote[slave], subvol);
            var w1 := SweepRemote(w, slave, OfKind(remote, Uuids(local), Leftover));
            var latest, parent := NewestOf(local, ReadOnlyOne), ParentOf(local, remote);
            && ParentThere(w1.remote[slave], parent)
            && (latest.Some? && parent.Some? ==>
                  && parent.value.name in w1.remote[slave] && w1.remote[slave][parent.value.name].Received()
                  && w1.remote[slave][parent.value.name].receivedUuid == parent.value.copy.SendUuid()
                  && (parent == latest || parent.value.name.time < latest.value.name.time))
  {
    var local, remote := Listing(w.local, subvol), Listing(w.remote[slave], subvol);
    PlannerView(cfg, w, slave, subvol, local, remote);
    GarbageStep(cfg, w.local, w.remote[slave], w.tape, OfKind(remote, Uuids(local), Leftover), subvol, w.nextId);
    NewestOfIsNewest(local, ReadOnlyOne);
    ParentIsCommon(cfg, w, slave, subvol);
  }
}
