/**
  What every command of every cycle keeps: the invariant that ties the two sides together, and the
  retention law of a slave.
 */
module Safety {
  import opened Wrappers
  import opened Snapshots
  import opened Plan
  import opened Protocol

  /* ---- retention: what a slave never loses ---- */

  /** The complete copies on a slave that are newer than `n`. */
  function Newer(d: Dir, n: Name): set<Name> {
    set m | m in d && d[m].Received() && m.subvol == n.subvol && n.time < m.time
  }

  /** The copy `n` received under `u` is still there, or `k` newer complete copies are. */
  predicate Kept(k: nat, d: Dir, n: Name, u: Uuid) {
    (n in d && d[n].Received() && d[n].receivedUuid == u) || |Newer(d, n)| >= k
  }

  /** From `d` to `d'` no complete copy has gone unless `k` newer ones are left. */
  predicate Retains(k: nat, d: Dir, d': Dir) {
    forall n {:trigger Kept(k, d', n, d[n].receivedUuid)} | n in d
        && d[n].Received() :: Kept(k, d', n, d[n].receivedUuid)
  }

  lemma KeptThrough(k: nat, d: Dir, d': Dir, n: Name, u: Uuid)
    requires Kept(k, d, n, u) && Retains(k, d, d')
    ensures Kept(k, d', n, u)
  {
    if |Newer(d, n)| >= k {
      if m :| m in Newer(d, n) && m !in Newer(d', n) {
        assert Kept(k, d', m, d[m].receivedUuid);
        SubsetSize(Newer(d', m), Newer(d', n));
      } else {
        SubsetSize(Newer(d, n), Newer(d', n));
      }
    }
  }

  lemma RetainsTransitive(k: nat, d: Dir, d1: Dir, d2: Dir)
    requires Retains(k, d, d1) && Retains(k, d1, d2)
    ensures Retains(k, d, d2)
  {
    forall n | n in d && d[n].Received() ensures Kept(k, d2, n, d[n].receivedUuid) {
      KeptThrough(k, d1, d2, n, d[n].receivedUuid);
    }
  }

  lemma {:induction false} NamesCount(c: seq<Snapshot>)
    requires Sorted(c)
    ensures |(set x | x in c :: x.name)| == |c|
  {
    if c != [] {
      var c' := c[..|c| - 1];
      NamesCount(c');
      var last := c[|c| - 1];
      assert (set x | x in c :: x.name) == (set x | x in c' :: x.name) + {last.name};
      assert last.name !in (set x | x in c' :: x.name);
    }
  }

  /* ---- sweeps ---- */

  predicate Within(d': Dir, d: Dir) {
    forall n | n in d' :: n in d && d'[n] == d[n]
  }

  /** A sweep only removes entries, and only those it was told to. */
  lemma {:induction false} SweepRemovesOnly(d: Dir, t: Tape, doomed: seq<Snapshot>)
    ensures Within(Sweep(d, t, doomed).0, d)
    ensures forall n | n in d && (forall x | x in doomed :: x.name != n) :: n in Sweep(d, t, doomed).0
    decreases |doomed|
  {
    if doomed != [] {
      var (e, t1) := Next(t);
      SweepRemovesOnly(if Takes(e.outcome) then d - {doomed[0].name} else d, t1, doomed[1..]);
      assert doomed == [doomed[0]] + doomed[1..];
    }
  }

  /** Pruning a slave keeps the newest copies of the list and so retains what the law promises. */
  lemma PruneRetains(keep: int, d: Dir, t: Tape, c: seq<Snapshot>, subvol: string)
    requires Sorted(c)
    requires forall x | x in c :: x.name in d && d[x.name].Received() && x.name.subvol == subvol
    ensures var d' := Sweep(d, t, PlanRemotePrune(c, keep)).0;
            && Retains(AtLeastOne(keep), d, d')
            && forall i | Past(|c|, keep) <= i < |c| :: c[i].name in d' && d'[c[i].name] == d[c[i].name]
  {
    var cut := Past(|c|, keep);
    var d' := Sweep(d, t, c[..cut]).0;
    SweepRemovesOnly(d, t, c[..cut]);
    forall i | cut <= i < |c| ensures c[i].name in d' && d'[c[i].name] == d[c[i].name] {
      assert forall x | x in c[..cut] :: x.name.time < c[i].name.time;
    }
    var young := c[cut..];
    NamesCount(young);
    forall n | n in d && d[n].Received() ensures Kept(AtLeastOne(keep), d', n, d[n].receivedUuid) {
      if n !in d' {
        var x :| x in c[..cut] && x.name == n;
        assert forall y | y in young :: y.name in Newer(d', n);
        SubsetSize(set y | y in young :: y.name, Newer(d', n));
      }
    }
  }

  /* ---- the invariant ---- */

  /** Every local snapshot is read-only and is sent under a UUID of its own. */
  ghost predicate LocalOk(local: Dir, nextId: Uuid) {
    && nextId > 0
    && (forall n | n in local :: local[n].readOnly && 0 < local[n].uuid < nextId && local[n].SendUuid() < nextId)
    && (forall n, m | n in local && m in local && local[n].SendUuid() == local[m].SendUuid() :: n == m)
  }

  /** The copy `n`, received under `u`, is older than a local snapshot or a copy of the one it names. */
  ghost predicate Dominated(local: Dir, n: Name, u: Uuid) {
    exists m | m in local :: m.subvol == n.subvol && (n.time < m.time || (m == n && local[m].SendUuid() == u))
  }

  /** An entry of a slave: no local snapshot's UUID, a copy of no other local snapshot than its namesake. */
  ghost predicate CopyOk(cfg: Config, local: Dir, n: Name, c: Copy, nextId: Uuid) {
    && 0 < c.uuid < nextId && c.receivedUuid < nextId
    && (forall m | m in local :: c.uuid != local[m].uuid && (c.receivedUuid == local[m].SendUuid() ==> n == m))
    && (c.Received() && n.subvol in cfg.subvolumes ==> Dominated(local, n, c.receivedUuid))
  }

  ghost predicate RemoteOk(cfg: Config, local: Dir, d: Dir, nextId: Uuid) {
    forall n {:trigger CopyOk(cfg, local, n, d[n], nextId)} | n in d :: CopyOk(cfg, local, n, d[n], nextId)
  }

  ghost predicate Inv(cfg: Config, w: World) {
    && Connected(cfg, w)
    && LocalOk(w.local, w.nextId)
    && forall slave | slave in w.remote :: RemoteOk(cfg, w.local, w.remote[slave], w.nextId)
  }

  /** What changes on a slave while it is replicated to: nothing local, and copies are retained. */
  ghost predicate RemoteStep(cfg: Config, w: World, w': World) {
    && w'.local == w.local && w'.file == w.file
    && w'.log.loaded == w.log.loaded && w'.log.saved == w.log.saved && w.log.reached <= w'.log.reached
    && w.nextId <= w'.nextId
    && w'.remote.Keys == w.remote.Keys
    && forall slave | slave in w.remote :: Retains(AtLeastOne(cfg.keepReceiver), w.remote[slave], w'.remote[slave])
  }

  lemma RemoteStepTransitive(cfg: Config, w: World, w1: World, w2: World)
    requires RemoteStep(cfg, w, w1) && RemoteStep(cfg, w1, w2)
    ensures RemoteStep(cfg, w, w2)
  {
    forall slave | slave in w.remote ensures Retains(AtLeastOne(cfg.keepReceiver), w.remote[slave], w2.remote[slave]) {
      RetainsTransitive(AtLeastOne(cfg.keepReceiver), w.remote[slave], w1.remote[slave], w2.remote[slave]);
    }
  }

  /* ---- snapshots ---- */

  lemma DominatedGrows(local: Dir, local': Dir, n: Name, u: Uuid)
    requires Dominated(local, n, u) && Within(local, local')
    ensures Dominated(local', n, u)
  {
    var m :| m in local && m.subvol == n.subvol && (n.time < m.time || (m == n && local[m].SendUuid() == u));
    assert m in local';
  }

  lemma NewSnapshotKeepsLocal(local: Dir, id: Uuid, n: Name)
    requires LocalOk(local, id) && n !in local
    ensures LocalOk(local[n := Copy(id, 0, true)], id + 1)
  {
    var local' := local[n := Copy(id, 0, true)];
    forall a, b | a in local' && b in local' && local'[a].SendUuid() == local'[b].SendUuid() ensures a == b {
      assert a != n ==> local'[a] == local[a];
      assert b != n ==> local'[b] == local[b];
    }
  }

  lemma NewSnapshotKeepsRemote(cfg: Config, local: Dir, d: Dir, id: Uuid, n: Name)
    requires RemoteOk(cfg, local, d, id) && n !in local
    ensures RemoteOk(cfg, local[n := Copy(id, 0, true)], d, id + 1)
  {
    var local' := local[n := Copy(id, 0, true)];
    forall r | r in d ensures CopyOk(cfg, local', r, d[r], id + 1) {
      assert CopyOk(cfg, local, r, d[r], id);
      if Dominated(local, r, d[r].receivedUuid) {
        DominatedGrows(local, local', r, d[r].receivedUuid);
      }
    }
  }

  lemma MakeKeepsInv(cfg: Config, w: World, subvol: string, e: Event)
    requires Inv(cfg, w) && Name(subvol, e.now) !in w.local
    ensures Inv(cfg, Make(w, subvol, e))
  {
    if Takes(e.outcome) {
      NewSnapshotKeepsLocal(w.local, w.nextId, Name(subvol, e.now));
      forall slave | slave in w.remote ensures RemoteOk(cfg, Make(w, subvol, e).local, w.remote[slave], w.nextId + 1) {
        NewSnapshotKeepsRemote(cfg, w.local, w.remote[slave], w.nextId, Name(subvol, e.now));
      }
    }
  }

  /** Taking snapshots adds local entries and changes nothing else. */
  ghost predicate Grown(w: World, w': World) {
    w'.remote == w.remote && w'.file == w.file && Within(w.local, w'.local)
  }

  lemma CreateSnapshotSafe(cfg: Config, w: World, subvol: string)
    requires Inv(cfg, w)
    ensures var w' := CreateSnapshot(w, subvol).0; Inv(cfg, w') && Grown(w, w')
  {
    var (e, t) := Next(w.tape);
    var (e2, t2) := Next(t);
    if Name(subvol, e.now) !in w.local {
      MakeKeepsInv(cfg, w.(tape := t), subvol, e);
    } else if Name(subvol, e2.now) !in w.local {
      MakeKeepsInv(cfg, w.(tape := t2), subvol, e2);
    }
  }

  lemma {:induction false} TakeSnapshotsSafe(cfg: Config, w: World, subvols: seq<string>, failed: bool)
    requires Inv(cfg, w)
    ensures var w' := TakeSnapshots(w, subvols, failed).0; Inv(cfg, w') && Grown(w, w')
    decreases |subvols|
  {
    if subvols != [] {
      CreateSnapshotSafe(cfg, w, subvols[0]);
      var (w1, f) := CreateSnapshot(w, subvols[0]);
      TakeSnapshotsSafe(cfg, w1, subvols[1..], failed || f);
    }
  }

  lemma StartSafe(cfg: Config, w: World)
    requires Inv(cfg, w)
    ensures var (x, listed) := Start(cfg, w);
            && Inv(cfg, x.w) && Grown(w, x.w)
            && x.w.log.reached == {} && !x.w.log.saved
            && (listed ==> x.cur == if x.w.log.loaded then w.file else map[])
  {
    TakeSnapshotsSafe(cfg, w.(log := Log(false, {}, false)), cfg.subvolumes, false);
  }

  /* ---- one subvolume to one slave ---- */

  /** The planner's view of one subvolume, given the two listings it is called with. */
  lemma Decisions(cfg: Config, w: World, slave: string, subvol: string, local: seq<Snapshot>, remote: seq<Snapshot>,
                  complete: seq<Snapshot>)
    requires Inv(cfg, w) && slave in w.remote && subvol in cfg.subvolumes
    requires local == Listing(w.local, subvol) && remote == Listing(w.remote[slave], subvol)
    requires complete == OfKind(remote, Uuids(local), Complete)
    ensures Sorted(complete)
    ensures forall x :: x in complete <==>
              x.name in w.remote[slave] && x.copy == w.remote[slave][x.name] && x.copy.Received()
                  && x.name.subvol == subvol
    ensures forall x | x in OfKind(remote, Uuids(local), Leftover) ::
              x.name in w.remote[slave] && !w.remote[slave][x.name].Received()
    ensures local == [] <==> NewestOf(local, ReadOnlyOne).None?
    ensures NewestOf(local, ReadOnlyOne).Some? ==>
              var latest := NewestOf(local, ReadOnlyOne).value;
              latest in local && forall x | x in local :: x == latest || x.name.time < latest.name.time
  {
    OfKindExact(remote, Uuids(local), Complete);
    OfKindExact(remote, Uuids(local), Leftover);
    NewestOfIsNewest(local, ReadOnlyOne);
    assert RemoteOk(cfg, w.local, w.remote[slave], w.nextId);
    forall x | x in remote ensures x.copy.uuid !in Uuids(local) {
      assert CopyOk(cfg, w.local, x.name, w.remote[slave][x.name], w.nextId);
    }
    if local != [] { assert local[0] in local; }
  }

  /** The parent is a local snapshot with a complete copy under its own name on the slave. */
  lemma ParentIsCommon(cfg: Config, w: World, slave: string, subvol: string)
    requires Inv(cfg, w) && slave in w.remote && subvol in cfg.subvolumes
    ensures var local, d := Listing(w.local, subvol), w.remote[slave];
            var parent := ParentOf(local, Listing(d, subvol));
            && (parent.Some? ==> var p := parent.value;
                                p in local && p.name in d && d[p.name].Received()
                                    && d[p.name].receivedUuid == p.copy.SendUuid())
            && forall n | n in w.local && n.subvol == subvol && n in d && d[n].Received()
               && d[n].receivedUuid == w.local[n].SendUuid() ::
                 parent.Some? && n.time <= parent.value.name.time
  {
    var local, d := Listing(w.local, subvol), w.remote[slave];
    var complete := OfKind(Listing(d, subvol), Uuids(local), Complete);
    Decisions(cfg, w, slave, subvol, local, Listing(d, subvol), complete);
    var want := SentAs(ReceivedUuids(complete));
    NewestOfIsNewest(local, want);
    if NewestOf(local, want).Some? {
      var p := NewestOf(local, want).value;
      var x :| x in complete && x.copy.Received() && x.copy.receivedUuid == p.copy.SendUuid();
      assert RemoteOk(cfg, w.local, d, w.nextId);
      assert CopyOk(cfg, w.local, x.name, d[x.name], w.nextId);
    }
    forall n | n in w.local && n.subvol == subvol && n in d && d[n].Received()
        && d[n].receivedUuid == w.local[n].SendUuid()
      ensures NewestOf(local, want).Some? && n.time <= NewestOf(local, want).value.name.time
    {
      assert Snapshot(n, d[n]) in complete;
      assert Snapshot(n, w.local[n]) in local && Meets(Snapshot(n, w.local[n]), want);
    }
  }

  /** Time dominance at the moment of a send: no complete copy is newer than the newest local snapshot. */
  lemma LatestDominates(cfg: Config, w: World, slave: string, subvol: string, latest: Snapshot, x: Snapshot)
    requires Inv(cfg, w) && slave in w.remote && subvol in cfg.subvolumes
    requires NewestOf(Listing(w.local, subvol), ReadOnlyOne) == Some(latest)
    requires x in OfKind(Listing(w.remote[slave], subvol), Uuids(Listing(w.local, subvol)), Complete)
    ensures x.name.time < latest.name.time
            || (x.name == latest.name && ParentOf(Listing(w.local, subvol), Listing(w.remote[slave], subvol))
               == Some(latest))
  {
    var local, d := Listing(w.local, subvol), w.remote[slave];
    Decisions(cfg, w, slave, subvol, local, Listing(d, subvol), OfKind(Listing(d, subvol), Uuids(local), Complete));
    var n, u := x.name, x.copy.receivedUuid;
    var m := Dominator(cfg, w, slave, n);
    var s := Snapshot(m, w.local[m]);
    assert s in local;
    if n.time >= latest.name.time {
      assert s == latest && m == n;
      ParentIsCommon(cfg, w, slave, subvol);
      var p := ParentOf(local, Listing(d, subvol)).value;
      assert p in local && latest.name.time <= p.name.time;
    }
  }

  lemma Dominator(cfg: Config, w: World, slave: string, n: Name) returns (m: Name)
    requires Inv(cfg, w) && slave in w.remote && n in w.remote[slave] && w.remote[slave][n].Received()
             && n.subvol in cfg.subvolumes
    ensures m in w.local && m.subvol == n.subvol
    ensures n.time < m.time || (m == n && w.local[m].SendUuid() == w.remote[slave][n].receivedUuid)
  {
    assert RemoteOk(cfg, w.local, w.remote[slave], w.nextId);
    assert CopyOk(cfg, w.local, n, w.remote[slave][n], w.nextId);
    m :| m in w.local && m.subvol == n.subvol && (n.time < m.time
        || (m == n && w.local[m].SendUuid() == w.remote[slave][n].receivedUuid));
  }
}
