/** Whole runs: the local prune at the end of a cycle, and the theorems over every sequence of cycles. */
module Runs {
  import opened Wrappers
  import opened Snapshots
  import opened CursorTable
  import opened Plan
  import opened Protocol
  import opened Safety
  import opened Replication
  import opened Cycles
  import opened LocalPruning
  import opened Tapes

  /* ---- pruning locally ---- */

  /** No snapshot of `local` is newer than the newest of its subvolume in `local'`. */
  ghost predicate NewestStays(local: Dir, local': Dir) {
    forall n {:trigger Outlived(local', n)} | n in local :: Outlived(local', n)
  }

  ghost predicate Outlived(local: Dir, n: Name) {
    exists m | m in local :: m.subvol == n.subvol && n.time <= m.time
  }

  lemma NewestStaysTransitive(a: Dir, b: Dir, c: Dir)
    requires NewestStays(a, b) && NewestStays(b, c)
    ensures NewestStays(a, c)
  {
    forall n | n in a ensures Outlived(c, n) {
      assert Outlived(b, n);
      var m :| m in b && m.subvol == n.subvol && n.time <= m.time;
      assert Outlived(c, m);
      var k :| k in c && k.subvol == m.subvol && m.time <= k.time;
      assert k.subvol == n.subvol && n.time <= k.time;
    }
  }

  lemma GrownNewestStays(a: Dir, b: Dir)
    requires forall n | n in a :: n in b
    ensures NewestStays(a, b)
  {
    forall n | n in a ensures Outlived(b, n) {
      assert n in b && n.subvol == n.subvol && n.time <= n.time;
    }
  }

  /** Deleting local snapshots keeps the invariant as long as the newest of each subvolume stays. */
  lemma LocalDeleteKeepsInv(cfg: Config, w: World, local': Dir, t: Tape)
    requires Inv(cfg, w) && Within(local', w.local) && NewestStays(w.local, local')
    ensures Inv(cfg, w.(local := local', tape := t))
  {
    forall slave | slave in w.remote ensures RemoteOk(cfg, local', w.remote[slave], w.nextId) {
      var d := w.remote[slave];
      assert RemoteOk(cfg, w.local, d, w.nextId);
      forall n | n in d ensures CopyOk(cfg, local', n, d[n], w.nextId) {
        assert CopyOk(cfg, w.local, n, d[n], w.nextId);
        if Dominated(w.local, n, d[n].receivedUuid) {
          DominatedStays(w.local, local', n, d[n].receivedUuid);
        }
      }
    }
  }

  lemma DominatedStays(local: Dir, local': Dir, n: Name, u: Uuid)
    requires Dominated(local, n, u) && Within(local', local) && NewestStays(local, local')
    ensures Dominated(local', n, u)
  {
    var m :| m in local && m.subvol == n.subvol && (n.time < m.time || (m == n && local[m].SendUuid() == u));
    assert Outlived(local', m);
    var k :| k in local' && k.subvol == m.subvol && m.time <= k.time;
    if k.time == n.time {
      assert k == n == m;
    }
  }

  /** There is no age limit, or no event of the tape is late enough for a snapshot of this time to be over it. */
  predicate Young(cfg: Config, t: Tape, time: int) {
    cfg.maxAnchorAge <= 0 || forall e | e in t.script :: e.now - time <= cfg.maxAnchorAge
  }

  lemma YoungFollows(cfg: Config, t: Tape, t': Tape, time: int, time': int)
    requires Young(cfg, t, time) && Follows(t, t') && time <= time'
    ensures Young(cfg, t', time')
  {
  }

  /** What pruning leaves: the newest snapshot, and every anchor that is not over age. */
  ghost predicate Pruned(cfg: Config, w: World, w': World, cur: Cursors) {
    && Inv(cfg, w') && w' == w.(local := w'.local, tape := w'.tape)
    && Within(w'.local, w.local) && NewestStays(w.local, w'.local)
    && (forall slave, v {:trigger Get(cur, slave, v)} | slave in cfg.slaves && v in cfg.subvolumes
       && Get(cur, slave, v).Some? ::
          AnchorOutlives(cfg, w, w', v, Get(cur, slave, v).value))
  }

  predicate AnchorOutlives(cfg: Config, w: World, w': World, subvol: string, c: Cursor) {
    Anchored(w.local, subvol, c) && Young(cfg, w.tape, c.name.time) ==> Anchored(w'.local, subvol, c)
  }

  /** The cursor names a local snapshot of the subvolume. */
  predicate Anchored(local: Dir, subvol: string, c: Cursor) {
    c.name.subvol == subvol && c.name in local && local[c.name].SendUuid() == c.uuid
  }

  lemma AnchorIsFound(local: Dir, nextId: Uuid, subvol: string, cur: Cursors, slave: string)
    requires LocalOk(local, nextId) && Get(cur, slave, subvol).Some?
             && Anchored(local, subvol, Get(cur, slave, subvol).value)
    ensures var a := Anchor(Listing(local, subvol), cur, slave, subvol);
            a.Some? && a.value.name == Get(cur, slave, subvol).value.name
  {
    var c := Get(cur, slave, subvol).value;
    var s := Snapshot(c.name, local[c.name]);
    assert s in Listing(local, subvol);
    FindBySendUuid(c, Listing(local, subvol));
  }

  lemma SweepLocalSafe(local: Dir, t: Tape, subvol: string, doomed: seq<Snapshot>)
    requires var list := Listing(local, subvol); forall x | x in doomed :: x in list && x != list[|list| - 1]
    ensures var d := Sweep(local, t, doomed).0;
            && Within(d, local) && NewestStays(local, d)
            && forall v {:trigger SameOn(local, d, v)} | v != subvol :: SameOn(local, d, v)
  {
    var d := Sweep(local, t, doomed).0;
    SweepRemovesOnly(local, t, doomed);
    OthersStay(local, d, subvol, doomed);
    forall n | n in local ensures Outlived(d, n) {
      if n.subvol == subvol {
        LastStays(local, d, subvol, doomed, n);
      } else {
        assert n in d && n.subvol == n.subvol && n.time <= n.time;
      }
    }
  }

  lemma OthersStay(local: Dir, d: Dir, subvol: string, doomed: seq<Snapshot>)
    requires Within(d, local) && forall n | n in local && (forall x | x in doomed :: x.name != n) :: n in d
    requires forall x | x in doomed :: x in Listing(local, subvol)
    ensures forall n | n in local && n.subvol != subvol :: n in d
    ensures forall v {:trigger SameOn(local, d, v)} | v != subvol :: SameOn(local, d, v)
  {
    assert forall x | x in doomed :: x.name.subvol == subvol;
  }

  lemma LastStays(local: Dir, d: Dir, subvol: string, doomed: seq<Snapshot>, n: Name)
    requires n in local && n.subvol == subvol
    requires forall m | m in local && (forall x | x in doomed :: x.name != m) :: m in d
    requires var list := Listing(local, subvol); forall x | x in doomed :: x in list && x != list[|list| - 1]
    ensures Outlived(d, n)
  {
    var list := Listing(local, subvol);
    var s := Snapshot(n, local[n]);
    assert s in list;
    var i :| 0 <= i < |list| && list[i] == s;
    var m := list[|list| - 1];
    assert m in list && s.name.time <= m.name.time;
    forall x | x in doomed ensures x.name != m.name {
      assert x in list && x != m;
    }
  }

  lemma PruneLocalSafe(cfg: Config, w: World, subvol: string, cur: Cursors)
    requires Inv(cfg, w)
    ensures var w' := PruneLocal(cfg, w, subvol, Listing(w.local, subvol), cur);
            Pruned(cfg, w, w', cur) && forall v | v != subvol :: SameOn(w.local, w'.local, v)
  {
    var (e, t) := Next(w.tape);
    var list := Listing(w.local, subvol);
    var age := Age(cfg.maxAnchorAge, e.now);
    var doomed := LocalPrune(list, cfg.keepSender, subvol, cfg.slaves, cur, age).delete;
    LocalPruneExact(list, cfg.keepSender, subvol, cfg.slaves, cur, age);
    forall x | x in doomed ensures x in list && x != list[|list| - 1] {
      var i :| 0 <= i < |list| && list[i] == x;
      assert i < Past(|list|, cfg.keepSender) < |list|;
    }
    SweepLocalSafe(w.local, t, subvol, doomed);
    var (d, t') := Sweep(w.local, t, doomed);
    LocalDeleteKeepsInv(cfg, w, d, t');
    forall slave, v | slave in cfg.slaves && v in cfg.subvolumes && Get(cur, slave, v).Some?
      ensures AnchorOutlives(cfg, w, w.(local := d, tape := t'), v, Get(cur, slave, v).value)
    {
      if v == subvol {
        AnchorSpared(cfg, w, v, cur, slave);
      } else {
        assert SameOn(w.local, d, v);
      }
    }
  }

  lemma AnchorSpared(cfg: Config, w: World, subvol: string, cur: Cursors, slave: string)
    requires Inv(cfg, w) && slave in cfg.slaves && Get(cur, slave, subvol).Some?
    ensures AnchorOutlives(cfg, w, PruneLocal(cfg, w, subvol, Listing(w.local, subvol), cur), subvol,
            Get(cur, slave, subvol).value)
  {
    var list, c := Listing(w.local, subvol), Get(cur, slave, subvol).value;
    var (e, t) := Next(w.tape);
    var doomed := Doomed(cfg, w.tape, subvol, list, cur);
    if Anchored(w.local, subvol, c) && Young(cfg, w.tape, c.name.time) {
      if w.tape.script == [] {
        SweepStill(w.local, t, doomed);
      } else {
        NextFollows(w.tape);
        AnchorIsFound(w.local, w.nextId, subvol, cur, slave);
        AnchorDeletedOnlyIfExpired(list, cfg.keepSender, subvol, cfg.slaves, cur, Age(cfg.maxAnchorAge, e.now), slave);
        LocalPruneExact(list, cfg.keepSender, subvol, cfg.slaves, cur, Age(cfg.maxAnchorAge, e.now));
        var a := Anchor(list, cur, slave, subvol).value;
        assert forall x | x in doomed :: x in list && x != a;
        assert forall x | x in doomed :: x.name != a.name;
        SweepRemovesOnly(w.local, t, doomed);
      }
    }
  }

  lemma {:induction false} PruneLocalsSafe(cfg: Config, w: World, subvols: seq<string>, infos: Dir, cur: Cursors)
    requires Inv(cfg, w) && Distinct(subvols)
    requires forall v | v in subvols :: SameOn(infos, w.local, v)
    ensures Pruned(cfg, w, PruneLocals(cfg, w, subvols, infos, cur), cur)
    decreases |subvols|
  {
    if subvols == [] {
      GrownNewestStays(w.local, w.local);
    } else {
      var v, rest := subvols[0], subvols[1..];
      DistinctTail(subvols);
      ListingSameOn(infos, w.local, v);
      PruneLocalSafe(cfg, w, v, cur);
      var w1 := PruneLocal(cfg, w, v, Listing(w.local, v), cur);
      forall u | u in rest ensures SameOn(infos, w1.local, u) {
        assert SameOn(infos, w.local, u) && SameOn(w.local, w1.local, u);
      }
      PruneLocalsSafe(cfg, w1, rest, infos, cur);
      PruneFollows(cfg, w, v, Listing(w.local, v), cur);
      PrunedJoin(cfg, w, w1, PruneLocals(cfg, w1, rest, infos, cur), cur);
    }
  }

  lemma PrunedJoin(cfg: Config, w: World, w1: World, w2: World, cur: Cursors)
    requires Pruned(cfg, w, w1, cur) && Pruned(cfg, w1, w2, cur) && Follows(w.tape, w1.tape)
    ensures Pruned(cfg, w, w2, cur)
  {
    NewestStaysTransitive(w.local, w1.local, w2.local);
    forall slave, v | slave in cfg.slaves && v in cfg.subvolumes && Get(cur, slave, v).Some?
      ensures AnchorOutlives(cfg, w, w2, v, Get(cur, slave, v).value)
    {
      var c := Get(cur, slave, v).value;
      assert AnchorOutlives(cfg, w, w1, v, c) && AnchorOutlives(cfg, w1, w2, v, c);
      if Young(cfg, w.tape, c.name.time) {
        YoungFollows(cfg, w.tape, w1.tape, c.name.time, c.name.time);
      }
    }
  }

  /* ---- one cycle ---- */

  lemma FinishSafe(cfg: Config, x: Session)
    requires Inv(cfg, x.w) && ValidConfig(cfg) && !x.w.log.saved
    ensures var w' := Finish(cfg, x, x.w.local).0;
            && Inv(cfg, w') && w'.remote == x.w.remote && NewestStays(x.w.local, w'.local)
            && w'.log == x.w.log.(saved := w'.log.saved)
            && w'.file == (if w'.log.saved then Saved(x.cur, cfg.slaves) else x.w.file)
            && (w'.local == x.w.local || (w'.log.saved && Pruned(cfg, x.w, w'.(file := x.w.file, log := x.w.log),
               x.cur)))
  {
    var (e, t) := Next(x.w.tape);
    var w := x.w.(tape := t);
    var w1 := if Takes(e.outcome) then w.(file := Saved(x.cur, cfg.slaves), log := w.log.(saved := true)) else w;
    GrownNewestStays(x.w.local, x.w.local);
    if e.outcome.Done? && w.log.loaded {
      PruneLocalsSafe(cfg, w1, cfg.subvolumes, x.w.local, x.cur);
      NextFollows(x.w.tape);
      PrunedEarlier(cfg, x, w1, PruneLocals(cfg, w1, cfg.subvolumes, x.w.local, x.cur));
    }
  }

  /** The prune seen from before the save: the tape was longer, the file and the log were others. */
  lemma PrunedEarlier(cfg: Config, x: Session, w1: World, w2: World)
    requires Inv(cfg, x.w) && w1 == x.w.(tape := w1.tape, file := w1.file, log := w1.log) && Follows(x.w.tape, w1.tape)
    requires Pruned(cfg, w1, w2, x.cur)
    ensures Pruned(cfg, x.w, w2.(file := x.w.file, log := x.w.log), x.cur)
  {
    var w' := w2.(file := x.w.file, log := x.w.log);
    forall slave, v | slave in cfg.slaves && v in cfg.subvolumes && Get(x.cur, slave, v).Some?
      ensures AnchorOutlives(cfg, x.w, w', v, Get(x.cur, slave, v).value)
    {
      var c := Get(x.cur, slave, v).value;
      assert AnchorOutlives(cfg, w1, w2, v, c);
      if Young(cfg, x.w.tape, c.name.time) {
        YoungFollows(cfg, x.w.tape, w1.tape, c.name.time, c.name.time);
      }
    }
  }

  /** The session when the cycle comes to its first slave, and when it has done the last. */
  function BeforeSlaves(cfg: Config, w: World): Session {
    Start(cfg, w).0
  }

  function AfterSlaves(cfg: Config, w: World): Session
    requires Connected(cfg, w)
  {
    var x := BeforeSlaves(cfg, w);
    ReplicateSlaves(cfg, x, cfg.slaves, x.w.local)
  }

  predicate Stops(cfg: Config, w: World) {
    cfg.slaves == [] || !Start(cfg, w).1
  }

  lemma StoppedCycle(cfg: Config, w: World)
    requires Inv(cfg, w) && Stops(cfg, w)
    ensures var w' := Cycle(cfg, w).0;
            Inv(cfg, w') && w'.remote == w.remote && w'.file == w.file && Within(w.local, w'.local)
                && w'.log.reached == {} && !w'.log.saved
  {
    StartSafe(cfg, w);
  }

  lemma FullCycle(cfg: Config, w: World)
    requires Inv(cfg, w) && ValidConfig(cfg) && !Stops(cfg, w)
    ensures var x, y, w' := BeforeSlaves(cfg, w), AfterSlaves(cfg, w), Cycle(cfg, w).0;
            && Inv(cfg, x.w) && Grown(w, x.w) && x.w.log.reached == {}
               && x.cur == (if x.w.log.loaded then w.file else map[])
            && SlavesDone(cfg, x, y, cfg.slaves)
            && Inv(cfg, w') && w'.remote == y.w.remote && NewestStays(y.w.local, w'.local)
            && w'.log.loaded == x.w.log.loaded && w'.log.reached == y.w.log.reached
            && w'.file == (if w'.log.saved then Saved(y.cur, cfg.slaves) else w.file)
            && (w'.local == y.w.local || (w'.log.saved && Pruned(cfg, y.w, w'.(file := y.w.file, log := y.w.log),
               y.cur)))
  {
    StartSafe(cfg, w);
    var x := BeforeSlaves(cfg, w);
    ReplicateSlavesSafe(cfg, x, cfg.slaves);
    FinishSafe(cfg, AfterSlaves(cfg, w));
  }

  /**
    Every cycle, wherever it stops and whatever fails, keeps the invariant, retains the newest
    max(keep_receiver, 1) complete copies on every slave and never loses the newest local snapshot.
   */
  lemma CycleSafe(cfg: Config, w: World)
    requires Inv(cfg, w) && ValidConfig(cfg)
    ensures var w' := Cycle(cfg, w).0;
            && Inv(cfg, w') && NewestStays(w.local, w'.local)
            && forall s | s in w.remote :: Retains(AtLeastOne(cfg.keepReceiver), w.remote[s], w'.remote[s])
  {
    var w' := Cycle(cfg, w).0;
    if Stops(cfg, w) {
      StoppedCycle(cfg, w);
      GrownNewestStays(w.local, w'.local);
      forall s | s in w.remote ensures Retains(AtLeastOne(cfg.keepReceiver), w.remote[s], w'.remote[s]) {
        GrownRetains(AtLeastOne(cfg.keepReceiver), w.remote[s], w.remote[s]);
      }
    } else {
      FullCycle(cfg, w);
      GrownNewestStays(w.local, BeforeSlaves(cfg, w).w.local);
      NewestStaysTransitive(w.local, AfterSlaves(cfg, w).w.local, w'.local);
    }
  }

  lemma GrownRetains(k: nat, d: Dir, d': Dir)
    requires Within(d, d')
    ensures Retains(k, d, d')
  {
  }

  /* ---- cursors across a cycle ---- */

  predicate HasAnchor(w: World, slave: string, subvol: string) {
    && slave in w.remote && Get(w.file, slave, subvol).Some?
    && Backed(w.local, w.remote[slave], subvol, Get(w.file, slave, subvol).value)
  }

  /** No event of these scripts is late enough for a snapshot of this time to be over the age limit, if there is one. */
  predicate YoungThroughout(cfg: Config, scripts: seq<seq<Event>>, time: int) {
    forall script | script in scripts :: Young(cfg, Tape(script, false), time)
  }

  /** There is a cursor on disk, and none of these scripts puts it over the age limit. */
  predicate HasYoung(cfg: Config, w: World, scripts: seq<seq<Event>>, slave: string, subvol: string) {
    && slave in cfg.slaves && subvol in cfg.subvolumes && Get(w.file, slave, subvol).Some?
    && YoungThroughout(cfg, scripts, Get(w.file, slave, subvol).value.name.time)
  }

  /** Every such cursor names a snapshot that is on both sides. */
  ghost predicate CursorsBacked(cfg: Config, w: World, scripts: seq<seq<Event>>) {
    forall slave, v {:trigger HasAnchor(w, slave, v)} | HasYoung(cfg, w, scripts, slave, v) :: HasAnchor(w, slave, v)
  }

  /** The cursor on disk names a local snapshot, and the slave retains its copy. */
  predicate HasRank(cfg: Config, w: World, slave: string, subvol: string) {
    && slave in w.remote && Get(w.file, slave, subvol).Some?
    && var c := Get(w.file, slave, subvol).value;
       Anchored(w.local, subvol, c) && Kept(AtLeastOne(cfg.keepReceiver), w.remote[slave], c.name, c.uuid)
  }

  ghost predicate CursorsRanked(cfg: Config, w: World, scripts: seq<seq<Event>>) {
    forall slave, v {:trigger HasRank(cfg, w, slave, v)} | HasYoung(cfg, w, scripts, slave, v) ::
      HasRank(cfg, w, slave, v)
  }

  /** The local side of a cursor in memory outlasts the end of the cycle while it is not over age. */
  lemma AnchoredThroughFinish(cfg: Config, w: World, slave: string, subvol: string, c: Cursor)
    requires Inv(cfg, w) && ValidConfig(cfg) && !Stops(cfg, w) && Young(cfg, w.tape, c.name.time)
    requires slave in cfg.slaves && subvol in cfg.subvolumes
    requires Get(AfterSlaves(cfg, w).cur, slave, subvol) == Some(c) && Anchored(AfterSlaves(cfg, w).w.local, subvol, c)
    ensures Anchored(Cycle(cfg, w).0.local, subvol, c)
  {
    FullCycle(cfg, w);
    StartFollows(cfg, w);
    SlavesFollow(cfg, BeforeSlaves(cfg, w), cfg.slaves, BeforeSlaves(cfg, w).w.local);
    var y := AfterSlaves(cfg, w);
    YoungFollows(cfg, w.tape, y.w.tape, c.name.time, c.name.time);
    assert AnchorOutlives(cfg, y.w, Cycle(cfg, w).0, subvol, c);
  }

  /** A slave that was reached ends the phase with a backed cursor, if it had a backed one or kept one. */
  lemma ReachedCursor(cfg: Config, w: World, slave: string, subvol: string)
    requires Inv(cfg, w) && ValidConfig(cfg) && !Stops(cfg, w)
    requires slave in cfg.slaves && subvol in cfg.subvolumes && slave in AfterSlaves(cfg, w).w.log.reached
    ensures var x, y := BeforeSlaves(cfg, w), AfterSlaves(cfg, w);
            var c := Get(y.cur, slave, subvol);
            && (Listing(x.w.local, subvol) == [] ==> c == Get(x.cur, slave, subvol))
            && (Listing(x.w.local, subvol) != [] && c.Some? ==> Backed(y.w.local, y.w.remote[slave], subvol, c.value))
            && (HasAnchor(w, slave, subvol) ==>
                  c.Some? && Backed(y.w.local, y.w.remote[slave], subvol, c.value)
                  && Get(w.file, slave, subvol).value.name.time <= c.value.name.time)
  {
    FullCycle(cfg, w);
    var x, y := BeforeSlaves(cfg, w), AfterSlaves(cfg, w);
    assert Reached(cfg, x, y, slave);
    assert CursorAfter(x.cur, y.cur, slave, subvol, x.w.local, x.w.remote[slave], y.w.remote[slave]);
    if HasAnchor(w, slave, subvol) {
      ParentIsCommon(cfg, x.w, slave, subvol);
      var c := Get(w.file, slave, subvol).value;
      assert c.name in x.w.local && x.w.local[c.name] == w.local[c.name];
      assert Snapshot(c.name, x.w.local[c.name]) in Listing(x.w.local, subvol);
    }
  }
}
