/** The theorems about cursors, parents and promotable snapshots, over single cycles and over runs. */
module Theorems {
  import opened Wrappers
  import opened Snapshots
  import opened CursorTable
  import opened Plan
  import opened Protocol
  import opened Safety
  import opened Cycles
  import opened Runs

  /* ---- one cycle, one cursor ---- */

  /** What the file holds for (slave, subvol) after a cycle that got to its slaves. */
  lemma CursorInFile(cfg: Config, w: World, slave: string, subvol: string)
    requires Inv(cfg, w) && ValidConfig(cfg) && !Stops(cfg, w) && slave in cfg.slaves
    ensures var w' := Cycle(cfg, w).0;
            Get(w'.file, slave, subvol) == if w'.log.saved then Get(AfterSlaves(cfg, w).cur, slave, subvol)
                else Get(w.file, slave, subvol)
  {
    FullCycle(cfg, w);
    SavedKeepsConfigured(AfterSlaves(cfg, w).cur, cfg.slaves, slave, subvol);
  }

  /** A slave that was not reached: its copies and its cursor in memory are as they were. */
  lemma MissedSlave(cfg: Config, w: World, slave: string, subvol: string)
    requires Inv(cfg, w) && ValidConfig(cfg) && !Stops(cfg, w) && slave in cfg.slaves
    requires slave !in Cycle(cfg, w).0.log.reached
    ensures var y := AfterSlaves(cfg, w);
            && Get(y.cur, slave, subvol) == (if Cycle(cfg, w).0.log.loaded then Get(w.file, slave, subvol) else None)
            && slave in w.remote && Cycle(cfg, w).0.remote[slave] == w.remote[slave]
            && Within(w.local, y.w.local)
  {
    FullCycle(cfg, w);
    assert Untouched(BeforeSlaves(cfg, w), AfterSlaves(cfg, w), slave);
  }

  /**
    After a cycle that saved its cursors, a slave whose cursor was backed on both sides has a backed
    cursor again, unless the cursor file was unreadable and the slave was not reached: then it has
    none. The cursor never goes back in time. All this as long as the cursor is not over the age limit.
   */
  lemma AnchorKeptExactly(cfg: Config, w: World, slave: string, subvol: string)
    requires Inv(cfg, w) && ValidConfig(cfg)
    requires slave in cfg.slaves && subvol in cfg.subvolumes && HasAnchor(w, slave, subvol)
    requires Young(cfg, w.tape, Get(w.file, slave, subvol).value.name.time)
    ensures var w' := Cycle(cfg, w).0;
            && (w'.log.saved ==> (HasAnchor(w', slave, subvol) <==> w'.log.loaded || slave in w'.log.reached))
            && (w'.log.saved && !HasAnchor(w', slave, subvol) ==> Get(w'.file, slave, subvol).None?)
            && (!w'.log.saved && slave !in w'.log.reached ==>
                HasAnchor(w', slave, subvol) && Get(w'.file, slave, subvol) == Get(w.file, slave, subvol))
            && (HasAnchor(w', slave, subvol) ==>
                  Get(w.file, slave, subvol).value.name.time <= Get(w'.file, slave, subvol).value.name.time)
  {
    var w' := Cycle(cfg, w).0;
    var c := Get(w.file, slave, subvol).value;
    if Stops(cfg, w) {
      StoppedCycle(cfg, w);
    } else {
      FullCycle(cfg, w);
      CursorInFile(cfg, w, slave, subvol);
      var y := AfterSlaves(cfg, w);
      if slave in w'.log.reached {
        ReachedCursor(cfg, w, slave, subvol);
        var c' := Get(y.cur, slave, subvol).value;
        YoungFollows(cfg, w.tape, w.tape, c.name.time, c'.name.time);
        AnchoredThroughFinish(cfg, w, slave, subvol, c');
      } else {
        MissedSlave(cfg, w, slave, subvol);
        if w'.log.loaded {
          assert Anchored(y.w.local, subvol, c);
          AnchoredThroughFinish(cfg, w, slave, subvol, c);
        }
      }
    }
  }

  /**
    Anchor invariant: a cycle that saves leaves no cursor on disk that is not backed on both sides. As in the
    rest, this is about the cursors that no script of `all` puts over the age limit.
   */
  lemma CursorsBackedAfterCycle(cfg: Config, w: World, all: seq<seq<Event>>)
    requires Inv(cfg, w) && ValidConfig(cfg) && CursorsBacked(cfg, w, all) && w.tape.script in all
    requires Cycle(cfg, w).0.log.saved
    ensures CursorsBacked(cfg, Cycle(cfg, w).0, all)
  {
    var w' := Cycle(cfg, w).0;
    if Stops(cfg, w) {
      StoppedCycle(cfg, w);
    }
    forall slave, v | HasYoung(cfg, w', all, slave, v) ensures HasAnchor(w', slave, v) {
      YoungNow(cfg, w, w', all, slave, v);
      BackedAfterCycle(cfg, w, slave, v);
    }
  }

  lemma YoungNow(cfg: Config, w: World, w': World, all: seq<seq<Event>>, slave: string, v: string)
    requires HasYoung(cfg, w', all, slave, v) && w.tape.script in all
    ensures Young(cfg, w.tape, Get(w'.file, slave, v).value.name.time)
  {
    assert Young(cfg, Tape(w.tape.script, false), Get(w'.file, slave, v).value.name.time);
  }

  lemma BackedAfterCycle(cfg: Config, w: World, slave: string, v: string)
    requires Inv(cfg, w) && ValidConfig(cfg) && !Stops(cfg, w) && Cycle(cfg, w).0.log.saved
    requires slave in cfg.slaves && v in cfg.subvolumes && Get(Cycle(cfg, w).0.file, slave, v).Some?
    requires var c := Get(Cycle(cfg, w).0.file, slave, v);
             Young(cfg, w.tape, c.value.name.time) && (Get(w.file, slave, v) == c ==> HasAnchor(w, slave, v))
    ensures HasAnchor(Cycle(cfg, w).0, slave, v)
  {
    var w' := Cycle(cfg, w).0;
    FullCycle(cfg, w);
    CursorInFile(cfg, w, slave, v);
    var x, c := BeforeSlaves(cfg, w), Get(w'.file, slave, v).value;
    if slave in w'.log.reached {
      ReachedCursor(cfg, w, slave, v);
      if Listing(x.w.local, v) == [] {
        assert HasAnchor(w, slave, v);
        assert Snapshot(c.name, x.w.local[c.name]) in Listing(x.w.local, v);
      }
    } else {
      MissedSlave(cfg, w, slave, v);
    }
    AnchoredThroughFinish(cfg, w, slave, v, c);
  }

  /**
    Stale-cursor bound, with no premise about what was read, saved or reached: the snapshot that a
    cursor on disk names stays local, and its copy stays on the slave until max(keep_receiver, 1)
    newer complete copies are there.
   */
  lemma CursorsRankedAfterCycle(cfg: Config, w: World, all: seq<seq<Event>>)
    requires Inv(cfg, w) && ValidConfig(cfg) && CursorsRanked(cfg, w, all) && w.tape.script in all
    ensures CursorsRanked(cfg, Cycle(cfg, w).0, all)
  {
    var w' := Cycle(cfg, w).0;
    forall slave, v | HasYoung(cfg, w', all, slave, v) ensures HasRank(cfg, w', slave, v) {
      YoungNow(cfg, w, w', all, slave, v);
      RankAfterCycle(cfg, w, slave, v);
    }
  }

  lemma RankAfterCycle(cfg: Config, w: World, slave: string, v: string)
    requires Inv(cfg, w) && ValidConfig(cfg)
    requires slave in cfg.slaves && v in cfg.subvolumes && Get(Cycle(cfg, w).0.file, slave, v).Some?
    requires var c := Get(Cycle(cfg, w).0.file, slave, v);
             Young(cfg, w.tape, c.value.name.time) && (Get(w.file, slave, v) == c ==> HasRank(cfg, w, slave, v))
    ensures HasRank(cfg, Cycle(cfg, w).0, slave, v)
  {
    var w' := Cycle(cfg, w).0;
    var k := AtLeastOne(cfg.keepReceiver);
    var c := Get(w'.file, slave, v).value;
    CycleSafe(cfg, w);
    assert Retains(k, w.remote[slave], w'.remote[slave]);
    if Get(w.file, slave, v) == Some(c) {
      KeptThrough(k, w.remote[slave], w'.remote[slave], c.name, c.uuid);
    }
    if Stops(cfg, w) {
      StoppedCycle(cfg, w);
    } else {
      FullCycle(cfg, w);
      CursorInFile(cfg, w, slave, v);
      var x := BeforeSlaves(cfg, w);
      if !w'.log.saved {
        LocalStaysUnsaved(cfg, w);
      } else {
        if slave in w'.log.reached {
          ReachedCursor(cfg, w, slave, v);
          if Listing(x.w.local, v) == [] {
            assert HasRank(cfg, w, slave, v);
            assert Snapshot(c.name, x.w.local[c.name]) in Listing(x.w.local, v);
          }
        } else {
          MissedSlave(cfg, w, slave, v);
        }
        AnchoredThroughFinish(cfg, w, slave, v, c);
      }
    }
  }

  /** Nothing is pruned locally in a cycle that did not save. */
  lemma LocalStaysUnsaved(cfg: Config, w: World)
    requires Inv(cfg, w) && ValidConfig(cfg) && !Stops(cfg, w) && !Cycle(cfg, w).0.log.saved
    ensures Within(w.local, Cycle(cfg, w).0.local)
  {
    FullCycle(cfg, w);
  }

  /* ---- runs ---- */

  /** Safety of every run: no script can break the invariant, the retention law or the newest snapshot. */
  lemma {:induction false} RunSafe(cfg: Config, w: World, scripts: seq<seq<Event>>)
    requires Inv(cfg, w) && ValidConfig(cfg)
    ensures var w' := Run(cfg, w, scripts);
            && Inv(cfg, w') && NewestStays(w.local, w'.local)
            && forall s | s in w.remote :: Retains(AtLeastOne(cfg.keepReceiver), w.remote[s], w'.remote[s])
  {
    var k := AtLeastOne(cfg.keepReceiver);
    if scripts == [] {
      GrownNewestStays(w.local, w.local);
      forall s | s in w.remote ensures Retains(k, w.remote[s], w.remote[s]) {
        GrownRetains(k, w.remote[s], w.remote[s]);
      }
    } else {
      var w1 := Run(cfg, w, scripts[..|scripts| - 1]);
      RunSafe(cfg, w, scripts[..|scripts| - 1]);
      var w2 := Loaded(w1, scripts[|scripts| - 1]);
      LoadedInv(cfg, w1, scripts[|scripts| - 1]);
      CycleSafe(cfg, w2);
      var w' := Cycle(cfg, w2).0;
      NewestStaysTransitive(w.local, w1.local, w'.local);
      forall s | s in w.remote ensures Retains(k, w.remote[s], w'.remote[s]) {
        assert Retains(k, w1.remote[s], w'.remote[s]);
        RetainsTransitive(k, w.remote[s], w1.remote[s], w'.remote[s]);
      }
    }
  }

  function Loaded(w: World, script: seq<Event>): World {
    w.(tape := Tape(script, false))
  }

  lemma LoadedInv(cfg: Config, w: World, script: seq<Event>)
    requires Inv(cfg, w)
    ensures Inv(cfg, Loaded(w, script))
  {
    var w' := Loaded(w, script);
    forall s | s in w'.remote ensures RemoteOk(cfg, w'.local, w'.remote[s], w'.nextId) {
      assert RemoteOk(cfg, w.local, w.remote[s], w.nextId);
    }
  }

  /** The stale-cursor bound holds throughout every run, with crashes and failed saves anywhere. */
  lemma StaleCursorBound(cfg: Config, w: World, scripts: seq<seq<Event>>)
    requires Inv(cfg, w) && ValidConfig(cfg) && CursorsRanked(cfg, w, scripts)
    ensures CursorsRanked(cfg, Run(cfg, w, scripts), scripts)
  {
    RankedSoFar(cfg, w, scripts, scripts);
  }

  /** The cursors that stay young in the whole run are ranked after every part of it. */
  lemma {:induction false} RankedSoFar(cfg: Config, w: World, scripts: seq<seq<Event>>, all: seq<seq<Event>>)
    requires Inv(cfg, w) && ValidConfig(cfg) && CursorsRanked(cfg, w, all)
    requires forall script | script in scripts :: script in all
    ensures CursorsRanked(cfg, Run(cfg, w, scripts), all)
  {
    if scripts != [] {
      var before := scripts[..|scripts| - 1];
      var w1, script := Run(cfg, w, before), scripts[|scripts| - 1];
      RankedSoFar(cfg, w, before, all);
      RunSafe(cfg, w, before);
      LoadedInv(cfg, w1, script);
      forall slave, v | HasYoung(cfg, Loaded(w1, script), all, slave, v)
        ensures HasRank(cfg, Loaded(w1, script), slave, v)
      {
        assert HasYoung(cfg, w1, all, slave, v) && HasRank(cfg, w1, slave, v);
      }
      CursorsRankedAfterCycle(cfg, Loaded(w1, script), all);
    }
  }

  /** What one asks of every cycle of a run. */
  datatype Demand = Backing | Keeping(slave: string)

  /**
    Backing: the cycle saved the cursors, or it reached no slave. Keeping: if it saved, it had read the file or
    reached the slave; if it did not, it had not reached the slave. A slave that is away is kept by every
    cycle but one that saves over a file it could not read.
   */
  predicate Met(demand: Demand, log: Log) {
    match demand
    case Backing => log.saved || log.reached == {}
    case Keeping(slave) => if log.saved then log.loaded || slave in log.reached else slave !in log.reached
  }

  predicate Throughout(cfg: Config, w: World, scripts: seq<seq<Event>>, demand: Demand)
    requires Connected(cfg, w)
  {
    scripts == [] || (Throughout(cfg, w, scripts[..|scripts| - 1], demand) && Met(demand, Run(cfg, w, scripts).log))
  }

  /** A cycle that saved nothing and reached no slave leaves every cursor backed. */
  lemma NothingReached(cfg: Config, w: World, all: seq<seq<Event>>)
    requires Inv(cfg, w) && ValidConfig(cfg) && CursorsBacked(cfg, w, all) && w.tape.script in all
    requires !Cycle(cfg, w).0.log.saved && Cycle(cfg, w).0.log.reached == {}
    ensures CursorsBacked(cfg, Cycle(cfg, w).0, all)
  {
    var w' := Cycle(cfg, w).0;
    forall slave, v {:trigger HasAnchor(w', slave, v)} | HasYoung(cfg, w', all, slave, v)
      ensures HasAnchor(w', slave, v)
    {
      FileUnsaved(cfg, w);
      YoungNow(cfg, w, w', all, slave, v);
      assert HasYoung(cfg, w, all, slave, v) && HasAnchor(w, slave, v);
      AnchorKeptExactly(cfg, w, slave, v);
    }
  }

  lemma FileUnsaved(cfg: Config, w: World)
    requires Inv(cfg, w) && ValidConfig(cfg) && !Cycle(cfg, w).0.log.saved
    ensures Cycle(cfg, w).0.file == w.file
  {
    if Stops(cfg, w) {
      StoppedCycle(cfg, w);
    } else {
      FullCycle(cfg, w);
    }
  }

  /** Anchor invariant over runs: while every cycle that reaches a slave saves, every cursor on disk is backed. */
  lemma AnchorInvariant(cfg: Config, w: World, scripts: seq<seq<Event>>)
    requires Inv(cfg, w) && ValidConfig(cfg) && CursorsBacked(cfg, w, scripts)
    requires Throughout(cfg, w, scripts, Backing)
    ensures CursorsBacked(cfg, Run(cfg, w, scripts), scripts)
  {
    BackedSoFar(cfg, w, scripts, scripts);
  }

  lemma {:induction false} BackedSoFar(cfg: Config, w: World, scripts: seq<seq<Event>>, all: seq<seq<Event>>)
    requires Inv(cfg, w) && ValidConfig(cfg) && CursorsBacked(cfg, w, all)
    requires Throughout(cfg, w, scripts, Backing) && forall script | script in scripts :: script in all
    ensures CursorsBacked(cfg, Run(cfg, w, scripts), all)
  {
    if scripts != [] {
      var before := scripts[..|scripts| - 1];
      var w1, script := Run(cfg, w, before), scripts[|scripts| - 1];
      BackedSoFar(cfg, w, before, all);
      RunSafe(cfg, w, before);
      LoadedInv(cfg, w1, script);
      LoadedBacked(cfg, w1, script, all);
      if Cycle(cfg, Loaded(w1, script)).0.log.saved {
        CursorsBackedAfterCycle(cfg, Loaded(w1, script), all);
      } else {
        NothingReached(cfg, Loaded(w1, script), all);
      }
    }
  }

  lemma LoadedBacked(cfg: Config, w: World, script: seq<Event>, all: seq<seq<Event>>)
    requires CursorsBacked(cfg, w, all)
    ensures CursorsBacked(cfg, Loaded(w, script), all)
  {
    forall slave, v {:trigger HasAnchor(Loaded(w, script), slave, v)} | HasYoung(cfg, Loaded(w, script), all, slave, v)
      ensures HasAnchor(Loaded(w, script), slave, v)
    {
      assert HasYoung(cfg, w, all, slave, v) && HasAnchor(w, slave, v);
    }
  }

  /** Once there is an anchor there always is one, as long as every cycle keeps it and it is not over age. */
  lemma {:induction false} AnchorStays(cfg: Config, w: World, scripts: seq<seq<Event>>, slave: string, subvol: string)
    requires Inv(cfg, w) && ValidConfig(cfg)
    requires slave in cfg.slaves && subvol in cfg.subvolumes && HasAnchor(w, slave, subvol)
    requires Throughout(cfg, w, scripts, Keeping(slave))
    requires YoungThroughout(cfg, scripts, Get(w.file, slave, subvol).value.name.time)
    ensures var w' := Run(cfg, w, scripts);
            HasAnchor(w', slave, subvol) && Get(w.file, slave, subvol).value.name.time <= Get(w'.file, slave,
                subvol).value.name.time
  {
    if scripts != [] {
      var before := scripts[..|scripts| - 1];
      var w1, script := Run(cfg, w, before), scripts[|scripts| - 1];
      assert script in scripts && forall s | s in before :: s in scripts;
      AnchorStays(cfg, w, before, slave, subvol);
      RunSafe(cfg, w, before);
      LoadedInv(cfg, w1, script);
      assert HasAnchor(Loaded(w1, script), slave, subvol);
      var t := Tape(script, false);
      YoungFollows(cfg, t, t, Get(w.file, slave, subvol).value.name.time, Get(w1.file, slave, subvol).value.name.time);
      AnchorKeptExactly(cfg, Loaded(w1, script), slave, subvol);
    }
  }

  /**
    Offline catch-up: after any number of cycles that keep the anchor, as those do in which the slave could not
    be reached, the next cycle that gets to it has a parent at least as new as the cursor was before them
    all: the send is incremental.
   */
  lemma OfflineCatchUp(cfg: Config, w: World, scripts: seq<seq<Event>>, next: seq<Event>, slave: string, subvol: string)
    requires Inv(cfg, w) && ValidConfig(cfg)
    requires slave in cfg.slaves && subvol in cfg.subvolumes && HasAnchor(w, slave, subvol)
    requires Throughout(cfg, w, scripts, Keeping(slave))
    requires YoungThroughout(cfg, scripts, Get(w.file, slave, subvol).value.name.time)
    ensures var x := BeforeSlaves(cfg, Loaded(Run(cfg, w, scripts), next)).w;
            var parent := ParentOf(Listing(x.local, subvol), Listing(x.remote[slave], subvol));
            parent.Some? && Get(w.file, slave, subvol).value.name.time <= parent.value.name.time
  {
    AnchorStays(cfg, w, scripts, slave, subvol);
    RunSafe(cfg, w, scripts);
    var w1 := Run(cfg, w, scripts);
    LoadedInv(cfg, w1, next);
    StartSafe(cfg, Loaded(w1, next));
    var x := BeforeSlaves(cfg, Loaded(w1, next)).w;
    ParentIsCommon(cfg, x, slave, subvol);
    var c := Get(w1.file, slave, subvol).value;
    assert c.name in x.local && x.local[c.name] == w1.local[c.name];
  }

  /** What standalone would promote on a slave. */
  function Promotable(d: Dir, subvol: string): Option<Snapshot> {
    NewestOf(Listing(d, subvol), ReceivedOne)
  }

  lemma PromotableGrows(k: nat, d: Dir, d': Dir, subvol: string)
    requires k >= 1 && Retains(k, d, d') && Promotable(d, subvol).Some?
    ensures Promotable(d', subvol).Some? && Promotable(d, subvol).value.name.time <= Promotable(d',
            subvol).value.name.time
  {
    NewestOfIsNewest(Listing(d, subvol), ReceivedOne);
    NewestOfIsNewest(Listing(d', subvol), ReceivedOne);
    var n := Promotable(d, subvol).value.name;
    assert Kept(k, d', n, d[n].receivedUuid);
    var m := n;
    if !(n in d' && d'[n].Received()) {
      assert |Newer(d', n)| > 0;
      m :| m in Newer(d', n);
    }
    assert Snapshot(m, d'[m]) in Listing(d', subvol) && Meets(Snapshot(m, d'[m]), ReceivedOne);
  }

  /** The promotable snapshot is never lost: in every run its time never decreases. */
  lemma PromotableNeverLost(cfg: Config, w: World, scripts: seq<seq<Event>>, slave: string, subvol: string)
    requires Inv(cfg, w) && ValidConfig(cfg) && slave in w.remote && Promotable(w.remote[slave], subvol).Some?
    ensures var p, p' := Promotable(w.remote[slave], subvol), Promotable(Run(cfg, w, scripts).remote[slave], subvol);
            p'.Some? && p.value.name.time <= p'.value.name.time
  {
    RunSafe(cfg, w, scripts);
    PromotableGrows(AtLeastOne(cfg.keepReceiver), w.remote[slave], Run(cfg, w, scripts).remote[slave], subvol);
  }

  lemma LastOfListing(d: Dir, n: Name)
    requires n in d
    ensures var list := Listing(d, n.subvol); list != [] && n.time <= list[|list| - 1].name.time
  {
    var list := Listing(d, n.subvol);
    assert Snapshot(n, d[n]) in list;
    var i :| 0 <= i < |list| && list[i] == Snapshot(n, d[n]);
  }

  /** Time dominance: in every run no complete copy is newer than the newest local snapshot, whatever the clock does. */
  lemma TimeDominance(cfg: Config, w: World, scripts: seq<seq<Event>>, slave: string, n: Name)
    requires Inv(cfg, w) && ValidConfig(cfg) && slave in w.remote
    requires var d := Run(cfg, w, scripts).remote[slave]; n in d && d[n].Received() && n.subvol in cfg.subvolumes
    ensures var local := Listing(Run(cfg, w, scripts).local, n.subvol);
            local != [] && n.time <= local[|local| - 1].name.time
  {
    RunSafe(cfg, w, scripts);
    var w' := Run(cfg, w, scripts);
    var m := Dominator(cfg, w', slave, n);
    LastOfListing(w'.local, m);
  }

  /* ---- where runs begin ---- */

  /** Nothing anywhere: what the premises of the theorems above hold of to begin with. */
  function Blank(cfg: Config, tape: Tape): World {
    World(map[], map slave | slave in cfg.slaves :: map[], map[], 1, tape, Log(false, {}, false), [])
  }

  /** So every run of a fresh installation has the properties above. */
  lemma FreshInstallation(cfg: Config, tape: Tape, scripts: seq<seq<Event>>)
    requires ValidConfig(cfg)
    ensures var w := Run(cfg, Blank(cfg, tape), scripts);
            && Inv(cfg, w) && CursorsRanked(cfg, w, scripts)
            && (Throughout(cfg, Blank(cfg, tape), scripts, Backing) ==> CursorsBacked(cfg, w, scripts))
  {
    var w := Blank(cfg, tape);
    RunSafe(cfg, w, scripts);
    StaleCursorBound(cfg, w, scripts);
    if Throughout(cfg, w, scripts, Backing) {
      AnchorInvariant(cfg, w, scripts);
    }
  }
}
