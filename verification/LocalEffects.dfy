/**
  What a cycle leaves of the local snapshots, exactly: the newest keep_sender, the anchors that are not over
  age, and what could not be deleted.
 */
module LocalEffects {
  import opened Snapshots
  import opened CursorTable
  import opened Plan
  import opened Protocol
  import opened Safety
  import opened Cycles
  import opened LocalPruning
  import opened Runs
  import opened Tapes
  import opened Effects

  /** The cursor of a configured slave names `s`, and `s` is not over the age limit, if there is one. */
  predicate HeldFor(cfg: Config, cur: Cursors, subvol: string, s: Snapshot, now: int, slave: string) {
    && slave in cfg.slaves && Get(cur, slave, subvol).Some? && Get(cur, slave, subvol).value.uuid == s.copy.SendUuid()
    && !(cfg.maxAnchorAge > 0 && now - s.name.time > cfg.maxAnchorAge)
  }

  /** Snapshot `i` of the list is one of the newest max(keep_sender, 1), or held for a slave. */
  ghost predicate Spared(cfg: Config, cur: Cursors, subvol: string, list: seq<Snapshot>, i: nat, now: int)
    requires i < |list|
  {
    i + AtLeastOne(cfg.keepSender) >= |list| || exists slave :: HeldFor(cfg, cur, subvol, list[i], now, slave)
  }

  /** `gone` is what is not spared of the list, oldest first. */
  ghost predicate NotSpared(cfg: Config, cur: Cursors, subvol: string, list: seq<Snapshot>, now: int,
                            gone: seq<Snapshot>) {
    && Sorted(gone) && (forall x | x in gone :: x in list)
    && forall i | 0 <= i < |list| :: list[i] in gone <==> !Spared(cfg, cur, subvol, list, i, now)
  }

  lemma HolderExactly(cfg: Config, cur: Cursors, subvol: string, list: seq<Snapshot>, i: nat, age: Age)
    requires i < |list| && Sorted(list) && age.limit == cfg.maxAnchorAge
    requires forall x, y | x in list && y in list && x.copy.SendUuid() == y.copy.SendUuid() :: x == y
    ensures IsHeld(list[i].name, list, subvol, cfg.slaves, cur, age)
            <==> exists slave :: HeldFor(cfg, cur, subvol, list[i], age.now, slave)
  {
    var s := list[i];
    HoldersExact(cfg.slaves, s.name, false, list, cur, subvol, age);
    var h := Holders(cfg.slaves, s.name, false, list, cur, subvol, age);
    forall slave ensures slave in h <==> HeldFor(cfg, cur, subvol, s, age.now, slave) {
      if Get(cur, slave, subvol).Some? {
        FindBySendUuid(Get(cur, slave, subvol).value, list);
      }
    }
    assert h != [] ==> h[0] in h;
  }

  lemma ListIsFaithful(local: Dir, id: Uuid, subvol: string)
    requires LocalOk(local, id)
    ensures var list := Listing(local, subvol);
            forall x, y | x in list && y in list && x.copy.SendUuid() == y.copy.SendUuid() :: x == y
  {
  }

  lemma DoomedExactly(cfg: Config, w: World, subvol: string, cur: Cursors)
    requires LocalOk(w.local, w.nextId)
    ensures var list := Listing(w.local, subvol);
            NotSpared(cfg, cur, subvol, list, EventAt(w.tape, 0).now, Doomed(cfg, w.tape, subvol, list, cur))
  {
    var list, now := Listing(w.local, subvol), EventAt(w.tape, 0).now;
    var age := Age(cfg.maxAnchorAge, now);
    NextIsAfter(w.tape);
    ListIsFaithful(w.local, w.nextId, subvol);
    var past := list[..Past(|list|, cfg.keepSender)];
    DeleteExact(past, list, subvol, cfg.slaves, cur, age);
    forall i | 0 <= i < |list|
      ensures list[i] in Doomed(cfg, w.tape, subvol, list, cur) <==> !Spared(cfg, cur, subvol, list, i, now)
    {
      HolderExactly(cfg, cur, subvol, list, i, age);
      assert list[i] in past <==> i < |past|;
    }
  }

  /** What is not spared is deleted, oldest first, and stays exactly if its delete does not take effect. */
  lemma PruneLocalExactly(cfg: Config, w: World, subvol: string, cur: Cursors, gone: seq<Snapshot>)
    requires LocalOk(w.local, w.nextId)
    requires NotSpared(cfg, cur, subvol, Listing(w.local, subvol), EventAt(w.tape, 0).now, gone)
    ensures var w' := PruneLocal(cfg, w, subvol, Listing(w.local, subvol), cur);
            && w' == w.(local := w'.local, tape := After(w.tape, 1 + |gone|)) && Within(w'.local, w.local)
            && forall n :: n in w'.local <==> n in w.local && !Removed(w.tape, 1, gone, |gone|, n)
  {
    var list := Listing(w.local, subvol);
    var doomed := Doomed(cfg, w.tape, subvol, list, cur);
    DoomedExactly(cfg, w, subvol, cur);
    forall x ensures x in gone <==> x in doomed {
      if x in list {
        var i :| 0 <= i < |list| && list[i] == x;
      }
    }
    SortedUnique(gone, doomed);
    NextIsAfter(w.tape);
    SweepExactly(w.local, After(w.tape, 1), doomed);
    AfterAdds(w.tape, 1, |doomed|);
    forall n ensures Removed(After(w.tape, 1), 0, gone, |gone|, n) == Removed(w.tape, 1, gone, |gone|, n) {
      RemovedLater(w.tape, 1, gone, n);
    }
  }

  lemma RemovedLater(t: Tape, p: nat, doomed: seq<Snapshot>, n: Name)
    ensures Removed(After(t, p), 0, doomed, |doomed|, n) == Removed(t, p, doomed, |doomed|, n)
  {
    forall i | 0 <= i < |doomed| ensures EventAt(After(t, p), i) == EventAt(t, p + i) {
      AfterAdds(t, p, i);
    }
  }

  /* ---- the prune of a cycle ---- */

  /** The cycle came to its end, had read the cursor file, and was told that the save was done: then it prunes. */
  predicate Prunes(cfg: Config, w: World)
    requires Connected(cfg, w)
  {
    !Stops(cfg, w) && BeforeSlaves(cfg, w).w.log.loaded && DoneAt(AfterSlaves(cfg, w).w.tape, 0)
  }

  /** When the cycle comes to the prune of subvolume `j`. */
  function AtPrune(cfg: Config, w: World, j: nat): World
    requires Connected(cfg, w) && j <= |cfg.subvolumes|
  {
    var y := AfterSlaves(cfg, w);
    var saved := y.w.(tape := After(y.w.tape, 1), file := Saved(y.cur, cfg.slaves), log := y.w.log.(saved := true));
    PruneLocals(cfg, saved, cfg.subvolumes[..j], BeforeSlaves(cfg, w).w.local, y.cur)
  }

  /**
    The end of a cycle: the file is replaced exactly if the save takes effect. It is an error exactly if one
    was met before, the cursor file had not been read, or the save was not done. Without a prune the local
    snapshots are those that the cycle found.
   */
  lemma FinishExactly(cfg: Config, w: World)
    requires Inv(cfg, w) && ValidConfig(cfg) && !Stops(cfg, w)
    ensures var (w', failed) := Cycle(cfg, w);
            var x, y := BeforeSlaves(cfg, w), AfterSlaves(cfg, w);
            && (w'.log.saved <==> Takes(EventAt(y.w.tape, 0).outcome))
            && w'.file == (if w'.log.saved then Saved(y.cur, cfg.slaves) else w.file)
            && (failed <==> y.failed || !x.w.log.loaded || !DoneAt(y.w.tape, 0))
            && w'.remote == y.w.remote && w'.streams == y.w.streams
            && w'.local == if Prunes(cfg, w) then AtPrune(cfg, w, |cfg.subvolumes|).local else x.w.local
  {
    FullCycle(cfg, w);
    NextIsAfter(AfterSlaves(cfg, w).w.tape);
    assert cfg.subvolumes[..|cfg.subvolumes|] == cfg.subvolumes;
  }

  lemma {:induction false} PrunesLast(cfg: Config, w: World, subvols: seq<string>, infos: Dir, cur: Cursors)
    requires subvols != []
    ensures var n := |subvols| - 1;
            PruneLocals(cfg, w, subvols, infos, cur)
            == PruneLocal(cfg, PruneLocals(cfg, w, subvols[..n], infos, cur), subvols[n],
                          Listing(infos, subvols[n]), cur)
    decreases |subvols|
  {
    var n := |subvols| - 1;
    if n > 0 {
      assert subvols[..n][0] == subvols[0] && subvols[..n][1..] == subvols[1..][..n - 1];
      PrunesLast(cfg, PruneLocal(cfg, w, subvols[0], Listing(infos, subvols[0]), cur), subvols[1..], infos, cur);
    } else {
      assert subvols[1..] == [];
    }
  }

  /** One more prune: the other subvolumes stay as they are. */
  lemma PruneNext(cfg: Config, w: World, subvols: seq<string>, infos: Dir, cur: Cursors, k: nat)
    requires k < |subvols| && Inv(cfg, PruneLocals(cfg, w, subvols[..k], infos, cur))
    requires SameOn(infos, PruneLocals(cfg, w, subvols[..k], infos, cur).local, subvols[k])
    ensures var w1, w2 := PruneLocals(cfg, w, subvols[..k], infos, cur),
                PruneLocals(cfg, w, subvols[..k + 1], infos, cur);
            && Inv(cfg, w2) && w2.nextId == w1.nextId
            && forall u {:trigger SameOn(w1.local, w2.local, u)} | u != subvols[k] :: SameOn(w1.local, w2.local, u)
  {
    var w1, v := PruneLocals(cfg, w, subvols[..k], infos, cur), subvols[k];
    assert subvols[..k + 1][..k] == subvols[..k];
    PrunesLast(cfg, w, subvols[..k + 1], infos, cur);
    ListingSameOn(infos, w1.local, v);
    PruneLocalSafe(cfg, w1, v, cur);
  }

  lemma SameOnJoin(d: Dir, d1: Dir, d2: Dir, v: string)
    requires SameOn(d, d1, v) && SameOn(d1, d2, v)
    ensures SameOn(d, d2, v)
  {
  }

  /** The prune of a subvolume begins with what there was of it. */
  lemma {:induction false} PrunesBefore(cfg: Config, w: World, subvols: seq<string>, infos: Dir, cur: Cursors,
                                        j: nat)
    requires Inv(cfg, w) && Distinct(subvols) && j <= |subvols|
    requires forall v | v in subvols :: SameOn(infos, w.local, v)
    ensures var w1 := PruneLocals(cfg, w, subvols[..j], infos, cur);
            && Inv(cfg, w1) && w1.nextId == w.nextId
            && forall k | j <= k < |subvols| :: SameOn(infos, w1.local, subvols[k])
  {
    if j > 0 {
      PrunesBefore(cfg, w, subvols, infos, cur, j - 1);
      PruneNext(cfg, w, subvols, infos, cur, j - 1);
      var w1, w2 := PruneLocals(cfg, w, subvols[..j - 1], infos, cur), PruneLocals(cfg, w, subvols[..j], infos, cur);
      forall k | j <= k < |subvols| ensures SameOn(infos, w2.local, subvols[k]) {
        SameOnJoin(infos, w1.local, w2.local, subvols[k]);
      }
    }
  }

  /** And the prunes of others leave what it left. */
  lemma {:induction false} PrunesAfter(cfg: Config, w: World, subvols: seq<string>, infos: Dir, cur: Cursors,
                                       j: nat, k: nat)
    requires Inv(cfg, w) && Distinct(subvols) && j < k <= |subvols|
    requires forall v | v in subvols :: SameOn(infos, w.local, v)
    ensures SameOn(PruneLocals(cfg, w, subvols[..j + 1], infos, cur).local,
                   PruneLocals(cfg, w, subvols[..k], infos, cur).local, subvols[j])
    decreases k
  {
    if j + 1 < k {
      PrunesAfter(cfg, w, subvols, infos, cur, j, k - 1);
      PrunesBefore(cfg, w, subvols, infos, cur, k - 1);
      PruneNext(cfg, w, subvols, infos, cur, k - 1);
      SameOnJoin(PruneLocals(cfg, w, subvols[..j + 1], infos, cur).local,
        PruneLocals(cfg, w, subvols[..k - 1], infos, cur).local, PruneLocals(cfg, w, subvols[..k], infos, cur).local,
        subvols[j]);
    }
  }

  lemma NextPrune(cfg: Config, w: World, j: nat)
    requires Connected(cfg, w) && j < |cfg.subvolumes|
    ensures AtPrune(cfg, w, j + 1)
            == PruneLocal(cfg, AtPrune(cfg, w, j), cfg.subvolumes[j],
                          Listing(BeforeSlaves(cfg, w).w.local, cfg.subvolumes[j]), AfterSlaves(cfg, w).cur)
  {
    assert cfg.subvolumes[..j + 1][..j] == cfg.subvolumes[..j];
    PrunesLast(cfg, AtPrune(cfg, w, 0), cfg.subvolumes[..j + 1], BeforeSlaves(cfg, w).w.local,
      AfterSlaves(cfg, w).cur);
  }

  lemma PruneTurn(cfg: Config, w: World, j: nat)
    requires Inv(cfg, w) && ValidConfig(cfg) && Prunes(cfg, w) && j < |cfg.subvolumes|
    ensures var v, m, infos, cur := cfg.subvolumes[j], AtPrune(cfg, w, j), BeforeSlaves(cfg, w).w.local,
                AfterSlaves(cfg, w).cur;
            && Inv(cfg, m) && SameOn(infos, m.local, v)
            && SameOn(PruneLocal(cfg, m, v, Listing(m.local, v), cur).local, Cycle(cfg, w).0.local, v)
  {
    FullCycle(cfg, w);
    FinishExactly(cfg, w);
    var y, x, n := AfterSlaves(cfg, w), BeforeSlaves(cfg, w), |cfg.subvolumes|;
    var saved := AtPrune(cfg, w, 0);
    assert Inv(cfg, saved) && saved.local == x.w.local by {
      assert forall s | s in y.w.remote :: RemoteOk(cfg, y.w.local, y.w.remote[s], y.w.nextId);
    }
    PrunesBefore(cfg, saved, cfg.subvolumes, x.w.local, y.cur, j);
    PrunesAfter(cfg, saved, cfg.subvolumes, x.w.local, y.cur, j, n);
    NextPrune(cfg, w, j);
    var v := cfg.subvolumes[j];
    ListingSameOn(x.w.local, AtPrune(cfg, w, j).local, v);
  }

  /* ---- what stays ---- */

  /**
    For every tape: what a cycle that prunes leaves of a subvolume is what it found of it but for the snapshots
    that are not spared and whose delete takes effect, with the clock as it was read at this prune.
   */
  lemma PrunedExactly(cfg: Config, w: World, j: nat, gone: seq<Snapshot>)
    requires Inv(cfg, w) && ValidConfig(cfg) && Prunes(cfg, w) && j < |cfg.subvolumes|
    requires NotSpared(cfg, AfterSlaves(cfg, w).cur, cfg.subvolumes[j],
                       Listing(BeforeSlaves(cfg, w).w.local, cfg.subvolumes[j]),
                       EventAt(AtPrune(cfg, w, j).tape, 0).now, gone)
    ensures var v, t, found, left := cfg.subvolumes[j], AtPrune(cfg, w, j).tape, BeforeSlaves(cfg, w).w.local,
                Cycle(cfg, w).0.local;
            forall n: Name | n.subvol == v ::
              && (n in left <==> n in found && !Removed(t, 1, gone, |gone|, n))
              && (n in left ==> left[n] == found[n])
  {
    PruneTurn(cfg, w, j);
    var v, m, cur := cfg.subvolumes[j], AtPrune(cfg, w, j), AfterSlaves(cfg, w).cur;
    ListingSameOn(BeforeSlaves(cfg, w).w.local, m.local, v);
    PruneLocalExactly(cfg, m, v, cur, gone);
  }

  /** In every cycle, whatever fails: the newest max(keep_sender, 1) snapshots of a subvolume stay. */
  lemma NewestKept(cfg: Config, w: World, v: string, i: nat)
    requires Inv(cfg, w) && ValidConfig(cfg) && !Stops(cfg, w) && v in cfg.subvolumes
    requires var n := |Listing(BeforeSlaves(cfg, w).w.local, v)|; i < n <= i + AtLeastOne(cfg.keepSender)
    ensures var s, left := Listing(BeforeSlaves(cfg, w).w.local, v)[i], Cycle(cfg, w).0.local;
            s.name in left && left[s.name] == s.copy
  {
    var list := Listing(BeforeSlaves(cfg, w).w.local, v);
    assert list[i] in list;
    FinishExactly(cfg, w);
    if Prunes(cfg, w) {
      var j :| 0 <= j < |cfg.subvolumes| && cfg.subvolumes[j] == v;
      PruneTurn(cfg, w, j);
      var m, cur := AtPrune(cfg, w, j), AfterSlaves(cfg, w).cur;
      ListingSameOn(BeforeSlaves(cfg, w).w.local, m.local, v);
      DoomedExactly(cfg, m, v, cur);
      var gone := Doomed(cfg, m.tape, v, list, cur);
      PrunedExactly(cfg, w, j, gone);
      NeverRemoved(list, i, m.tape, gone);
    }
  }

  lemma NeverRemoved(list: seq<Snapshot>, i: nat, t: Tape, gone: seq<Snapshot>)
    requires Sorted(list) && i < |list| && list[i] !in gone && forall x | x in gone :: x in list
    ensures !Removed(t, 1, gone, |gone|, list[i].name)
  {
    forall k | 0 <= k < |gone| ensures gone[k].name != list[i].name {
      assert gone[k] in list;
      var h :| 0 <= h < |list| && list[h] == gone[k];
    }
  }

  lemma {:induction false} PrunesFollowOn(cfg: Config, w: World, subvols: seq<string>, infos: Dir, cur: Cursors,
                                          j: nat)
    requires j <= |subvols|
    ensures Follows(PruneLocals(cfg, w, subvols[..j], infos, cur).tape,
                    PruneLocals(cfg, w, subvols, infos, cur).tape)
    decreases |subvols| - j
  {
    if j < |subvols| {
      PrunesFollowOn(cfg, w, subvols, infos, cur, j + 1);
      assert subvols[..j + 1][..j] == subvols[..j];
      PrunesLast(cfg, w, subvols[..j + 1], infos, cur);
      PruneFollows(cfg, PruneLocals(cfg, w, subvols[..j], infos, cur), subvols[j], Listing(infos, subvols[j]), cur);
    } else {
      assert subvols[..j] == subvols;
    }
  }

  /** When every command of the prune is done, what is not spared is gone. */
  lemma AllRemoved(t: Tape, gone: seq<Snapshot>, x: Snapshot)
    requires AllDone(t) && !After(t, 1 + |gone|).dead && x in gone
    ensures Removed(t, 1, gone, |gone|, x.name)
  {
    var k :| 0 <= k < |gone| && gone[k] == x;
    assert EventAt(t, 1 + k) in t.script;
  }

  lemma PruneLives(cfg: Config, w: World, j: nat)
    requires Inv(cfg, w) && ValidConfig(cfg) && Prunes(cfg, w) && j < |cfg.subvolumes|
    requires AllDone(AfterSlaves(cfg, w).w.tape) && !Cycle(cfg, w).0.tape.dead
    ensures AllDone(AtPrune(cfg, w, j).tape) && !AtPrune(cfg, w, j + 1).tape.dead
  {
    FullCycle(cfg, w);
    var y, infos, n := AfterSlaves(cfg, w), BeforeSlaves(cfg, w).w.local, |cfg.subvolumes|;
    NextIsAfter(y.w.tape);
    NextFollows(y.w.tape);
    var saved := AtPrune(cfg, w, 0);
    PrunesFollow(cfg, saved, cfg.subvolumes[..j], infos, y.cur);
    PrunesFollowOn(cfg, saved, cfg.subvolumes, infos, y.cur, j + 1);
  }

  lemma AllRemovedAt(cfg: Config, w: World, j: nat, gone: seq<Snapshot>, x: Snapshot)
    requires Inv(cfg, w) && ValidConfig(cfg) && Prunes(cfg, w) && j < |cfg.subvolumes| && x in gone
    requires AllDone(AfterSlaves(cfg, w).w.tape) && !Cycle(cfg, w).0.tape.dead
    requires var v, m := cfg.subvolumes[j], AtPrune(cfg, w, j);
             Inv(cfg, m) && SameOn(BeforeSlaves(cfg, w).w.local, m.local, v)
             && NotSpared(cfg, AfterSlaves(cfg, w).cur, v, Listing(m.local, v), EventAt(m.tape, 0).now, gone)
    ensures Removed(AtPrune(cfg, w, j).tape, 1, gone, |gone|, x.name)
  {
    var v, m := cfg.subvolumes[j], AtPrune(cfg, w, j);
    PruneLives(cfg, w, j);
    NextPrune(cfg, w, j);
    ListingSameOn(BeforeSlaves(cfg, w).w.local, m.local, v);
    PruneLocalExactly(cfg, m, v, AfterSlaves(cfg, w).cur, gone);
    AllRemoved(m.tape, gone, x);
  }

  /**
    When every command from the save on is done, what there is of a subvolume is exactly the newest
    max(keep_sender, 1) and the anchors of configured slaves that are not over max_anchor_age.
   */
  lemma CleanPruneExactly(cfg: Config, w: World, j: nat, i: nat)
    requires Inv(cfg, w) && ValidConfig(cfg) && Prunes(cfg, w) && j < |cfg.subvolumes|
    requires AllDone(AfterSlaves(cfg, w).w.tape) && !Cycle(cfg, w).0.tape.dead
    requires i < |Listing(BeforeSlaves(cfg, w).w.local, cfg.subvolumes[j])|
    ensures var v := cfg.subvolumes[j];
            var list := Listing(BeforeSlaves(cfg, w).w.local, v);
            list[i].name in Cycle(cfg, w).0.local
            <==> Spared(cfg, AfterSlaves(cfg, w).cur, v, list, i, EventAt(AtPrune(cfg, w, j).tape, 0).now)
  {
    PruneTurn(cfg, w, j);
    var v, m, cur := cfg.subvolumes[j], AtPrune(cfg, w, j), AfterSlaves(cfg, w).cur;
    var list := Listing(BeforeSlaves(cfg, w).w.local, v);
    assert list[i] in list;
    ListingSameOn(BeforeSlaves(cfg, w).w.local, m.local, v);
    DoomedExactly(cfg, m, v, cur);
    var gone := Doomed(cfg, m.tape, v, list, cur);
    PrunedExactly(cfg, w, j, gone);
    if list[i] in gone {
      AllRemovedAt(cfg, w, j, gone, list[i]);
    } else {
      NeverRemoved(list, i, m.tape, gone);
    }
  }
}
