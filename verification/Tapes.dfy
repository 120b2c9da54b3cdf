/**
  What the tape means: commands are taken off it one by one, a cycle on a longer tape passes through the
  states of the cycles on shorter ones, and from one of these to the next at most one thing has changed.
 */
module Tapes {
  import opened Wrappers
  import opened Snapshots
  import opened CursorTable
  import opened Plan
  import opened Protocol

  /** The state in which the subvolumes of a slave that answered are replicated. */
  function Opened(x: Session, slave: string): Session {
    var w := x.w.(tape := Next(x.w.tape).1);
    x.(w := w.(log := w.log.(reached := w.log.reached + {slave})))
  }

  /** What Finish goes on with when the cursors were written. */
  function Written(cfg: Config, x: Session): World {
    var (e, t) := Next(x.w.tape);
    var w := x.w.(tape := t);
    if Takes(e.outcome) then w.(file := Saved(x.cur, cfg.slaves), log := w.log.(saved := true)) else w
  }

  /** The age that the local prune of one subvolume goes by, and its plan. */
  function Doomed(cfg: Config, t: Tape, subvol: string, list: seq<Snapshot>, cur: Cursors): seq<Snapshot> {
    LocalPrune(list, cfg.keepSender, subvol, cfg.slaves, cur, Age(cfg.maxAnchorAge, Next(t).0.now)).delete
  }

  /* ---- the flag ---- */

  /** An earlier failure changes nothing but the flag. */
  lemma SubvolFlag(cfg: Config, x: Session, slave: string, subvol: string, list: seq<Snapshot>, there: seq<Snapshot>)
    requires slave in x.w.remote
    ensures var r := ReplicateSubvol(cfg, x.(failed := false), slave, subvol, list, there);
            ReplicateSubvol(cfg, x, slave, subvol, list, there) == r.(failed := x.failed || r.failed)
  {
  }

  lemma {:induction false} SubvolsFlag(cfg: Config, x: Session, slave: string, subvols: seq<string>, infos: Dir,
                                       there: Dir)
    requires slave in x.w.remote
    ensures var r := ReplicateSubvols(cfg, x.(failed := false), slave, subvols, infos, there);
            ReplicateSubvols(cfg, x, slave, subvols, infos, there) == r.(failed := x.failed || r.failed)
    decreases |subvols|
  {
    if subvols != [] {
      var v := subvols[0];
      SubvolFlag(cfg, x, slave, v, Listing(infos, v), Listing(there, v));
      var a := ReplicateSubvol(cfg, x, slave, v, Listing(infos, v), Listing(there, v));
      var b := ReplicateSubvol(cfg, x.(failed := false), slave, v, Listing(infos, v), Listing(there, v));
      SubvolsFlag(cfg, a, slave, subvols[1..], infos, there);
      SubvolsFlag(cfg, b, slave, subvols[1..], infos, there);
    }
  }

  lemma SlaveFlag(cfg: Config, x: Session, slave: string, infos: Dir)
    requires slave in x.w.remote
    ensures var r := ReplicateSlave(cfg, x.(failed := false), slave, infos);
            ReplicateSlave(cfg, x, slave, infos) == r.(failed := x.failed || r.failed)
  {
    SubvolsFlag(cfg, Opened(x, slave), slave, cfg.subvolumes, infos, x.w.remote[slave]);
  }

  lemma {:induction false} SlavesFlag(cfg: Config, x: Session, slaves: seq<string>, infos: Dir)
    requires forall s | s in slaves :: s in x.w.remote
    ensures var r := ReplicateSlaves(cfg, x.(failed := false), slaves, infos);
            ReplicateSlaves(cfg, x, slaves, infos) == r.(failed := x.failed || r.failed)
    decreases |slaves|
  {
    if slaves != [] {
      SlaveFlag(cfg, x, slaves[0], infos);
      SlavesFlag(cfg, ReplicateSlave(cfg, x, slaves[0], infos), slaves[1..], infos);
      SlavesFlag(cfg, ReplicateSlave(cfg, x.(failed := false), slaves[0], infos), slaves[1..], infos);
    }
  }

  /* ---- nothing is put back on the tape ---- */

  /** `t'` comes after `t` on one tape. */
  predicate Follows(t: Tape, t': Tape) {
    (t.dead ==> t'.dead) && |t'.script| <= |t.script| && forall e | e in t'.script :: e in t.script
  }

  lemma NextFollows(t: Tape)
    ensures Follows(t, Next(t).1)
    ensures AllDone(t) && !Next(t).1.dead ==> Next(t).0.outcome.Done?
    ensures t.script != [] ==> Next(t).0 in t.script
  {
    if t.script != [] {
      assert t.script == [t.script[0]] + t.script[1..];
    }
  }

  lemma {:induction false} SweepFollows(d: Dir, t: Tape, doomed: seq<Snapshot>)
    ensures Follows(t, Sweep(d, t, doomed).1)
    decreases |doomed|
  {
    if doomed != [] {
      NextFollows(t);
      var (e, t1) := Next(t);
      SweepFollows(if Takes(e.outcome) then d - {doomed[0].name} else d, t1, doomed[1..]);
    }
  }

  lemma {:induction false} TakeFollows(w: World, subvols: seq<string>, failed: bool)
    ensures Follows(w.tape, TakeSnapshots(w, subvols, failed).0.tape)
    decreases |subvols|
  {
    if subvols != [] {
      var (w1, f) := CreateSnapshot(w, subvols[0]);
      CreateFollows(w, subvols[0]);
      TakeFollows(w1, subvols[1..], failed || f);
    }
  }

  lemma CreateFollows(w: World, subvol: string)
    ensures Follows(w.tape, CreateSnapshot(w, subvol).0.tape)
  {
    NextFollows(w.tape);
    NextFollows(Next(w.tape).1);
  }

  lemma DeliverFollows(w: World, slave: string, s: Snapshot, parent: Option<Snapshot>, doomed: seq<Snapshot>)
    requires slave in w.remote
    ensures Follows(w.tape, Deliver(w, slave, s, parent, doomed).0.tape)
    ensures Follows(w.tape, Send(w, slave, s, parent).0.tape)
  {
    var w2 := Send(w, slave, s, parent).0;
    NextFollows(w.tape);
    SweepFollows(w2.remote[slave], w2.tape, doomed);
  }

  lemma SendAndPruneFollows(cfg: Config, x: Session, slave: string, subvol: string, local: seq<Snapshot>,
                            remote: seq<Snapshot>)
    requires slave in x.w.remote
    ensures Follows(x.w.tape, SendAndPrune(cfg, x, slave, subvol, local, remote).w.tape)
  {
    var complete := OfKind(remote, Uuids(local), Complete);
    if NewestOf(local, ReadOnlyOne).Some? {
      var latest := NewestOf(local, ReadOnlyOne).value;
      SweepFollows(x.w.remote[slave], x.w.tape, PlanRemotePrune(complete, cfg.keepReceiver));
      DeliverFollows(x.w, slave, latest, ParentOf(local, remote),
          PlanRemotePrune(complete + [latest], cfg.keepReceiver));
    }
  }

  lemma SubvolFollows(cfg: Config, x: Session, slave: string, subvol: string, local: seq<Snapshot>,
                      remote: seq<Snapshot>)
    requires slave in x.w.remote
    ensures Follows(x.w.tape, ReplicateSubvol(cfg, x, slave, subvol, local, remote).w.tape)
  {
    var garbage := OfKind(remote, Uuids(local), Leftover);
    SweepFollows(x.w.remote[slave], x.w.tape, garbage);
    SendAndPruneFollows(cfg, x.(w := SweepRemote(x.w, slave, garbage)), slave, subvol, local, remote);
  }

  lemma {:induction false} SubvolsFollow(cfg: Config, x: Session, slave: string, subvols: seq<string>, local: Dir,
                                         infos: Dir)
    requires slave in x.w.remote
    ensures Follows(x.w.tape, ReplicateSubvols(cfg, x, slave, subvols, local, infos).w.tape)
    decreases |subvols|
  {
    if subvols != [] {
      SubvolFollows(cfg, x, slave, subvols[0], Listing(local, subvols[0]), Listing(infos, subvols[0]));
      var x1 := ReplicateSubvol(cfg, x, slave, subvols[0], Listing(local, subvols[0]), Listing(infos, subvols[0]));
      SubvolsFollow(cfg, x1, slave, subvols[1..], local, infos);
    }
  }

  lemma SlaveFollows(cfg: Config, x: Session, slave: string, local: Dir)
    requires slave in x.w.remote
    ensures Follows(x.w.tape, ReplicateSlave(cfg, x, slave, local).w.tape)
  {
    NextFollows(x.w.tape);
    SubvolsFollow(cfg, Opened(x, slave), slave, cfg.subvolumes, local, x.w.remote[slave]);
  }

  lemma {:induction false} SlavesFollow(cfg: Config, x: Session, slaves: seq<string>, local: Dir)
    requires forall s | s in slaves :: s in x.w.remote
    ensures Follows(x.w.tape, ReplicateSlaves(cfg, x, slaves, local).w.tape)
    decreases |slaves|
  {
    if slaves != [] {
      SlaveFollows(cfg, x, slaves[0], local);
      SlavesFollow(cfg, ReplicateSlave(cfg, x, slaves[0], local), slaves[1..], local);
    }
  }

  lemma {:induction false} PrunesFollow(cfg: Config, w: World, subvols: seq<string>, local: Dir, cur: Cursors)
    ensures Follows(w.tape, PruneLocals(cfg, w, subvols, local, cur).tape)
    decreases |subvols|
  {
    if subvols != [] {
      var list := Listing(local, subvols[0]);
      PruneFollows(cfg, w, subvols[0], list, cur);
      PrunesFollow(cfg, PruneLocal(cfg, w, subvols[0], list, cur), subvols[1..], local, cur);
    }
  }

  lemma PruneFollows(cfg: Config, w: World, subvol: string, list: seq<Snapshot>, cur: Cursors)
    ensures Follows(w.tape, PruneLocal(cfg, w, subvol, list, cur).tape)
  {
    NextFollows(w.tape);
    SweepFollows(w.local, Next(w.tape).1, Doomed(cfg, w.tape, subvol, list, cur));
  }

  lemma StartFollows(cfg: Config, w: World)
    ensures Follows(w.tape, Start(cfg, w).0.w.tape)
  {
    var w0 := w.(log := Log(false, {}, false));
    TakeFollows(w0, cfg.subvolumes, false);
    var w1 := TakeSnapshots(w0, cfg.subvolumes, false).0;
    NextFollows(w1.tape);
    NextFollows(Next(w1.tape).1);
  }

  lemma FinishFollows(cfg: Config, x: Session, local: Dir)
    ensures Follows(x.w.tape, Next(x.w.tape).1) && Follows(Next(x.w.tape).1, Finish(cfg, x, local).0.tape)
  {
    NextFollows(x.w.tape);
    PrunesFollow(cfg, Written(cfg, x), cfg.subvolumes, local, x.cur);
  }

  /* ---- a tape that has run out ---- */

  /** What outlives the process. */
  datatype Disk = Disk(local: Dir, remote: map<string, Dir>, file: Cursors, nextId: Uuid)

  function DiskOf(w: World): Disk {
    Disk(w.local, w.remote, w.file, w.nextId)
  }

  /** Nothing happens any more. */
  predicate Still(w: World, w': World) {
    DiskOf(w') == DiskOf(w) && w'.tape.script == [] && (w.tape.dead ==> w'.tape.dead)
  }

  lemma {:induction false} SweepStill(d: Dir, t: Tape, doomed: seq<Snapshot>)
    requires t.script == []
    ensures Sweep(d, t, doomed).0 == d
    decreases |doomed|
  {
    if doomed != [] {
      SweepStill(d, Next(t).1, doomed[1..]);
    }
  }

  lemma SweepRemoteStill(w: World, slave: string, doomed: seq<Snapshot>)
    requires slave in w.remote && w.tape.script == []
    ensures Still(w, SweepRemote(w, slave, doomed))
  {
    SweepStill(w.remote[slave], w.tape, doomed);
    SweepFollows(w.remote[slave], w.tape, doomed);
    assert w.remote[slave := w.remote[slave]] == w.remote;
  }

  lemma {:induction false} TakeStill(w: World, subvols: seq<string>, failed: bool)
    requires w.tape.script == []
    ensures Still(w, TakeSnapshots(w, subvols, failed).0)
    decreases |subvols|
  {
    if subvols != [] {
      var (w1, f) := CreateSnapshot(w, subvols[0]);
      TakeStill(w1, subvols[1..], failed || f);
    }
  }

  lemma SendStill(w: World, slave: string, s: Snapshot, parent: Option<Snapshot>)
    requires slave in w.remote && w.tape.script == []
    ensures Still(w, Send(w, slave, s, parent).0)
  {
  }

  lemma SendAndPruneStill(cfg: Config, x: Session, slave: string, subvol: string, local: seq<Snapshot>,
                          remote: seq<Snapshot>)
    requires slave in x.w.remote && x.w.tape.script == []
    ensures Still(x.w, SendAndPrune(cfg, x, slave, subvol, local, remote).w)
  {
    if NewestOf(local, ReadOnlyOne).Some? {
      SendStill(x.w, slave, NewestOf(local, ReadOnlyOne).value, ParentOf(local, remote));
      SweepRemoteStill(x.w, slave, PlanRemotePrune(OfKind(remote, Uuids(local), Complete), cfg.keepReceiver));
    }
  }

  lemma SubvolStill(cfg: Config, x: Session, slave: string, subvol: string, local: seq<Snapshot>, remote: seq<Snapshot>)
    requires slave in x.w.remote && x.w.tape.script == []
    ensures Still(x.w, ReplicateSubvol(cfg, x, slave, subvol, local, remote).w)
  {
    var garbage := OfKind(remote, Uuids(local), Leftover);
    SweepRemoteStill(x.w, slave, garbage);
    SendAndPruneStill(cfg, x.(w := SweepRemote(x.w, slave, garbage)), slave, subvol, local, remote);
  }

  lemma {:induction false} SubvolsStill(cfg: Config, x: Session, slave: string, subvols: seq<string>, local: Dir,
                                        infos: Dir)
    requires slave in x.w.remote && x.w.tape.script == []
    ensures Still(x.w, ReplicateSubvols(cfg, x, slave, subvols, local, infos).w)
    decreases |subvols|
  {
    if subvols != [] {
      SubvolStill(cfg, x, slave, subvols[0], Listing(local, subvols[0]), Listing(infos, subvols[0]));
      var x1 := ReplicateSubvol(cfg, x, slave, subvols[0], Listing(local, subvols[0]), Listing(infos, subvols[0]));
      SubvolsStill(cfg, x1, slave, subvols[1..], local, infos);
    }
  }

  lemma {:induction false} SlavesStill(cfg: Config, x: Session, slaves: seq<string>, local: Dir)
    requires (forall s | s in slaves :: s in x.w.remote) && x.w.tape.script == []
    ensures Still(x.w, ReplicateSlaves(cfg, x, slaves, local).w)
    decreases |slaves|
  {
    if slaves != [] {
      SlavesStill(cfg, ReplicateSlave(cfg, x, slaves[0], local), slaves[1..], local);
    }
  }

  lemma {:induction false} PrunesStill(cfg: Config, w: World, subvols: seq<string>, local: Dir, cur: Cursors)
    requires w.tape.script == []
    ensures Still(w, PruneLocals(cfg, w, subvols, local, cur))
    decreases |subvols|
  {
    if subvols != [] {
      var list := Listing(local, subvols[0]);
      SweepStill(w.local, Next(w.tape).1, Doomed(cfg, w.tape, subvols[0], list, cur));
      SweepFollows(w.local, Next(w.tape).1, Doomed(cfg, w.tape, subvols[0], list, cur));
      PrunesStill(cfg, PruneLocal(cfg, w, subvols[0], list, cur), subvols[1..], local, cur);
    }
  }

  /* ---- a longer tape ---- */

  /** At most one entry comes or goes. */
  ghost predicate OneEntry(d: Dir, d': Dir) {
    d' == d || (exists n :: d' == d - {n}) || exists n | n in d' && n !in d :: d' == d[n := d'[n]]
  }

  /** What one command can do: nothing, change one entry of one host, or replace the cursor file. */
  ghost predicate OneCommand(p: Disk, q: Disk) {
    || q == p
    || (q == p.(local := q.local, nextId := q.nextId) && OneEntry(p.local, q.local))
    || (q == p.(remote := q.remote, nextId := q.nextId) && exists s {:trigger q.remote[s]} | s in p.remote
       && s in q.remote ::
          q.remote == p.remote[s := q.remote[s]] && OneEntry(p.remote[s], q.remote[s]))
    || q == p.(file := q.file)
  }

  /** Both have come to one point, and `b` has `rest` on its tape beyond what `a` has. */
  predicate Level(a: Tape, b: Tape, rest: seq<Event>) {
    !a.dead && b == Tape(a.script + rest, false)
  }

  /** The tape of `a` has run out and `b` has gone on. */
  predicate Ahead(a: Tape, b: Tape, rest: seq<Event>) {
    a == Tape([], true) && |b.script| < |rest|
  }

  ghost predicate InStep(a: World, b: World, rest: seq<Event>) {
    || (Level(a.tape, b.tape, rest) && b == a.(tape := b.tape))
    || (Ahead(a.tape, b.tape, rest) && (|rest| == 1 ==> OneCommand(DiskOf(a), DiskOf(b))))
  }

  /** So far nothing has come between them. */
  predicate Together(x: Session, y: Session, rest: seq<Event>) {
    Level(x.w.tape, y.w.tape, rest) && y == x.(w := x.w.(tape := y.w.tape))
  }

  ghost predicate InStepS(x: Session, y: Session, rest: seq<Event>) {
    Together(x, y, rest) || (Ahead(x.w.tape, y.w.tape, rest) && InStep(x.w, y.w, rest))
  }

  lemma NextSteps(a: Tape, b: Tape, rest: seq<Event>)
    requires Level(a, b, rest) && rest != []
    ensures if a.script == [] then Next(a) == (Event(Refused, 0), Tape([], true))
            && Next(b) == (rest[0], Tape(rest[1..], false))
            else Next(a).0 == Next(b).0 && Level(Next(a).1, Next(b).1, rest)
  {
    if a.script != [] {
      assert (a.script + rest)[1..] == a.script[1..] + rest;
    } else {
      assert a.script + rest == rest;
    }
  }

  /** Both go on, one of them with a tape that has run out: what was between them stays. */
  lemma GoOn(a: World, b: World, a': World, b': World, rest: seq<Event>)
    requires InStep(a, b, rest) && Ahead(a.tape, b.tape, rest)
    requires Still(a, a') && Follows(b.tape, b'.tape) && (b.tape.script == [] ==> Still(b, b'))
    ensures InStep(a', b', rest) && Ahead(a'.tape, b'.tape, rest)
  {
  }

  lemma {:induction false} SweepSteps(d: Dir, a: Tape, b: Tape, rest: seq<Event>, doomed: seq<Snapshot>)
    requires Level(a, b, rest) && rest != []
    ensures var (da, a') := Sweep(d, a, doomed);
            var (db, b') := Sweep(d, b, doomed);
            || (Level(a', b', rest) && db == da)
            || (Ahead(a', b', rest) && (|rest| == 1 ==> OneEntry(da, db)))
    decreases |doomed|
  {
    if doomed != [] {
      NextSteps(a, b, rest);
      var (e, a1) := Next(a);
      var (f, b1) := Next(b);
      var n := doomed[0].name;
      if a.script != [] {
        SweepSteps(if Takes(e.outcome) then d - {n} else d, a1, b1, rest, doomed[1..]);
      } else {
        var d1 := if Takes(f.outcome) then d - {n} else d;
        SweepStill(d, a1, doomed[1..]);
        SweepFollows(d, a1, doomed[1..]);
        SweepFollows(d1, b1, doomed[1..]);
        if |rest| == 1 {
          SweepStill(d1, b1, doomed[1..]);
        }
      }
    }
  }

  lemma SweepRemoteSteps(a: World, b: World, rest: seq<Event>, slave: string, doomed: seq<Snapshot>)
    requires Level(a.tape, b.tape, rest) && b == a.(tape := b.tape) && rest != [] && slave in a.remote
    ensures InStep(SweepRemote(a, slave, doomed), SweepRemote(b, slave, doomed), rest)
  {
    SweepSteps(a.remote[slave], a.tape, b.tape, rest, doomed);
    var p, q := DiskOf(SweepRemote(a, slave, doomed)), DiskOf(SweepRemote(b, slave, doomed));
    assert slave in p.remote && q.remote == p.remote[slave := q.remote[slave]];
  }

  /** Whatever the tape says, at most one snapshot is made. */
  lemma CreateOne(w: World, subvol: string)
    ensures OneCommand(DiskOf(w), DiskOf(CreateSnapshot(w, subvol).0))
  {
    var (e, t) := Next(w.tape);
    var f := Next(t).0;
    if Name(subvol, e.now) !in w.local {
      MakeOne(w.(tape := t), subvol, e);
    } else if Name(subvol, f.now) !in w.local {
      MakeOne(w.(tape := Next(t).1), subvol, f);
    }
  }

  lemma MakeOne(w: World, subvol: string, e: Event)
    requires Name(subvol, e.now) !in w.local
    ensures OneCommand(DiskOf(w), DiskOf(Make(w, subvol, e)))
  {
    var n, d := Name(subvol, e.now), Make(w, subvol, e).local;
    assert d == w.local || (n in d && d == w.local[n := d[n]]);
  }

  lemma CreateSteps(a: World, b: World, rest: seq<Event>, subvol: string)
    requires Level(a.tape, b.tape, rest) && b == a.(tape := b.tape) && rest != []
    ensures var (a', fa) := CreateSnapshot(a, subvol);
            var (b', fb) := CreateSnapshot(b, subvol);
            InStep(a', b', rest) && (Level(a'.tape, b'.tape, rest) ==> fa == fb)
  {
    NextSteps(a.tape, b.tape, rest);
    var a1, b1 := a.(tape := Next(a.tape).1), b.(tape := Next(b.tape).1);
    if a.tape.script == [] {
      CreateFirst(a, b, rest, subvol);
    } else if Name(subvol, Next(a.tape).0.now) in a.local {
      NextSteps(a1.tape, b1.tape, rest);
      if a1.tape.script == [] {
        RetryFirst(a1, b1, rest, subvol);
      }
    }
  }

  /** The first one to run its command has run all of its tape that counts. */
  lemma CreateFirst(a: World, b: World, rest: seq<Event>, subvol: string)
    requires Level(a.tape, b.tape, rest) && b == a.(tape := b.tape) && rest != [] && a.tape.script == []
    ensures var a', b' := CreateSnapshot(a, subvol).0, CreateSnapshot(b, subvol).0;
            InStep(a', b', rest) && Ahead(a'.tape, b'.tape, rest)
  {
    NextSteps(a.tape, b.tape, rest);
    CreateFollows(b.(tape := Next(b.tape).1), subvol);
    CreateOne(b, subvol);
  }

  /** The second attempt: the same, one command later. */
  lemma RetryFirst(a: World, b: World, rest: seq<Event>, subvol: string)
    requires Level(a.tape, b.tape, rest) && b == a.(tape := b.tape) && rest != [] && a.tape.script == []
    ensures var (e, t) := Next(b.tape);
            var b' := if Name(subvol, e.now) !in b.local then Make(b.(tape := t), subvol, e) else b.(tape := t);
            InStep(a.(tape := Next(a.tape).1), b', rest) && Ahead(Next(a.tape).1, b'.tape, rest)
  {
    NextSteps(a.tape, b.tape, rest);
    var (e, t) := Next(b.tape);
    if Name(subvol, e.now) !in b.local {
      MakeOne(b.(tape := t), subvol, e);
    }
  }

  lemma {:induction false} TakeSteps(a: World, b: World, rest: seq<Event>, subvols: seq<string>, failed: bool)
    requires Level(a.tape, b.tape, rest) && b == a.(tape := b.tape) && rest != []
    ensures var (a', fa) := TakeSnapshots(a, subvols, failed);
            var (b', fb) := TakeSnapshots(b, subvols, failed);
            InStep(a', b', rest) && (Level(a'.tape, b'.tape, rest) ==> fa == fb)
    decreases |subvols|
  {
    if subvols != [] {
      CreateSteps(a, b, rest, subvols[0]);
      var (a1, fa) := CreateSnapshot(a, subvols[0]);
      var (b1, fb) := CreateSnapshot(b, subvols[0]);
      if Level(a1.tape, b1.tape, rest) {
        TakeSteps(a1, b1, rest, subvols[1..], failed || fa);
      } else {
        TakeGoOn(a1, b1, rest, subvols[1..], failed || fa, failed || fb);
      }
    }
  }

  lemma TakeGoOn(a: World, b: World, rest: seq<Event>, subvols: seq<string>, fa: bool, fb: bool)
    requires InStep(a, b, rest) && Ahead(a.tape, b.tape, rest)
    ensures var a', b' := TakeSnapshots(a, subvols, fa).0, TakeSnapshots(b, subvols, fb).0;
            InStep(a', b', rest) && Ahead(a'.tape, b'.tape, rest)
  {
    TakeStill(a, subvols, fa);
    TakeFollows(b, subvols, fb);
    if b.tape.script == [] {
      TakeStill(b, subvols, fb);
    }
    GoOn(a, b, TakeSnapshots(a, subvols, fa).0, TakeSnapshots(b, subvols, fb).0, rest);
  }

  lemma SendSteps(a: World, b: World, rest: seq<Event>, slave: string, s: Snapshot, parent: Option<Snapshot>)
    requires Level(a.tape, b.tape, rest) && b == a.(tape := b.tape) && rest != [] && slave in a.remote
    ensures var (a', fa) := Send(a, slave, s, parent);
            var (b', fb) := Send(b, slave, s, parent);
            InStep(a', b', rest) && (Level(a'.tape, b'.tape, rest) ==> fa == fb)
  {
    NextSteps(a.tape, b.tape, rest);
    var p, q := DiskOf(Send(a, slave, s, parent).0), DiskOf(Send(b, slave, s, parent).0);
    if a.tape.script == [] && q != p {
      assert s.name in q.remote[slave] && s.name !in p.remote[slave];
      assert q.remote[slave] == p.remote[slave][s.name := q.remote[slave][s.name]];
    }
  }

  lemma SweepRemoteGoOn(a: World, b: World, rest: seq<Event>, slave: string, da: seq<Snapshot>, db: seq<Snapshot>)
    requires InStep(a, b, rest) && Ahead(a.tape, b.tape, rest) && slave in a.remote && slave in b.remote
    ensures var a', b' := SweepRemote(a, slave, da), SweepRemote(b, slave, db);
            InStep(a', b', rest) && Ahead(a'.tape, b'.tape, rest)
  {
    SweepRemoteStill(a, slave, da);
    SweepFollows(b.remote[slave], b.tape, db);
    if b.tape.script == [] {
      SweepRemoteStill(b, slave, db);
    }
    GoOn(a, b, SweepRemote(a, slave, da), SweepRemote(b, slave, db), rest);
  }

  lemma DeliverSteps(a: World, b: World, rest: seq<Event>, slave: string, s: Snapshot, parent: Option<Snapshot>,
                     doomed: seq<Snapshot>)
    requires Level(a.tape, b.tape, rest) && b == a.(tape := b.tape) && rest != [] && slave in a.remote
    ensures var (a', fa) := Deliver(a, slave, s, parent, doomed);
            var (b', fb) := Deliver(b, slave, s, parent, doomed);
            InStep(a', b', rest) && (Level(a'.tape, b'.tape, rest) ==> fa == fb)
  {
    SendSteps(a, b, rest, slave, s, parent);
    var (a1, fa) := Send(a, slave, s, parent);
    var (b1, fb) := Send(b, slave, s, parent);
    if Level(a1.tape, b1.tape, rest) {
      SweepRemoteSteps(a1, b1, rest, slave, doomed);
    } else {
      SweepRemoteGoOn(a1, b1, rest, slave, doomed, doomed);
      SweepRemoteGoOn(a1, b1, rest, slave, [], doomed);
      SweepNothing(a1, slave);
    }
  }

  lemma SweepNothing(w: World, slave: string)
    requires slave in w.remote
    ensures SweepRemote(w, slave, []) == w
  {
    assert w.remote[slave := w.remote[slave]] == w.remote;
  }

  lemma SendAndPruneSteps(cfg: Config, x: Session, y: Session, rest: seq<Event>, slave: string, subvol: string,
                          local: seq<Snapshot>, remote: seq<Snapshot>)
    requires Together(x, y, rest) && rest != [] && slave in x.w.remote
    ensures InStepS(SendAndPrune(cfg, x, slave, subvol, local, remote),
            SendAndPrune(cfg, y, slave, subvol, local, remote), rest)
  {
    var complete, latest, parent := OfKind(remote, Uuids(local), Complete), NewestOf(local, ReadOnlyOne),
        ParentOf(local, remote);
    if latest.Some? {
      if parent.Some? && parent.value.name == latest.value.name {
        SweepRemoteSteps(x.w, y.w, rest, slave, PlanRemotePrune(complete, cfg.keepReceiver));
      } else {
        DeliverSteps(x.w, y.w, rest, slave, latest.value, parent,
            PlanRemotePrune(complete + [latest.value], cfg.keepReceiver));
      }
    }
  }

  lemma SubvolSteps(cfg: Config, x: Session, y: Session, rest: seq<Event>, slave: string, subvol: string,
                    local: seq<Snapshot>, remote: seq<Snapshot>)
    requires Together(x, y, rest) && rest != [] && slave in x.w.remote
    ensures InStepS(ReplicateSubvol(cfg, x, slave, subvol, local, remote),
            ReplicateSubvol(cfg, y, slave, subvol, local, remote), rest)
  {
    var garbage := OfKind(remote, Uuids(local), Leftover);
    SweepRemoteSteps(x.w, y.w, rest, slave, garbage);
    var x1, y1 := x.(w := SweepRemote(x.w, slave, garbage)), y.(w := SweepRemote(y.w, slave, garbage));
    if Together(x1, y1, rest) {
      SendAndPruneSteps(cfg, x1, y1, rest, slave, subvol, local, remote);
    } else {
      SendAndPruneGoOn(cfg, x1, y1, rest, slave, subvol, local, remote);
    }
  }

  lemma SendAndPruneGoOn(cfg: Config, x: Session, y: Session, rest: seq<Event>, slave: string, subvol: string,
                         local: seq<Snapshot>, remote: seq<Snapshot>)
    requires InStep(x.w, y.w, rest) && Ahead(x.w.tape, y.w.tape, rest) && slave in x.w.remote && slave in y.w.remote
    ensures var x', y' := SendAndPrune(cfg, x, slave, subvol, local, remote),
            SendAndPrune(cfg, y, slave, subvol, local, remote);
            Ahead(x'.w.tape, y'.w.tape, rest) && InStep(x'.w, y'.w, rest)
  {
    var x', y' := SendAndPrune(cfg, x, slave, subvol, local, remote),
        SendAndPrune(cfg, y, slave, subvol, local, remote);
    SendAndPruneStill(cfg, x, slave, subvol, local, remote);
    SendAndPruneFollows(cfg, y, slave, subvol, local, remote);
    if y.w.tape.script == [] {
      SendAndPruneStill(cfg, y, slave, subvol, local, remote);
    }
    GoOn(x.w, y.w, x'.w, y'.w, rest);
  }

  lemma {:induction false} SubvolsSteps(cfg: Config, x: Session, y: Session, rest: seq<Event>, slave: string,
                                        subvols: seq<string>,
                                        local: Dir, infos: Dir)
    requires Together(x, y, rest) && rest != [] && slave in x.w.remote
    ensures InStepS(ReplicateSubvols(cfg, x, slave, subvols, local, infos),
            ReplicateSubvols(cfg, y, slave, subvols, local, infos), rest)
    decreases |subvols|
  {
    if subvols != [] {
      var v, tail := subvols[0], subvols[1..];
      SubvolSteps(cfg, x, y, rest, slave, v, Listing(local, v), Listing(infos, v));
      var x1 := ReplicateSubvol(cfg, x, slave, v, Listing(local, v), Listing(infos, v));
      var y1 := ReplicateSubvol(cfg, y, slave, v, Listing(local, v), Listing(infos, v));
      if Together(x1, y1, rest) {
        SubvolsSteps(cfg, x1, y1, rest, slave, tail, local, infos);
      } else {
        SubvolsGoOn(cfg, x1, y1, rest, slave, tail, local, infos);
      }
    }
  }

  lemma SubvolsGoOn(cfg: Config, x: Session, y: Session, rest: seq<Event>, slave: string, subvols: seq<string>,
                    local: Dir, infos: Dir)
    requires InStep(x.w, y.w, rest) && Ahead(x.w.tape, y.w.tape, rest) && slave in x.w.remote && slave in y.w.remote
    ensures InStepS(ReplicateSubvols(cfg, x, slave, subvols, local, infos),
            ReplicateSubvols(cfg, y, slave, subvols, local, infos), rest)
  {
    var x', y' := ReplicateSubvols(cfg, x, slave, subvols, local, infos),
        ReplicateSubvols(cfg, y, slave, subvols, local, infos);
    SubvolsStill(cfg, x, slave, subvols, local, infos);
    SubvolsFollow(cfg, y, slave, subvols, local, infos);
    if y.w.tape.script == [] {
      SubvolsStill(cfg, y, slave, subvols, local, infos);
    }
    GoOn(x.w, y.w, x'.w, y'.w, rest);
  }

  lemma SlaveSteps(cfg: Config, x: Session, y: Session, rest: seq<Event>, slave: string, local: Dir)
    requires Together(x, y, rest) && rest != [] && slave in x.w.remote
    ensures InStepS(ReplicateSlave(cfg, x, slave, local), ReplicateSlave(cfg, y, slave, local), rest)
  {
    NextSteps(x.w.tape, y.w.tape, rest);
    var x1, y1, infos := Opened(x, slave), Opened(y, slave), x.w.remote[slave];
    if x.w.tape.script != [] {
      SubvolsSteps(cfg, x1, y1, rest, slave, cfg.subvolumes, local, infos);
    } else {
      SubvolsStill(cfg, x1, slave, [], local, infos);
      SubvolsGoOnOne(cfg, x1, y1, rest, slave, cfg.subvolumes, local, infos);
    }
  }

  /** One that stops here, and one that goes on with the subvolumes. */
  lemma SubvolsGoOnOne(cfg: Config, x: Session, y: Session, rest: seq<Event>, slave: string, subvols: seq<string>,
                       local: Dir, infos: Dir)
    requires InStep(x.w, y.w, rest) && Ahead(x.w.tape, y.w.tape, rest) && slave in y.w.remote
    ensures var y' := ReplicateSubvols(cfg, y, slave, subvols, local, infos);
            InStep(x.w, y'.w, rest) && Ahead(x.w.tape, y'.w.tape, rest)
  {
    SubvolsFollow(cfg, y, slave, subvols, local, infos);
    if y.w.tape.script == [] {
      SubvolsStill(cfg, y, slave, subvols, local, infos);
    }
    GoOn(x.w, y.w, x.w, ReplicateSubvols(cfg, y, slave, subvols, local, infos).w, rest);
  }

  lemma {:induction false} SlavesSteps(cfg: Config, x: Session, y: Session, rest: seq<Event>, slaves: seq<string>,
                                       local: Dir)
    requires Together(x, y, rest) && rest != [] && forall s | s in slaves :: s in x.w.remote
    ensures InStepS(ReplicateSlaves(cfg, x, slaves, local), ReplicateSlaves(cfg, y, slaves, local), rest)
    decreases |slaves|
  {
    if slaves != [] {
      SlaveSteps(cfg, x, y, rest, slaves[0], local);
      var x1, y1 := ReplicateSlave(cfg, x, slaves[0], local), ReplicateSlave(cfg, y, slaves[0], local);
      if Together(x1, y1, rest) {
        SlavesSteps(cfg, x1, y1, rest, slaves[1..], local);
      } else {
        SlavesGoOn(cfg, x1, y1, rest, slaves[1..], local, local);
      }
    }
  }

  lemma SlavesGoOn(cfg: Config, x: Session, y: Session, rest: seq<Event>, slaves: seq<string>, la: Dir, lb: Dir)
    requires InStep(x.w, y.w, rest) && Ahead(x.w.tape, y.w.tape, rest)
    requires forall s | s in slaves :: s in x.w.remote && s in y.w.remote
    ensures InStepS(ReplicateSlaves(cfg, x, slaves, la), ReplicateSlaves(cfg, y, slaves, lb), rest)
  {
    var x', y' := ReplicateSlaves(cfg, x, slaves, la), ReplicateSlaves(cfg, y, slaves, lb);
    SlavesStill(cfg, x, slaves, la);
    SlavesFollow(cfg, y, slaves, lb);
    if y.w.tape.script == [] {
      SlavesStill(cfg, y, slaves, lb);
    }
    GoOn(x.w, y.w, x'.w, y'.w, rest);
  }

  lemma PruneLocalSteps(cfg: Config, a: World, b: World, rest: seq<Event>, subvol: string, list: seq<Snapshot>,
                        cur: Cursors)
    requires Level(a.tape, b.tape, rest) && b == a.(tape := b.tape) && rest != []
    ensures InStep(PruneLocal(cfg, a, subvol, list, cur), PruneLocal(cfg, b, subvol, list, cur), rest)
  {
    NextSteps(a.tape, b.tape, rest);
    var ta, tb := Next(a.tape).1, Next(b.tape).1;
    var da, db := Doomed(cfg, a.tape, subvol, list, cur), Doomed(cfg, b.tape, subvol, list, cur);
    if a.tape.script != [] {
      SweepSteps(a.local, ta, tb, rest, da);
    } else {
      SweepStill(a.local, ta, da);
      SweepFollows(a.local, ta, da);
      SweepFollows(a.local, tb, db);
      if |rest| == 1 {
        SweepStill(a.local, tb, db);
      }
    }
  }

  lemma {:induction false} PrunesSteps(cfg: Config, a: World, b: World, rest: seq<Event>, subvols: seq<string>,
                                       local: Dir, cur: Cursors)
    requires Level(a.tape, b.tape, rest) && b == a.(tape := b.tape) && rest != []
    ensures InStep(PruneLocals(cfg, a, subvols, local, cur), PruneLocals(cfg, b, subvols, local, cur), rest)
    decreases |subvols|
  {
    if subvols != [] {
      var v, tail := subvols[0], subvols[1..];
      PruneLocalSteps(cfg, a, b, rest, v, Listing(local, v), cur);
      var a1, b1 := PruneLocal(cfg, a, v, Listing(local, v), cur), PruneLocal(cfg, b, v, Listing(local, v), cur);
      if Level(a1.tape, b1.tape, rest) {
        PrunesSteps(cfg, a1, b1, rest, tail, local, cur);
      } else {
        PrunesStill(cfg, a1, tail, local, cur);
        PrunesGoOn(cfg, a1, b1, rest, PruneLocals(cfg, a1, tail, local, cur), tail, local, cur);
      }
    }
  }

  /** One that does nothing any more, and one that goes on pruning. */
  lemma PrunesGoOn(cfg: Config, a: World, b: World, rest: seq<Event>, a': World, subvols: seq<string>, local: Dir,
                   cur: Cursors)
    requires InStep(a, b, rest) && Ahead(a.tape, b.tape, rest) && Still(a, a')
    ensures var b' := PruneLocals(cfg, b, subvols, local, cur);
            InStep(a', b', rest) && Ahead(a'.tape, b'.tape, rest)
  {
    PrunesFollow(cfg, b, subvols, local, cur);
    if b.tape.script == [] {
      PrunesStill(cfg, b, subvols, local, cur);
    }
    GoOn(a, b, a', PruneLocals(cfg, b, subvols, local, cur), rest);
  }

  lemma LoadSteps(a: World, b: World, rest: seq<Event>, fa: bool, fb: bool)
    requires InStep(a, b, rest) && rest != [] && (Level(a.tape, b.tape, rest) ==> fa == fb)
    ensures InStepS(Load(a, fa), Load(b, fb), rest)
  {
    if Level(a.tape, b.tape, rest) {
      NextSteps(a.tape, b.tape, rest);
    }
  }

  lemma ListAndLoadSteps(a: World, b: World, rest: seq<Event>, fa: bool, fb: bool)
    requires InStep(a, b, rest) && rest != [] && (Level(a.tape, b.tape, rest) ==> fa == fb)
    ensures var (x, la) := ListAndLoad(a, fa);
            var (y, lb) := ListAndLoad(b, fb);
            InStepS(x, y, rest) && (Together(x, y, rest) ==> la == lb)
  {
    if Level(a.tape, b.tape, rest) && a.tape.script != [] {
      NextSteps(a.tape, b.tape, rest);
      LoadSteps(a.(tape := Next(a.tape).1), b.(tape := Next(b.tape).1), rest, fa, fb);
    } else {
      ListRefused(a, b, rest, fa, fb);
    }
  }

  /** The one whose tape has run out does not get its listing. */
  lemma ListRefused(a: World, b: World, rest: seq<Event>, fa: bool, fb: bool)
    requires InStep(a, b, rest) && rest != [] && (Level(a.tape, b.tape, rest) ==> a.tape.script == [])
    ensures var x, y := ListAndLoad(a, fa).0, ListAndLoad(b, fb).0;
            InStep(x.w, y.w, rest) && Ahead(x.w.tape, y.w.tape, rest)
  {
    if Level(a.tape, b.tape, rest) {
      NextSteps(a.tape, b.tape, rest);
    }
    var a1, b1 := a.(tape := Next(a.tape).1), b.(tape := Next(b.tape).1);
    assert InStep(a1, b1, rest) && Ahead(a1.tape, b1.tape, rest);
    AheadAnyway(a1, b1, rest, fa, fb);
  }

  /** Reading the cursor file changes no disk, so it does not matter if one of them stops before it. */
  lemma AheadAnyway(a: World, b: World, rest: seq<Event>, fa: bool, fb: bool)
    requires InStep(a, b, rest) && Ahead(a.tape, b.tape, rest)
    ensures InStep(a, Load(b, fb).w, rest) && Ahead(a.tape, Load(b, fb).w.tape, rest)
    ensures InStep(Load(a, fa).w, b, rest) && Ahead(Load(a, fa).w.tape, b.tape, rest)
  {
  }

  lemma StartSteps(cfg: Config, a: World, b: World, rest: seq<Event>)
    requires Level(a.tape, b.tape, rest) && b == a.(tape := b.tape) && rest != []
    ensures var (x, la) := Start(cfg, a);
            var (y, lb) := Start(cfg, b);
            InStepS(x, y, rest) && (Together(x, y, rest) ==> la == lb)
  {
    var a0, b0 := a.(log := Log(false, {}, false)), b.(log := Log(false, {}, false));
    TakeSteps(a0, b0, rest, cfg.subvolumes, false);
    var (a1, fa) := TakeSnapshots(a0, cfg.subvolumes, false);
    var (b1, fb) := TakeSnapshots(b0, cfg.subvolumes, false);
    ListAndLoadSteps(a1, b1, rest, fa, fb);
  }

  /** The end of a cycle that may or may not have come as far as its slaves. */
  function FinishIf(cfg: Config, x: Session, listed: bool, local: Dir): World {
    if listed then Finish(cfg, x, local).0 else x.w
  }

  lemma FinishStill(cfg: Config, x: Session, listed: bool, local: Dir)
    requires x.w.tape.script == []
    ensures Still(x.w, FinishIf(cfg, x, listed, local))
  {
  }

  lemma FinishGoOn(cfg: Config, x: Session, y: Session, rest: seq<Event>, lx: bool, ly: bool, la: Dir, lb: Dir)
    requires InStep(x.w, y.w, rest) && Ahead(x.w.tape, y.w.tape, rest)
    ensures InStep(FinishIf(cfg, x, lx, la), FinishIf(cfg, y, ly, lb), rest)
  {
    FinishStill(cfg, x, lx, la);
    FinishFollows(cfg, y, lb);
    if y.w.tape.script == [] {
      FinishStill(cfg, y, ly, lb);
    }
    GoOn(x.w, y.w, FinishIf(cfg, x, lx, la), FinishIf(cfg, y, ly, lb), rest);
  }

  lemma FinishSteps(cfg: Config, x: Session, y: Session, rest: seq<Event>, local: Dir)
    requires Together(x, y, rest) && rest != []
    ensures InStep(FinishIf(cfg, x, true, local), FinishIf(cfg, y, true, local), rest)
  {
    NextSteps(x.w.tape, y.w.tape, rest);
    if x.w.tape.script == [] {
      LastSave(cfg, x, y, rest, local);
    } else {
      SavedInStep(cfg, x, y, rest);
      PrunesSteps(cfg, Written(cfg, x), Written(cfg, y), rest, cfg.subvolumes, local, x.cur);
      FinishIsWritten(cfg, x, local);
      FinishIsWritten(cfg, y, local);
    }
  }

  lemma FinishIsWritten(cfg: Config, x: Session, local: Dir)
    ensures FinishIf(cfg, x, true, local)
            == if Next(x.w.tape).0.outcome.Done? && x.w.log.loaded
               then PruneLocals(cfg, Written(cfg, x), cfg.subvolumes, local, x.cur) else Written(cfg, x)
  {
  }

  /** Both have saved, or both have not. */
  lemma SavedInStep(cfg: Config, x: Session, y: Session, rest: seq<Event>)
    requires Together(x, y, rest) && rest != [] && x.w.tape.script != []
    ensures Next(y.w.tape).0 == Next(x.w.tape).0 && y.cur == x.cur && y.w.log == x.w.log
    ensures Level(Written(cfg, x).tape, Written(cfg, y).tape, rest)
            && Written(cfg, y) == Written(cfg, x).(tape := Written(cfg, y).tape)
  {
    NextSteps(x.w.tape, y.w.tape, rest);
  }

  /** The save is the first command that only one of them runs. */
  lemma LastSave(cfg: Config, x: Session, y: Session, rest: seq<Event>, local: Dir)
    requires Together(x, y, rest) && rest != [] && x.w.tape.script == []
    ensures InStep(FinishIf(cfg, x, true, local), FinishIf(cfg, y, true, local), rest)
  {
    NextSteps(x.w.tape, y.w.tape, rest);
    var a, b := Written(cfg, x), Written(cfg, y);
    assert FinishIf(cfg, x, true, local) == a;
    assert DiskOf(b) == DiskOf(a).(file := b.file) && Ahead(a.tape, b.tape, rest);
    PrunesGoOn(cfg, a, b, rest, a, cfg.subvolumes, local, x.cur);
  }

  /** Two cycles that differ in how long their tapes are. */
  lemma CycleSteps(cfg: Config, w: World, s: seq<Event>, rest: seq<Event>)
    requires Connected(cfg, w) && rest != []
    ensures InStep(Cycle(cfg, w.(tape := Tape(s, false))).0, Cycle(cfg, w.(tape := Tape(s + rest, false))).0, rest)
  {
    var a, b := w.(tape := Tape(s, false)), w.(tape := Tape(s + rest, false));
    if cfg.slaves != [] {
      StartSteps(cfg, a, b, rest);
      var (x, la) := Start(cfg, a);
      var (y, lb) := Start(cfg, b);
      SlavesOrNot(cfg, x, y, la, lb, rest);
    }
  }

  function SlavesIf(cfg: Config, x: Session, listed: bool): (r: Session)
    requires Connected(cfg, x.w)
  {
    if listed then ReplicateSlaves(cfg, x, cfg.slaves, x.w.local) else x
  }

  lemma SlavesOrNot(cfg: Config, x: Session, y: Session, lx: bool, ly: bool, rest: seq<Event>)
    requires Connected(cfg, x.w) && Connected(cfg, y.w) && rest != []
    requires InStepS(x, y, rest) && (Together(x, y, rest) ==> lx == ly)
    ensures InStep(FinishIf(cfg, SlavesIf(cfg, x, lx), lx, x.w.local),
            FinishIf(cfg, SlavesIf(cfg, y, ly), ly, y.w.local), rest)
  {
    var x', y' := SlavesIf(cfg, x, lx), SlavesIf(cfg, y, ly);
    if Together(x, y, rest) {
      if lx {
        SlavesSteps(cfg, x, y, rest, cfg.slaves, x.w.local);
        if Together(x', y', rest) {
          FinishSteps(cfg, x', y', rest, x.w.local);
        } else {
          FinishGoOn(cfg, x', y', rest, lx, ly, x.w.local, y.w.local);
        }
      }
    } else {
      SlavesIfGoOn(cfg, x, y, lx, ly, rest);
      FinishGoOn(cfg, x', y', rest, lx, ly, x.w.local, y.w.local);
    }
  }

  lemma SlavesIfGoOn(cfg: Config, x: Session, y: Session, lx: bool, ly: bool, rest: seq<Event>)
    requires Connected(cfg, x.w) && Connected(cfg, y.w)
    requires InStep(x.w, y.w, rest) && Ahead(x.w.tape, y.w.tape, rest)
    ensures var x', y' := SlavesIf(cfg, x, lx), SlavesIf(cfg, y, ly);
            InStep(x'.w, y'.w, rest) && Ahead(x'.w.tape, y'.w.tape, rest)
  {
    SlavesStill(cfg, x, cfg.slaves, x.w.local);
    SlavesFollow(cfg, y, cfg.slaves, y.w.local);
    if y.w.tape.script == [] {
      SlavesStill(cfg, y, cfg.slaves, y.w.local);
    }
    GoOn(x.w, y.w, SlavesIf(cfg, x, lx).w, SlavesIf(cfg, y, ly).w, rest);
  }

  /** A cycle without a single event changes nothing. */
  lemma CycleStill(cfg: Config, w: World)
    requires Connected(cfg, w) && w.tape.script == []
    ensures DiskOf(Cycle(cfg, w).0) == DiskOf(w)
  {
    TakeStill(w.(log := Log(false, {}, false)), cfg.subvolumes, false);
  }

  /**
    One more event is one more command: from what a cycle leaves when it is cut off after `n` commands to what it
    leaves after n + 1, nothing has changed on any disk, or one snapshot came or went on one host, or the
    cursor file was replaced.
   */
  lemma OneMoreCommand(cfg: Config, w: World, script: seq<Event>, n: nat)
    requires Connected(cfg, w) && n < |script|
    ensures OneCommand(DiskOf(Cycle(cfg, w.(tape := Tape(script[..n], false))).0),
                       DiskOf(Cycle(cfg, w.(tape := Tape(script[..n + 1], false))).0))
  {
    assert script[..n + 1] == script[..n] + [script[n]];
    CycleSteps(cfg, w, script[..n], [script[n]]);
  }
}
