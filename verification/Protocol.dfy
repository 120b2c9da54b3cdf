/**
  One replication cycle of `replicator.go` as a function of the state of the world and of a tape of
  what happens to the commands it runs.

  Every fallible command takes one event off the tape. When the tape has run out the process is
  dead: every later command is refused and changes nothing. So a tape that ends early is a crash,
  and the state after any single command of a cycle is the outcome of the cycle on a shorter tape.
 */
module Protocol {
  import opened Wrappers
  import opened Snapshots
  import opened CursorTable
  import opened Plan

  /* ---- filesystems ---- */

  /** The snapshot directory of one host: at most one entry per name. */
  type Dir = map<Name, Copy>

  function NamesOf(d: Dir, subvol: string): set<Name> {
    set n | n in d && n.subvol == subvol
  }

  lemma OldestExists(names: set<Name>)
    requires names != {}
    ensures exists n :: n in names && forall m | m in names :: n.time <= m.time
  {
    var x :| x in names;
    if names != {x} {
      OldestExists(names - {x});
      var y :| y in names - {x} && forall m | m in names - {x} :: y.time <= m.time;
      assert forall m | m in names :: m == x || m in names - {x};
      if x.time <= y.time {
        assert forall m | m in names :: x.time <= m.time;
      } else {
        assert forall m | m in names :: y.time <= m.time;
      }
    } else {
      assert forall m | m in names :: x.time <= m.time;
    }
  }

  function InOrder(d: Dir, names: set<Name>, subvol: string): (s: seq<Snapshot>)
    requires names <= d.Keys && forall n | n in names :: n.subvol == subvol
    ensures Sorted(s)
    ensures forall x :: x in s <==> x.name in names && x.copy == d[x.name]
    decreases names
  {
    if names == {} then []
    else
      OldestExists(names);
      var n :| n in names && forall m | m in names :: n.time <= m.time;
      assert forall m | m in names - {n} :: n.time < m.time;
      [Snapshot(n, d[n])] + InOrder(d, names - {n}, subvol)
  }

  /** The listing of one subvolume, oldest first. */
  function Listing(d: Dir, subvol: string): (s: seq<Snapshot>)
    ensures Sorted(s)
    ensures forall x :: x in s <==> x.name in d && x.copy == d[x.name] && x.name.subvol == subvol
  {
    InOrder(d, NamesOf(d, subvol), subvol)
  }

  /* ---- what happens to a command ---- */

  /**
    Hidden: it took effect, but was reported as failed. Partial: a receive was cut off; it left a
    writable subvolume, with the received UUID already set (half) or not. Other commands read
    Partial as Refused.
   */
  datatype Outcome = Done | Hidden | Refused | Partial(half: bool)

  predicate Takes(o: Outcome) {
    o.Done? || o.Hidden?
  }

  /** What happens to one command, and what the clock says then. */
  datatype Event = Event(outcome: Outcome, now: int)

  datatype Tape = Tape(script: seq<Event>, dead: bool)

  function Next(t: Tape): (Event, Tape) {
    if t.script == [] then (Event(Refused, 0), t.(dead := true))
    else (t.script[0], t.(script := t.script[1..]))
  }

  /** What happens to the `i`th command of the tape; a tape that has run out refuses it. */
  function EventAt(t: Tape, i: nat): Event {
    if i < |t.script| then t.script[i] else Event(Refused, 0)
  }

  predicate DoneAt(t: Tape, i: nat) {
    EventAt(t, i).outcome.Done?
  }

  lemma NextIsFirst(t: Tape)
    ensures Next(t).0 == EventAt(t, 0) && forall i: nat :: EventAt(Next(t).1, i) == EventAt(t, i + 1)
  {
  }

  predicate AllDone(t: Tape) {
    forall e | e in t.script :: e.outcome.Done?
  }

  /* ---- the world ---- */

  datatype Config = Config(
    subvolumes: seq<string>,
    slaves: seq<string>,
    keepSender: int,
    keepReceiver: int,
    maxAnchorAge: int)

  /** What a cycle got done: read the cursor file, reached these slaves, replaced the cursor file. */
  datatype Log = Log(loaded: bool, reached: set<string>, saved: bool)

  /** A stream of which something arrived: to which slave, of which snapshot, and incremental from which parent. */
  datatype Stream = Stream(slave: string, name: Name, parent: Option<Name>)

  /** `file` is what the cursor file holds; a missing file holds no cursors. `streams` are all the streams so far. */
  datatype World = World(
    local: Dir,
    remote: map<string, Dir>,
    file: Cursors,
    nextId: Uuid,
    tape: Tape,
    log: Log,
    streams: seq<Stream>)

  /* ---- taking snapshots ---- */

  function Make(w: World, subvol: string, e: Event): World {
    if Takes(e.outcome) then
      var n := Name(subvol, e.now);
      w.(local := w.local[n := Copy(w.nextId, 0, true)], nextId := w.nextId + 1)
    else w
  }

  /** A name that is taken makes it wait for the next second, once. */
  function CreateSnapshot(w: World, subvol: string): (World, bool) {
    var (e, t) := Next(w.tape);
    if Name(subvol, e.now) !in w.local then
      (Make(w.(tape := t), subvol, e), !e.outcome.Done?)
    else
      var (e2, t2) := Next(t);
      if Name(subvol, e2.now) !in w.local then (Make(w.(tape := t2), subvol, e2), !e2.outcome.Done?)
      else (w.(tape := t2), true)
  }

  function TakeSnapshots(w: World, subvols: seq<string>, failed: bool): (r: (World, bool))
    ensures r.0.remote == w.remote && r.0.file == w.file && r.0.log == w.log
    decreases |subvols|
  {
    if subvols == [] then (w, failed)
    else
      var (w1, f) := CreateSnapshot(w, subvols[0]);
      TakeSnapshots(w1, subvols[1..], failed || f)
  }

  /* ---- deleting ---- */

  /** Deletes by name, one command each; a failed delete is only logged. */
  function Sweep(d: Dir, t: Tape, doomed: seq<Snapshot>): (Dir, Tape)
    decreases |doomed|
  {
    if doomed == [] then (d, t)
    else
      var (e, t1) := Next(t);
      Sweep(if Takes(e.outcome) then d - {doomed[0].name} else d, t1, doomed[1..])
  }

  function SweepRemote(w: World, slave: string, doomed: seq<Snapshot>): (r: World)
    requires slave in w.remote
    ensures r.remote.Keys == w.remote.Keys
  {
    var (d, t) := Sweep(w.remote[slave], w.tape, doomed);
    w.(remote := w.remote[slave := d], tape := t)
  }

  function SweepLocal(w: World, doomed: seq<Snapshot>): World {
    var (d, t) := Sweep(w.local, w.tape, doomed);
    w.(local := d, tape := t)
  }

  /* ---- sending ---- */

  /** An incremental stream needs a complete copy of its parent on the slave. */
  predicate ParentThere(d: Dir, parent: Option<Snapshot>) {
    parent.Some? ==> exists n | n in d :: d[n].Received() && d[n].receivedUuid == parent.value.copy.SendUuid()
  }

  /** What a receive of `s` leaves under its name, if anything. */
  function Arrival(s: Snapshot, id: Uuid, o: Outcome): Option<Copy> {
    match o
    case Done => Some(Copy(id, s.copy.SendUuid(), true))
    case Hidden => Some(Copy(id, s.copy.SendUuid(), true))
    case Partial(half) => Some(Copy(id, if half then s.copy.SendUuid() else 0, false))
    case Refused => None
  }

  function StreamOf(slave: string, s: Snapshot, parent: Option<Snapshot>): Stream {
    Stream(slave, s.name, if parent.Some? then Some(parent.value.name) else None)
  }

  /** Sends `s`; the receive fails without a trace when the name is taken or the parent is missing. */
  function Send(w: World, slave: string, s: Snapshot, parent: Option<Snapshot>): (r: (World, bool))
    requires slave in w.remote
    ensures r.0.remote.Keys == w.remote.Keys
  {
    var (e, t) := Next(w.tape);
    var d := w.remote[slave];
    var arrival := Arrival(s, w.nextId, e.outcome);
    if s.name in d || !ParentThere(d, parent) || arrival.None? then (w.(tape := t), true)
    else
      (w.(remote := w.remote[slave := d[s.name := arrival.value]], nextId := w.nextId + 1, tape := t,
          streams := w.streams + [StreamOf(slave, s, parent)]), !e.outcome.Done?)
  }

  /* ---- one subvolume to one slave ---- */

  /** The world, the cursors in memory, and whether anything failed so far. */
  datatype Session = Session(w: World, cur: Cursors, failed: bool)

  function ParentOf(local: seq<Snapshot>, remote: seq<Snapshot>): Option<Snapshot> {
    NewestOf(local, SentAs(ReceivedUuids(OfKind(remote, Uuids(local), Complete))))
  }

  function Remember(cur: Cursors, slave: string, subvol: string, parent: Option<Snapshot>): Cursors {
    match parent
    case None => Clear(cur, slave, subvol)
    case Some(p) => Set(cur, slave, subvol, p)
  }

  /** A send and, if it is reported as done, the prune after it. */
  function Deliver(w: World, slave: string, s: Snapshot, parent: Option<Snapshot>,
                   doomed: seq<Snapshot>): (r: (World, bool))
    requires slave in w.remote
    ensures r.0.remote.Keys == w.remote.Keys
  {
    var (w2, failed) := Send(w, slave, s, parent);
    if failed then (w2, true) else (SweepRemote(w2, slave, doomed), false)
  }

  /** The part of ReplicateSubvol after the leftovers are deleted. */
  function SendAndPrune(cfg: Config, x: Session, slave: string, subvol: string, local: seq<Snapshot>,
                        remote: seq<Snapshot>)
    : (r: Session)
    requires slave in x.w.remote
    ensures r.w.remote.Keys == x.w.remote.Keys
  {
    var complete := OfKind(remote, Uuids(local), Complete);
    match NewestOf(local, ReadOnlyOne)
    case None => Session(x.w, x.cur, true)
    case Some(latest) =>
      var parent := ParentOf(local, remote);
      var cur := Remember(x.cur, slave, subvol, parent);
      if parent.Some? && parent.value.name == latest.name then
        Session(SweepRemote(x.w, slave, PlanRemotePrune(complete, cfg.keepReceiver)), cur, x.failed)
      else
        var (w2, failed) := Deliver(x.w, slave, latest, parent, PlanRemotePrune(complete + [latest], cfg.keepReceiver));
        if failed then Session(w2, cur, true) else Session(w2, Set(cur, slave, subvol, latest), x.failed)
  }

  function ReplicateSubvol(cfg: Config, x: Session, slave: string, subvol: string, local: seq<Snapshot>,
                           remote: seq<Snapshot>)
    : (r: Session)
    requires slave in x.w.remote
    ensures r.w.remote.Keys == x.w.remote.Keys
  {
    var w1 := SweepRemote(x.w, slave, OfKind(remote, Uuids(local), Leftover));
    SendAndPrune(cfg, x.(w := w1), slave, subvol, local, remote)
  }

  /* ---- the whole cycle ---- */

  /** `infos` is the slave's directory as it was listed, once, for all subvolumes. */
  function ReplicateSubvols(cfg: Config, x: Session, slave: string, subvols: seq<string>, local: Dir,
                            infos: Dir): (r: Session)
    requires slave in x.w.remote
    ensures r.w.remote.Keys == x.w.remote.Keys
    decreases |subvols|
  {
    if subvols == [] then x
    else
      var x1 := ReplicateSubvol(cfg, x, slave, subvols[0], Listing(local, subvols[0]), Listing(infos, subvols[0]));
      ReplicateSubvols(cfg, x1, slave, subvols[1..], local, infos)
  }

  /** Connecting, preparing and listing are one command: none of them changes a snapshot. */
  function ReplicateSlave(cfg: Config, x: Session, slave: string, local: Dir): (r: Session)
    requires slave in x.w.remote
    ensures r.w.remote.Keys == x.w.remote.Keys
  {
    var (e, t) := Next(x.w.tape);
    var w := x.w.(tape := t);
    if !e.outcome.Done? then Session(w, x.cur, true)
    else
      var w1 := w.(log := w.log.(reached := w.log.reached + {slave}));
      ReplicateSubvols(cfg, x.(w := w1), slave, cfg.subvolumes, local, w.remote[slave])
  }

  function ReplicateSlaves(cfg: Config, x: Session, slaves: seq<string>, local: Dir): (r: Session)
    requires forall slave | slave in slaves :: slave in x.w.remote
    ensures r.w.remote.Keys == x.w.remote.Keys
    decreases |slaves|
  {
    if slaves == [] then x
    else ReplicateSlaves(cfg, ReplicateSlave(cfg, x, slaves[0], local), slaves[1..], local)
  }

  function PruneLocal(cfg: Config, w: World, subvol: string, local: seq<Snapshot>, cur: Cursors): (r: World)
    ensures r == w.(local := r.local, tape := r.tape)
  {
    var (e, t) := Next(w.tape);
    var plan := LocalPrune(local, cfg.keepSender, subvol, cfg.slaves, cur, Age(cfg.maxAnchorAge, e.now));
    SweepLocal(w.(tape := t), plan.delete)
  }

  function PruneLocals(cfg: Config, w: World, subvols: seq<string>, local: Dir, cur: Cursors): (r: World)
    ensures r == w.(local := r.local, tape := r.tape)
    decreases |subvols|
  {
    if subvols == [] then w
    else PruneLocals(cfg, PruneLocal(cfg, w, subvols[0], Listing(local, subvols[0]), cur), subvols[1..], local, cur)
  }

  /** The slaves are filesystems that exist. */
  predicate Connected(cfg: Config, w: World) {
    forall slave | slave in cfg.slaves :: slave in w.remote
  }

  /** Reads the cursor file; one that cannot be read is taken for one without cursors. */
  function Load(w: World, failed: bool): Session {
    var (e, t) := Next(w.tape);
    var loaded := e.outcome.Done?;
    Session(w.(tape := t, log := w.log.(loaded := loaded)), if loaded then w.file else map[], failed)
  }

  function ListAndLoad(w: World, failed: bool): (Session, bool) {
    var (e, t) := Next(w.tape);
    if !e.outcome.Done? then (Session(w.(tape := t), map[], true), false) else (Load(w.(tape := t), failed), true)
  }

  /** After the snapshots are taken and listed and the cursors are read; false when it stops there. */
  function Start(cfg: Config, w: World): (r: (Session, bool))
    ensures r.0.w.remote == w.remote
  {
    var (w1, failed) := TakeSnapshots(w.(log := Log(false, {}, false)), cfg.subvolumes, false);
    ListAndLoad(w1, failed)
  }

  /** Saves the cursors, then prunes locally, unless the cursors were not read or not saved. */
  function Finish(cfg: Config, x: Session, local: Dir): (r: (World, bool))
    ensures r.0.remote == x.w.remote
  {
    var (e, t) := Next(x.w.tape);
    var w := x.w.(tape := t);
    var w1 := if Takes(e.outcome) then w.(file := Saved(x.cur, cfg.slaves), log := w.log.(saved := true)) else w;
    if !e.outcome.Done? || !w.log.loaded then (w1, true)
    else (PruneLocals(cfg, w1, cfg.subvolumes, local, x.cur), x.failed)
  }

  /** One cycle: the world after it, and whether it returned an error. */
  function Cycle(cfg: Config, w: World): (r: (World, bool))
    requires Connected(cfg, w)
    ensures r.0.remote.Keys == w.remote.Keys
  {
    if cfg.slaves == [] then (w.(log := Log(false, {}, false)), false)
    else
      var (x, listed) := Start(cfg, w);
      if !listed then (x.w, true)
      else Finish(cfg, ReplicateSlaves(cfg, x, cfg.slaves, x.w.local), x.w.local)
  }

  /** The world after one cycle for each script, oldest first. */
  function Run(cfg: Config, w: World, scripts: seq<seq<Event>>): (r: World)
    requires Connected(cfg, w)
    ensures r.remote.Keys == w.remote.Keys
  {
    if scripts == [] then w
    else
      var w1 := Run(cfg, w, scripts[..|scripts| - 1]);
      Cycle(cfg, w1.(tape := Tape(scripts[|scripts| - 1], false))).0
  }
}
