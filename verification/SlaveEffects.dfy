/**
  What the turn of one subvolume on one slave does, exactly: which entries go, what arrives by which stream,
  where the cursor ends up, and when it is an error.
 */
module SlaveEffects {
  import opened Wrappers
  import opened Snapshots
  import opened CursorTable
  import opened Plan
  import opened Protocol
  import opened Safety
  import opened Replication
  import opened Effects

  /** How many of a list of `n` are past the newest max(keep, 1). */
  function TooMany(n: nat, keep: int): (k: nat)
    ensures k <= n
  {
    if n <= AtLeastOne(keep) then 0 else n - AtLeastOne(keep)
  }

  /**
    `d'` is `d` without the garbage whose delete took effect (commands 0 and on), with what arrived, and
    without those of the first `cut` of `list` whose delete took effect (commands `p` and on).
   */
  ghost predicate DirAfter(d: Dir, d': Dir, t: Tape, garbage: seq<Snapshot>, arrived: map<Name, Copy>,
                           list: seq<Snapshot>, cut: nat, p: nat)
    requires cut <= |list|
  {
    forall n ::
      && (n in d' <==> ((n in d && !Removed(t, 0, garbage, |garbage|, n)) || n in arrived)
                       && !Removed(t, p, list, cut, n))
      && (n in d' ==> d'[n] == if n in arrived then arrived[n] else d[n])
  }

  lemma RemovedAfter(t: Tape, p: nat, list: seq<Snapshot>, cut: nat, n: Name)
    requires cut <= |list|
    ensures Removed(After(t, p), 0, list[..cut], cut, n) == Removed(t, p, list, cut, n)
  {
    forall i | 0 <= i < cut ensures EventAt(After(t, p), i) == EventAt(t, p + i) && list[..cut][i] == list[i] {
      AfterAdds(t, p, i);
    }
  }

  /** The deletes of the first `cut` of the list, from command `p` on. */
  lemma SweepLater(d: Dir, t: Tape, p: nat, list: seq<Snapshot>, cut: nat)
    requires cut <= |list|
    ensures var (d', t') := Sweep(d, After(t, p), list[..cut]);
            && t' == After(t, p + cut) && Within(d', d)
            && forall n :: n in d' <==> n in d && !Removed(t, p, list, cut, n)
  {
    SweepExactly(d, After(t, p), list[..cut]);
    AfterAdds(t, p, cut);
    forall n ensures Removed(After(t, p), 0, list[..cut], cut, n) == Removed(t, p, list, cut, n) {
      RemovedAfter(t, p, list, cut, n);
    }
  }

  /** What arrives of `s`: nothing if its name is taken or the receive was refused. */
  function Arrives(d: Dir, s: Snapshot, id: Uuid, e: Event): map<Name, Copy> {
    if s.name in d || e.outcome.Refused? then map[] else map[s.name := Received(s, id, e.outcome)]
  }

  /** A complete copy under the sender's UUID, or, if it was cut off, a writable one that may have it or not. */
  function Received(s: Snapshot, id: Uuid, o: Outcome): Copy {
    Copy(id, if o.Partial? && !o.half then 0 else s.copy.SendUuid(), !o.Partial?)
  }

  lemma SendExactly(w: World, slave: string, s: Snapshot, parent: Option<Snapshot>)
    requires slave in w.remote && ParentThere(w.remote[slave], parent)
    ensures var (w', failed) := Send(w, slave, s, parent);
            var d, e := w.remote[slave], EventAt(w.tape, 0);
            var arrived := Arrives(d, s, w.nextId, e);
            && w'.remote == w.remote[slave := d + arrived] && w'.tape == After(w.tape, 1)
            && w' == w.(remote := w'.remote, tape := w'.tape, nextId := w'.nextId, streams := w'.streams)
            && w'.streams == w.streams + (if arrived == map[] then [] else [StreamOf(slave, s, parent)])
            && (failed <==> s.name in d || !e.outcome.Done?)
  {
    NextIsAfter(w.tape);
    var d, arrived := w.remote[slave], Arrives(w.remote[slave], s, w.nextId, EventAt(w.tape, 0));
    if arrived == map[] {
      assert d + arrived == d && w.remote[slave := d] == w.remote;
      assert s.name !in arrived;
    } else {
      assert s.name in arrived;
      assert d + arrived == d[s.name := arrived[s.name]];
    }
  }

  /** A send that was not done: nothing is pruned. */
  lemma DeliverFails(w: World, t: Tape, p: nat, slave: string, s: Snapshot, parent: Option<Snapshot>,
                     doomed: seq<Snapshot>)
    requires slave in w.remote && ParentThere(w.remote[slave], parent) && w.tape == After(t, p)
    requires s.name in w.remote[slave] || !DoneAt(t, p)
    ensures var (w', failed) := Deliver(w, slave, s, parent, doomed);
            var d, arrived := w.remote[slave], Arrives(w.remote[slave], s, w.nextId, EventAt(t, p));
            && failed && w'.remote[slave] == d + arrived && w'.tape == After(t, p + 1)
            && w'.streams == w.streams + (if arrived == map[] then [] else [StreamOf(slave, s, parent)])
  {
    AfterAdds(t, p, 0);
    AfterAdds(t, p, 1);
    SendExactly(w, slave, s, parent);
  }

  /** A send that was done, and the prune after it, from command `p` of the tape `t` on. */
  lemma DeliverWorks(w: World, t: Tape, p: nat, slave: string, s: Snapshot, parent: Option<Snapshot>,
                     list: seq<Snapshot>, cut: nat)
    requires slave in w.remote && ParentThere(w.remote[slave], parent) && w.tape == After(t, p) && cut <= |list|
    requires s.name !in w.remote[slave] && DoneAt(t, p)
    ensures var (w', failed) := Deliver(w, slave, s, parent, list[..cut]);
            var d, arrived := w.remote[slave], Arrives(w.remote[slave], s, w.nextId, EventAt(t, p));
            && !failed && DirAfter(d, w'.remote[slave], t, [], arrived, list, cut, p + 1)
            && w'.tape == After(t, p + 1 + cut) && w'.streams == w.streams + [StreamOf(slave, s, parent)]
  {
    AfterAdds(t, p, 0);
    AfterAdds(t, p, 1);
    SendExactly(w, slave, s, parent);
    var w1 := Send(w, slave, s, parent).0;
    var d, d1, arrived := w.remote[slave], w1.remote[slave], Arrives(w.remote[slave], s, w.nextId, EventAt(t, p));
    SweepLater(d1, t, p + 1, list, cut);
    SweptAfter(d, d1, Sweep(d1, w1.tape, list[..cut]).0, t, arrived, list, cut, p + 1);
  }

  lemma SweptAfter(d: Dir, d1: Dir, d2: Dir, t: Tape, arrived: map<Name, Copy>, list: seq<Snapshot>, cut: nat, p: nat)
    requires cut <= |list| && d1 == d + arrived && Within(d2, d1)
    requires forall n :: n in d2 <==> n in d1 && !Removed(t, p, list, cut, n)
    ensures DirAfter(d, d2, t, [], arrived, list, cut, p)
  {
  }

  /* ---- the turn ---- */

  predicate UpToDate(latest: Snapshot, parent: Option<Snapshot>) {
    parent.Some? && parent.value.name == latest.name
  }

  /** The name is free on the slave once the garbage has been deleted. */
  predicate Free(d: Dir, t: Tape, garbage: seq<Snapshot>, n: Name) {
    n in d ==> Removed(t, 0, garbage, |garbage|, n)
  }

  /** The send is issued, and is done. */
  predicate Sent(d: Dir, t: Tape, garbage: seq<Snapshot>, latest: Snapshot, parent: Option<Snapshot>) {
    !UpToDate(latest, parent) && Free(d, t, garbage, latest.name) && DoneAt(t, |garbage|)
  }

  /** What the turn leaves of the slave: the garbage goes, `latest` arrives, and if all is well the oldest go. */
  ghost predicate SlaveLeft(d: Dir, d': Dir, t: Tape, id: Uuid, garbage: seq<Snapshot>, complete: seq<Snapshot>,
                            latest: Snapshot, parent: Option<Snapshot>, keep: int) {
    var g := |garbage|;
    if UpToDate(latest, parent) then
      DirAfter(d, d', t, garbage, map[], complete, TooMany(|complete|, keep), g)
    else
      var list := complete + [latest];
      DirAfter(d, d', t, garbage, Arrived(d, t, id, garbage, latest), list,
        if Sent(d, t, garbage, latest, parent) then TooMany(|list|, keep) else 0, g + 1)
  }

  /** What arrives of the send that follows the garbage deletes. */
  function Arrived(d: Dir, t: Tape, id: Uuid, garbage: seq<Snapshot>, s: Snapshot): map<Name, Copy> {
    var e := EventAt(t, |garbage|);
    if !Free(d, t, garbage, s.name) || e.outcome.Refused? then map[]
    else map[s.name := Received(s, id, e.outcome)]
  }

  /** The stream is recorded exactly if something arrived, with the parent it was sent from. */
  predicate StreamLeft(x: World, r: World, slave: string, garbage: seq<Snapshot>, latest: Snapshot,
                       parent: Option<Snapshot>)
    requires slave in x.remote
  {
    r.streams == x.streams + if UpToDate(latest, parent)
        || Arrived(x.remote[slave], x.tape, x.nextId, garbage, latest) == map[] then []
      else [Stream(slave, latest.name, if parent.Some? then Some(parent.value.name) else None)]
  }

  predicate CursorLeft(c: Option<Cursor>, done: bool, latest: Snapshot, parent: Option<Snapshot>) {
    c == if done then Some(CursorOf(latest)) else if parent.Some? then Some(CursorOf(parent.value)) else None
  }

  lemma JoinDirs(d: Dir, d1: Dir, d2: Dir, t: Tape, garbage: seq<Snapshot>, arrived: map<Name, Copy>,
                 list: seq<Snapshot>, cut: nat, p: nat)
    requires cut <= |list| && Within(d1, d) && DirAfter(d1, d2, t, [], arrived, list, cut, p)
    requires forall n :: n in d1 <==> n in d && !Removed(t, 0, garbage, |garbage|, n)
    ensures DirAfter(d, d2, t, garbage, arrived, list, cut, p)
  {
    assert forall n :: !Removed(t, 0, [], 0, n);
  }

  lemma GarbageExactly(w: World, slave: string, garbage: seq<Snapshot>)
    requires slave in w.remote
    ensures var w1, d := SweepRemote(w, slave, garbage), w.remote[slave];
            && w1 == w.(remote := w1.remote, tape := After(w.tape, |garbage|)) && Within(w1.remote[slave], d)
            && forall n :: n in w1.remote[slave] <==> n in d && !Removed(w.tape, 0, garbage, |garbage|, n)
  {
    SweepExactly(w.remote[slave], w.tape, garbage);
  }

  lemma UpToDateExactly(cfg: Config, x: Session, slave: string, subvol: string, local: seq<Snapshot>,
                        remote: seq<Snapshot>, garbage: seq<Snapshot>, complete: seq<Snapshot>, latest: Snapshot,
                        parent: Option<Snapshot>)
    requires slave in x.w.remote && UpToDate(latest, parent)
    requires garbage == OfKind(remote, Uuids(local), Leftover) && complete == OfKind(remote, Uuids(local), Complete)
    requires NewestOf(local, ReadOnlyOne) == Some(latest) && parent == ParentOf(local, remote)
    ensures var r := ReplicateSubvol(cfg, x, slave, subvol, local, remote);
            && r.failed == x.failed && r.w.streams == x.w.streams && r.cur == Set(x.cur, slave, subvol, parent.value)
            && SlaveLeft(x.w.remote[slave], r.w.remote[slave], x.w.tape, x.w.nextId, garbage, complete, latest,
                         parent, cfg.keepReceiver)
            && r.w.tape == After(x.w.tape, |garbage| + TooMany(|complete|, cfg.keepReceiver))
  {
    GarbageExactly(x.w, slave, garbage);
    var w1, cut := SweepRemote(x.w, slave, garbage), TooMany(|complete|, cfg.keepReceiver);
    var d1 := w1.remote[slave];
    SweepLater(d1, x.w.tape, |garbage|, complete, cut);
    var d2 := Sweep(d1, w1.tape, complete[..cut]).0;
    SweptAfter(d1, d1, d2, x.w.tape, map[], complete, cut, |garbage|);
    JoinDirs(x.w.remote[slave], d1, d2, x.w.tape, garbage, map[], complete, cut, |garbage|);
  }

  /** A turn in which there is something to send is the deletes, the send and the prune. */
  lemma TurnDelivers(cfg: Config, x: Session, slave: string, subvol: string, local: seq<Snapshot>,
                     remote: seq<Snapshot>, latest: Snapshot, parent: Option<Snapshot>)
    requires slave in x.w.remote && !UpToDate(latest, parent)
    requires NewestOf(local, ReadOnlyOne) == Some(latest) && parent == ParentOf(local, remote)
    ensures var list := OfKind(remote, Uuids(local), Complete) + [latest];
            var (w2, failed) := Deliver(SweepRemote(x.w, slave, OfKind(remote, Uuids(local), Leftover)), slave, latest,
                parent, list[..TooMany(|list|, cfg.keepReceiver)]);
            var kept := Remember(x.cur, slave, subvol, parent);
            ReplicateSubvol(cfg, x, slave, subvol, local, remote)
            == if failed then Session(w2, kept, true) else Session(w2, Set(kept, slave, subvol, latest), x.failed)
  {
  }

  /** What arrives after the garbage deletes is what arrives of the send that follows them. */
  lemma ArrivedIsArrives(w: World, slave: string, garbage: seq<Snapshot>, latest: Snapshot)
    requires slave in w.remote
    ensures var w1, e := SweepRemote(w, slave, garbage), EventAt(w.tape, |garbage|);
            && Arrives(w1.remote[slave], latest, w1.nextId, e)
               == Arrived(w.remote[slave], w.tape, w.nextId, garbage, latest)
            && (Free(w.remote[slave], w.tape, garbage, latest.name) <==> latest.name !in w1.remote[slave])
  {
    GarbageExactly(w, slave, garbage);
  }

  /** What a delivery makes of the slave, after the garbage deletes. */
  lemma DeliveredSent(w: World, slave: string, garbage: seq<Snapshot>, complete: seq<Snapshot>, latest: Snapshot,
                      parent: Option<Snapshot>, keep: int)
    requires slave in w.remote && Sent(w.remote[slave], w.tape, garbage, latest, parent)
    requires ParentThere(SweepRemote(w, slave, garbage).remote[slave], parent)
    ensures var list := complete + [latest];
            var cut := TooMany(|list|, keep);
            var (w2, failed) := Deliver(SweepRemote(w, slave, garbage), slave, latest, parent, list[..cut]);
            && !failed && StreamLeft(w, w2, slave, garbage, latest, parent)
            && SlaveLeft(w.remote[slave], w2.remote[slave], w.tape, w.nextId, garbage, complete, latest, parent, keep)
            && w2.tape == After(w.tape, |garbage| + 1 + cut)
  {
    GarbageExactly(w, slave, garbage);
    ArrivedIsArrives(w, slave, garbage, latest);
    var w1, g, list := SweepRemote(w, slave, garbage), |garbage|, complete + [latest];
    var cut := TooMany(|list|, keep);
    var w2 := Deliver(w1, slave, latest, parent, list[..cut]).0;
    var arrived := Arrived(w.remote[slave], w.tape, w.nextId, garbage, latest);
    DeliverWorks(w1, w.tape, g, slave, latest, parent, list, cut);
    JoinDirs(w.remote[slave], w1.remote[slave], w2.remote[slave], w.tape, garbage, arrived, list, cut, g + 1);
    assert latest.name in arrived;
  }

  lemma DeliveredNot(w: World, slave: string, garbage: seq<Snapshot>, complete: seq<Snapshot>, latest: Snapshot,
                     parent: Option<Snapshot>, keep: int, doomed: seq<Snapshot>)
    requires slave in w.remote && !UpToDate(latest, parent)
    requires !Sent(w.remote[slave], w.tape, garbage, latest, parent)
    requires ParentThere(SweepRemote(w, slave, garbage).remote[slave], parent)
    ensures var (w2, failed) := Deliver(SweepRemote(w, slave, garbage), slave, latest, parent, doomed);
            && failed && StreamLeft(w, w2, slave, garbage, latest, parent)
            && SlaveLeft(w.remote[slave], w2.remote[slave], w.tape, w.nextId, garbage, complete, latest, parent, keep)
            && w2.tape == After(w.tape, |garbage| + 1)
  {
    GarbageExactly(w, slave, garbage);
    ArrivedIsArrives(w, slave, garbage, latest);
    var w1, g, list := SweepRemote(w, slave, garbage), |garbage|, complete + [latest];
    var d1, d2 := w1.remote[slave], Deliver(w1, slave, latest, parent, doomed).0.remote[slave];
    var arrived := Arrived(w.remote[slave], w.tape, w.nextId, garbage, latest);
    DeliverFails(w1, w.tape, g, slave, latest, parent, doomed);
    SweptAfter(d1, d2, d2, w.tape, arrived, list, 0, g + 1);
    JoinDirs(w.remote[slave], d1, d2, w.tape, garbage, arrived, list, 0, g + 1);
  }

  /** How many commands the turn takes. */
  function Commands(d: Dir, t: Tape, garbage: seq<Snapshot>, complete: seq<Snapshot>, latest: Snapshot,
                    parent: Option<Snapshot>, keep: int): nat {
    |garbage| + if UpToDate(latest, parent) then TooMany(|complete|, keep)
                else if Sent(d, t, garbage, latest, parent) then 1 + TooMany(|complete| + 1, keep)
                else 1
  }

  lemma TurnCursors(cur: Cursors, slave: string, subvol: string, latest: Snapshot, parent: Option<Snapshot>)
    ensures var kept := Remember(cur, slave, subvol, parent);
            && CursorLeft(Get(kept, slave, subvol), false, latest, parent)
            && CursorLeft(Get(Set(kept, slave, subvol, latest), slave, subvol), true, latest, parent)
            && (parent.Some? ==> kept == Set(cur, slave, subvol, parent.value))
  {
    SetGet(Remember(cur, slave, subvol, parent), slave, subvol, latest);
    if parent.Some? {
      SetGet(cur, slave, subvol, parent.value);
    } else {
      ClearGet(cur, slave, subvol);
    }
  }

  /**
    What the turn of a subvolume leaves, for every tape, when `latest` is what there is to send. It is an error
    exactly if a send was needed and was not done; then nothing is pruned, and the cursor stays at the parent.
   */
  ghost predicate TurnLeft(x: Session, r: Session, slave: string, subvol: string, garbage: seq<Snapshot>,
                           complete: seq<Snapshot>, latest: Snapshot, parent: Option<Snapshot>, keep: int)
    requires slave in x.w.remote && slave in r.w.remote
  {
    var d, t := x.w.remote[slave], x.w.tape;
    var done := UpToDate(latest, parent) || Sent(d, t, garbage, latest, parent);
    && (r.failed <==> x.failed || !done)
    && SlaveLeft(d, r.w.remote[slave], t, x.w.nextId, garbage, complete, latest, parent, keep)
    && StreamLeft(x.w, r.w, slave, garbage, latest, parent)
    && CursorLeft(Get(r.cur, slave, subvol), done, latest, parent)
    && r.w.tape == After(t, Commands(d, t, garbage, complete, latest, parent, keep))
  }

  lemma LeftUpToDate(x: Session, r: Session, slave: string, subvol: string, garbage: seq<Snapshot>,
                     complete: seq<Snapshot>, latest: Snapshot, parent: Option<Snapshot>, keep: int)
    requires slave in x.w.remote && slave in r.w.remote && parent == Some(latest)
    requires r.failed == x.failed && r.w.streams == x.w.streams && r.cur == Set(x.cur, slave, subvol, latest)
    requires SlaveLeft(x.w.remote[slave], r.w.remote[slave], x.w.tape, x.w.nextId, garbage, complete, latest, parent,
                       keep)
    requires r.w.tape == After(x.w.tape, |garbage| + TooMany(|complete|, keep))
    ensures TurnLeft(x, r, slave, subvol, garbage, complete, latest, parent, keep)
  {
    TurnCursors(x.cur, slave, subvol, latest, parent);
  }

  lemma LeftSent(x: Session, w2: World, slave: string, subvol: string, garbage: seq<Snapshot>,
                 complete: seq<Snapshot>, latest: Snapshot, parent: Option<Snapshot>, keep: int)
    requires slave in x.w.remote && slave in w2.remote && !UpToDate(latest, parent)
    requires SlaveLeft(x.w.remote[slave], w2.remote[slave], x.w.tape, x.w.nextId, garbage, complete, latest, parent,
                       keep)
    requires StreamLeft(x.w, w2, slave, garbage, latest, parent)
    requires w2.tape
             == After(x.w.tape, Commands(x.w.remote[slave], x.w.tape, garbage, complete, latest, parent, keep))
    ensures var kept := Remember(x.cur, slave, subvol, parent);
            TurnLeft(x,
              if Sent(x.w.remote[slave], x.w.tape, garbage, latest, parent)
              then Session(w2, Set(kept, slave, subvol, latest), x.failed) else Session(w2, kept, true),
              slave, subvol, garbage, complete, latest, parent, keep)
  {
    TurnCursors(x.cur, slave, subvol, latest, parent);
  }

  lemma TurnWithSend(cfg: Config, x: Session, slave: string, subvol: string, local: seq<Snapshot>,
                     remote: seq<Snapshot>, latest: Snapshot, parent: Option<Snapshot>)
    requires slave in x.w.remote && !UpToDate(latest, parent)
    requires NewestOf(local, ReadOnlyOne) == Some(latest) && parent == ParentOf(local, remote)
    requires ParentThere(SweepRemote(x.w, slave, OfKind(remote, Uuids(local), Leftover)).remote[slave], parent)
    ensures TurnLeft(x, ReplicateSubvol(cfg, x, slave, subvol, local, remote), slave, subvol,
              OfKind(remote, Uuids(local), Leftover), OfKind(remote, Uuids(local), Complete), latest, parent,
              cfg.keepReceiver)
  {
    var garbage, complete := OfKind(remote, Uuids(local), Leftover), OfKind(remote, Uuids(local), Complete);
    TurnDelivers(cfg, x, slave, subvol, local, remote, latest, parent);
    var list := complete + [latest];
    var doomed := list[..TooMany(|list|, cfg.keepReceiver)];
    var (w2, failed) := Deliver(SweepRemote(x.w, slave, garbage), slave, latest, parent, doomed);
    if Sent(x.w.remote[slave], x.w.tape, garbage, latest, parent) {
      DeliveredSent(x.w, slave, garbage, complete, latest, parent, cfg.keepReceiver);
    } else {
      DeliveredNot(x.w, slave, garbage, complete, latest, parent, cfg.keepReceiver, doomed);
    }
    LeftSent(x, w2, slave, subvol, garbage, complete, latest, parent, cfg.keepReceiver);
  }

  /** A parent under the name of the newest snapshot is the newest snapshot. */
  lemma ParentIsLatest(cfg: Config, w: World, slave: string, subvol: string, latest: Snapshot)
    requires Inv(cfg, w) && slave in w.remote && subvol in cfg.subvolumes
    requires NewestOf(Listing(w.local, subvol), ReadOnlyOne) == Some(latest)
    requires UpToDate(latest, ParentOf(Listing(w.local, subvol), Listing(w.remote[slave], subvol)))
    ensures ParentOf(Listing(w.local, subvol), Listing(w.remote[slave], subvol)) == Some(latest)
  {
    ParentIsCommon(cfg, w, slave, subvol);
    NewestOfIsNewest(Listing(w.local, subvol), ReadOnlyOne);
  }

  lemma TurnUpToDate(cfg: Config, x: Session, slave: string, subvol: string, local: seq<Snapshot>,
                     remote: seq<Snapshot>, latest: Snapshot)
    requires slave in x.w.remote
    requires NewestOf(local, ReadOnlyOne) == ParentOf(local, remote) == Some(latest)
    ensures TurnLeft(x, ReplicateSubvol(cfg, x, slave, subvol, local, remote), slave, subvol,
              OfKind(remote, Uuids(local), Leftover), OfKind(remote, Uuids(local), Complete), latest, Some(latest),
              cfg.keepReceiver)
  {
    var garbage, complete := OfKind(remote, Uuids(local), Leftover), OfKind(remote, Uuids(local), Complete);
    UpToDateExactly(cfg, x, slave, subvol, local, remote, garbage, complete, latest, Some(latest));
    LeftUpToDate(x, ReplicateSubvol(cfg, x, slave, subvol, local, remote), slave, subvol, garbage, complete, latest,
      Some(latest), cfg.keepReceiver);
  }

  /** That is what a turn leaves in every state in which the invariant holds. */
  lemma TurnExactly(cfg: Config, x: Session, slave: string, subvol: string, latest: Snapshot)
    requires Inv(cfg, x.w) && slave in x.w.remote && subvol in cfg.subvolumes
    requires NewestOf(Listing(x.w.local, subvol), ReadOnlyOne) == Some(latest)
    ensures var local, remote := Listing(x.w.local, subvol), Listing(x.w.remote[slave], subvol);
            TurnLeft(x, ReplicateSubvol(cfg, x, slave, subvol, local, remote), slave, subvol,
              OfKind(remote, Uuids(local), Leftover), OfKind(remote, Uuids(local), Complete), latest,
              ParentOf(local, remote), cfg.keepReceiver)
  {
    var local, remote := Listing(x.w.local, subvol), Listing(x.w.remote[slave], subvol);
    if UpToDate(latest, ParentOf(local, remote)) {
      ParentIsLatest(cfg, x.w, slave, subvol, latest);
      TurnUpToDate(cfg, x, slave, subvol, local, remote, latest);
    } else {
      SendsAreApplicable(cfg, x.w, slave, subvol);
      TurnWithSend(cfg, x, slave, subvol, local, remote, latest, ParentOf(local, remote));
    }
  }

  /** Without a local snapshot the garbage is deleted all the same, and then it is an error. */
  lemma TurnWithout(cfg: Config, x: Session, slave: string, subvol: string)
    requires Inv(cfg, x.w) && slave in x.w.remote && subvol in cfg.subvolumes && Listing(x.w.local, subvol) == []
    ensures var remote := Listing(x.w.remote[slave], subvol);
            var garbage, r := OfKind(remote, {}, Leftover), ReplicateSubvol(cfg, x, slave, subvol, [], remote);
            && r.failed && r.cur == x.cur && r.w.streams == x.w.streams
            && DirAfter(x.w.remote[slave], r.w.remote[slave], x.w.tape, garbage, map[], [], 0, |garbage|)
  {
    var garbage := OfKind(Listing(x.w.remote[slave], subvol), {}, Leftover);
    assert Uuids([]) == {};
    GarbageExactly(x.w, slave, garbage);
    assert forall n :: !Removed(x.w.tape, |garbage|, [], 0, n);
  }

  /** A turn that is an error has pruned nothing: every complete copy is still there. */
  lemma FailedTurnPrunesNothing(cfg: Config, x: Session, slave: string, subvol: string, latest: Snapshot, n: Name)
    requires Inv(cfg, x.w) && slave in x.w.remote && subvol in cfg.subvolumes && !x.failed
    requires NewestOf(Listing(x.w.local, subvol), ReadOnlyOne) == Some(latest)
    requires ReplicateSubvol(cfg, x, slave, subvol, Listing(x.w.local, subvol),
               Listing(x.w.remote[slave], subvol)).failed
    requires n in x.w.remote[slave] && x.w.remote[slave][n].Received()
    ensures var d' := ReplicateSubvol(cfg, x, slave, subvol, Listing(x.w.local, subvol),
                Listing(x.w.remote[slave], subvol)).w.remote[slave];
            n in d' && d'[n] == x.w.remote[slave][n]
  {
    var local, remote := Listing(x.w.local, subvol), Listing(x.w.remote[slave], subvol);
    var r := ReplicateSubvol(cfg, x, slave, subvol, local, remote);
    TurnExactly(cfg, x, slave, subvol, latest);
    PlannerView(cfg, x.w, slave, subvol, local, remote);
    KeptByFailure(x, r, slave, subvol, OfKind(remote, Uuids(local), Leftover), OfKind(remote, Uuids(local), Complete),
      latest, ParentOf(local, remote), cfg.keepReceiver, n);
  }

  lemma KeptByFailure(x: Session, r: Session, slave: string, subvol: string, garbage: seq<Snapshot>,
                      complete: seq<Snapshot>, latest: Snapshot, parent: Option<Snapshot>, keep: int, n: Name)
    requires slave in x.w.remote && slave in r.w.remote && !x.failed && r.failed
    requires TurnLeft(x, r, slave, subvol, garbage, complete, latest, parent, keep)
    requires n in x.w.remote[slave] && forall i | 0 <= i < |garbage| :: garbage[i].name != n
    ensures n in r.w.remote[slave] && r.w.remote[slave][n] == x.w.remote[slave][n]
  {
    var t := x.w.tape;
    assert !Removed(t, 0, garbage, |garbage|, n);
    assert !Removed(t, |garbage| + 1, complete + [latest], 0, n);
  }
}
