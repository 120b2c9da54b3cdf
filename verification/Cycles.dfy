/** Whole cycles: what a cycle does to the slaves, to the cursors and to the local snapshots. */
module Cycles {
  import opened Wrappers
  import opened Snapshots
  import opened CursorTable
  import opened Protocol
  import opened Safety
  import opened Replication
  import Naming

  predicate Distinct(s: seq<string>) {
    forall i, j | 0 <= i < j < |s| :: s[i] != s[j]
  }

  /** The configured slaves are distinct, and so are the subvolumes, also without the "@" that names leave out. */
  predicate ValidConfig(cfg: Config) {
    Distinct(cfg.slaves) && DistinctNames(cfg.subvolumes)
  }

  predicate DistinctNames(subvols: seq<string>) {
    forall i, j | 0 <= i < j < |subvols| :: Naming.StripAt(subvols[i]) != Naming.StripAt(subvols[j])
  }

  lemma DistinctTail(s: seq<string>)
    requires s != [] && Distinct(s)
    ensures Distinct(s[1..]) && s[0] !in s[1..] && forall x :: x in s <==> x == s[0] || x in s[1..]
  {
    assert s == [s[0]] + s[1..];
  }

  /** The two directories agree on every name of `subvol`. */
  predicate SameOn(d: Dir, d': Dir, subvol: string) {
    && (forall n | n in d && n.subvol == subvol :: n in d' && d'[n] == d[n])
    && (forall n | n in d' && n.subvol == subvol :: n in d)
  }

  lemma ListingSameOn(d: Dir, d': Dir, subvol: string)
    requires SameOn(d, d', subvol)
    ensures Listing(d, subvol) == Listing(d', subvol)
  {
    SortedUnique(Listing(d, subvol), Listing(d', subvol));
  }

  /* ---- one slave ---- */

  /** The cursor of (slave, subvol) after the slave was reached; `infos` is the slave as it was listed. */
  ghost predicate CursorAfter(cur: Cursors, cur': Cursors, slave: string, subvol: string, local: Dir, infos: Dir,
                              d: Dir) {
    CursorOk(Get(cur, slave, subvol), Get(cur', slave, subvol), subvol, local, d,
             Listing(local, subvol) == [], ParentOf(Listing(local, subvol), Listing(infos, subvol)))
  }

  ghost predicate CursorOk(c: Option<Cursor>, c': Option<Cursor>, subvol: string, local: Dir, d: Dir, empty: bool,
                           parent: Option<Snapshot>) {
    && (empty ==> c' == c)
    && (!empty && c'.Some? ==> Backed(local, d, subvol, c'.value))
    && (parent.Some? ==> c'.Some? && parent.value.name.time <= c'.value.name.time)
  }

  ghost predicate SubvolsDone(cfg: Config, x: Session, r: Session, slave: string, subvols: seq<string>, infos: Dir)
    requires slave in x.w.remote && slave in r.w.remote
  {
    && Inv(cfg, r.w) && RemoteStep(cfg, x.w, r.w)
    && r.w.log == x.w.log && r.w.remote == x.w.remote[slave := r.w.remote[slave]]
    && (forall v {:trigger SameOn(x.w.remote[slave], r.w.remote[slave], v)} | v !in subvols ::
       SameOn(x.w.remote[slave], r.w.remote[slave], v))
    && CursorsAfter(x.cur, r.cur, slave, subvols, x.w.local, infos, r.w.remote[slave])
  }

  ghost predicate CursorsAfter(cur: Cursors, cur': Cursors, slave: string, subvols: seq<string>, local: Dir,
                               infos: Dir, d: Dir) {
    && (forall v {:trigger CursorAfter(cur, cur', slave, v, local, infos, d)} | v in subvols ::
       CursorAfter(cur, cur', slave, v, local, infos, d))
    && (forall s, v {:trigger Get(cur', s, v)} | s != slave || v !in subvols :: Get(cur', s, v) == Get(cur, s, v))
  }

  /** The listing of the slave is still true for the subvolumes that are to come. */
  ghost predicate Ready(cfg: Config, x: Session, slave: string, subvols: seq<string>, infos: Dir) {
    && Inv(cfg, x.w) && slave in x.w.remote && Distinct(subvols)
    && (forall v | v in subvols :: v in cfg.subvolumes)
    && (forall v {:trigger SameOn(infos, x.w.remote[slave], v)} | v in subvols :: SameOn(infos, x.w.remote[slave], v))
  }

  lemma ReadyNext(cfg: Config, x: Session, slave: string, subvols: seq<string>, infos: Dir)
    requires Ready(cfg, x, slave, subvols, infos) && subvols != []
    ensures var v := subvols[0];
            var x1 := ReplicateSubvol(cfg, x, slave, v, Listing(x.w.local, v), Listing(infos, v));
            && Ready(cfg, x1, slave, subvols[1..], infos) && x1.w.local == x.w.local
            && SubvolDone(cfg, x, x1, slave, v, Listing(x.w.local, v) == [],
               ParentOf(Listing(x.w.local, v), Listing(infos, v)))
  {
    var v := subvols[0];
    DistinctTail(subvols);
    assert SameOn(infos, x.w.remote[slave], v);
    ListingSameOn(infos, x.w.remote[slave], v);
    SubvolSafe(cfg, x, slave, v);
    var x1 := ReplicateSubvol(cfg, x, slave, v, Listing(x.w.local, v), Listing(infos, v));
    forall u | u in subvols[1..] ensures SameOn(infos, x1.w.remote[slave], u) {
      assert SameOn(infos, x.w.remote[slave], u);
      SameOnElsewhere(infos, x.w.remote[slave], x1.w.remote[slave], v, u);
    }
  }

  lemma SameOnElsewhere(infos: Dir, d: Dir, d1: Dir, v: string, u: string)
    requires SameOn(infos, d, u) && SameElsewhere(d, d1, v) && u != v
    ensures SameOn(infos, d1, u)
  {
  }

  lemma {:induction false} ReplicateSubvolsSafe(cfg: Config, x: Session, slave: string, subvols: seq<string>,
                                                infos: Dir)
    requires Ready(cfg, x, slave, subvols, infos)
    ensures SubvolsDone(cfg, x, ReplicateSubvols(cfg, x, slave, subvols, x.w.local, infos), slave, subvols, infos)
    decreases |subvols|
  {
    if subvols == [] {
      GrownRetainsAll(cfg, x.w);
    } else {
      ReadyNext(cfg, x, slave, subvols, infos);
      var x1 := ReplicateSubvol(cfg, x, slave, subvols[0], Listing(x.w.local, subvols[0]), Listing(infos, subvols[0]));
      ReplicateSubvolsSafe(cfg, x1, slave, subvols[1..], infos);
      SubvolsJoin(cfg, x, x1, ReplicateSubvols(cfg, x1, slave, subvols[1..], x.w.local, infos), slave, subvols, infos);
    }
  }

  lemma GrownRetainsAll(cfg: Config, w: World)
    ensures RemoteStep(cfg, w, w)
  {
  }

  lemma SubvolsJoin(cfg: Config, x: Session, x1: Session, r: Session, slave: string, subvols: seq<string>, infos: Dir)
    requires slave in x.w.remote && slave in x1.w.remote && slave in r.w.remote
    requires subvols != [] && Distinct(subvols)
    requires SubvolDone(cfg, x, x1, slave, subvols[0], Listing(x.w.local, subvols[0]) == [],
             ParentOf(Listing(x.w.local, subvols[0]), Listing(infos, subvols[0])))
    requires SubvolsDone(cfg, x1, r, slave, subvols[1..], infos)
    ensures SubvolsDone(cfg, x, r, slave, subvols, infos)
  {
    DistinctTail(subvols);
    RemoteStepTransitive(cfg, x.w, x1.w, r.w);
    var d, d1, d2 := x.w.remote[slave], x1.w.remote[slave], r.w.remote[slave];
    assert SameOn(d1, d2, subvols[0]);
    forall v | v !in subvols ensures SameOn(d, d2, v) {
      assert SameOn(d1, d2, v);
    }
    CursorsJoin(x.cur, x1.cur, r.cur, slave, subvols, x.w.local, infos, d1, d2);
  }

  lemma CursorsJoin(cur: Cursors, cur1: Cursors, cur2: Cursors, slave: string, subvols: seq<string>, local: Dir,
                    infos: Dir, d1: Dir, d2: Dir)
    requires subvols != [] && Distinct(subvols) && SameOn(d1, d2, subvols[0])
    requires CursorDone(cur, cur1, slave, subvols[0], local, d1, Listing(local, subvols[0]) == [],
             ParentOf(Listing(local, subvols[0]), Listing(infos, subvols[0])))
    requires CursorsAfter(cur1, cur2, slave, subvols[1..], local, infos, d2)
    ensures CursorsAfter(cur, cur2, slave, subvols, local, infos, d2)
  {
    DistinctTail(subvols);
    forall v | v in subvols ensures CursorAfter(cur, cur2, slave, v, local, infos, d2) {
      if v == subvols[0] {
        assert Get(cur2, slave, v) == Get(cur1, slave, v);
      } else {
        assert CursorAfter(cur1, cur2, slave, v, local, infos, d2);
      }
    }
  }

  /** A slave that was not reached: neither it nor its cursors changed. */
  ghost predicate Untouched(x: Session, r: Session, slave: string) {
    && (slave in x.w.remote ==> slave in r.w.remote && r.w.remote[slave] == x.w.remote[slave])
    && forall v :: Get(r.cur, slave, v) == Get(x.cur, slave, v)
  }

  ghost predicate Reached(cfg: Config, x: Session, r: Session, slave: string)
    requires slave in x.w.remote && slave in r.w.remote
  {
    && (forall v | v in cfg.subvolumes :: CursorAfter(x.cur, r.cur, slave, v, x.w.local, x.w.remote[slave],
       r.w.remote[slave]))
    && (forall v | v !in cfg.subvolumes :: Get(r.cur, slave, v) == Get(x.cur, slave, v))
  }

  lemma ReplicateSlaveSafe(cfg: Config, x: Session, slave: string)
    requires Inv(cfg, x.w) && slave in x.w.remote && ValidConfig(cfg) && slave !in x.w.log.reached
    ensures var r := ReplicateSlave(cfg, x, slave, x.w.local);
            && Inv(cfg, r.w) && RemoteStep(cfg, x.w, r.w)
            && (if slave in r.w.log.reached then Reached(cfg, x, r, slave)
               && r.w.log.reached == x.w.log.reached + {slave}
                else Untouched(x, r, slave) && r.w.log.reached == x.w.log.reached)
            && forall s | s != slave :: Untouched(x, r, s)
  {
    var (e, t) := Next(x.w.tape);
    var w := x.w.(tape := t);
    if e.outcome.Done? {
      var x1 := x.(w := w.(log := w.log.(reached := w.log.reached + {slave})));
      ReplicateSubvolsSafe(cfg, x1, slave, cfg.subvolumes, x.w.remote[slave]);
    }
  }

  /* ---- all slaves ---- */

  ghost predicate SlavesDone(cfg: Config, x: Session, r: Session, slaves: seq<string>)
    requires r.w.remote.Keys == x.w.remote.Keys && forall s | s in slaves :: s in x.w.remote
  {
    && Inv(cfg, r.w) && RemoteStep(cfg, x.w, r.w)
    && (forall s | s in r.w.log.reached :: s in x.w.log.reached || s in slaves)
    && (forall s | s in slaves :: if s in r.w.log.reached then Reached(cfg, x, r, s) else Untouched(x, r, s))
    && (forall s | s !in slaves :: Untouched(x, r, s))
  }

  lemma {:induction false} ReplicateSlavesSafe(cfg: Config, x: Session, slaves: seq<string>)
    requires Inv(cfg, x.w) && ValidConfig(cfg) && Distinct(slaves)
    requires forall s | s in slaves :: s in x.w.remote && s !in x.w.log.reached
    ensures SlavesDone(cfg, x, ReplicateSlaves(cfg, x, slaves, x.w.local), slaves)
    decreases |slaves|
  {
    if slaves == [] {
      GrownRetainsAll(cfg, x.w);
    } else {
      DistinctTail(slaves);
      ReplicateSlaveSafe(cfg, x, slaves[0]);
      var x1 := ReplicateSlave(cfg, x, slaves[0], x.w.local);
      ReplicateSlavesSafe(cfg, x1, slaves[1..]);
      SlavesJoin(cfg, x, x1, ReplicateSlaves(cfg, x1, slaves[1..], x.w.local), slaves);
    }
  }

  lemma SlavesJoin(cfg: Config, x: Session, x1: Session, r: Session, slaves: seq<string>)
    requires slaves != [] && Distinct(slaves)
    requires r.w.remote.Keys == x1.w.remote.Keys == x.w.remote.Keys
    requires forall s | s in slaves :: s in x.w.remote && s !in x.w.log.reached
    requires RemoteStep(cfg, x.w, x1.w)
    requires if slaves[0] in x1.w.log.reached then Reached(cfg, x, x1, slaves[0])
             && x1.w.log.reached == x.w.log.reached + {slaves[0]}
             else Untouched(x, x1, slaves[0]) && x1.w.log.reached == x.w.log.reached
    requires forall s | s != slaves[0] :: Untouched(x, x1, s)
    requires SlavesDone(cfg, x1, r, slaves[1..])
    ensures SlavesDone(cfg, x, r, slaves)
  {
    DistinctTail(slaves);
    RemoteStepTransitive(cfg, x.w, x1.w, r.w);
    forall s | s in slaves ensures if s in r.w.log.reached then Reached(cfg, x, r, s) else Untouched(x, r, s) {
      if s == slaves[0] {
        assert Untouched(x1, r, s);
        if s in x1.w.log.reached {
          assert Reached(cfg, x, x1, s);
          forall v | v in cfg.subvolumes ensures CursorAfter(x.cur, r.cur, s, v, x.w.local, x.w.remote[s],
              r.w.remote[s]) {
            assert CursorAfter(x.cur, x1.cur, s, v, x.w.local, x.w.remote[s], x1.w.remote[s]);
          }
        }
      } else {
        assert Untouched(x, x1, s);
        if s in r.w.log.reached {
          assert Reached(cfg, x1, r, s);
          forall v | v in cfg.subvolumes ensures CursorAfter(x.cur, r.cur, s, v, x.w.local, x.w.remote[s],
              r.w.remote[s]) {
            assert CursorAfter(x1.cur, r.cur, s, v, x1.w.local, x1.w.remote[s], r.w.remote[s]);
          }
        }
      }
    }
    forall s | s !in slaves ensures Untouched(x, r, s) {
      assert Untouched(x, x1, s) && Untouched(x1, r, s);
    }
  }
}
