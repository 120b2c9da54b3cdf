/** Every send of every run: the moment a cycle turns to a subvolume of a slave, and what holds then. */
module Sends {
  import opened Wrappers
  import opened Snapshots
  import opened CursorTable
  import opened Plan
  import opened Protocol
  import opened Safety
  import opened Replication
  import opened Cycles
  import opened Runs
  import opened Theorems
  import opened Convergence
  import opened Tapes

  /* ---- the moments of a cycle ---- */

  /** When the cycle comes to slave `i`. */
  function AtSlave(cfg: Config, w: World, i: nat): (x: Session)
    requires Connected(cfg, w) && i < |cfg.slaves|
    ensures x.w.remote.Keys == w.remote.Keys
  {
    ReplicateSlaves(cfg, BeforeSlaves(cfg, w), cfg.slaves[..i], BeforeSlaves(cfg, w).w.local)
  }

  /** When slave `i` has answered and the cycle comes to its subvolume `j`. */
  function AtSubvol(cfg: Config, w: World, i: nat, j: nat): (x: Session)
    requires Connected(cfg, w) && i < |cfg.slaves| && j < |cfg.subvolumes|
    ensures x.w.remote.Keys == w.remote.Keys
  {
    var s, slave := AtSlave(cfg, w, i), cfg.slaves[i];
    ReplicateSubvols(cfg, Opened(s, slave), slave, cfg.subvolumes[..j], BeforeSlaves(cfg, w).w.local, s.w.remote[slave])
  }

  /** The turn of one subvolume, as a step from session to session. */
  function SubvolStep(cfg: Config, slave: string, local: Dir, infos: Dir): (Session, string) -> Session {
    (x: Session, v: string) =>
      if slave in x.w.remote then ReplicateSubvol(cfg, x, slave, v, Listing(local, v), Listing(infos, v)) else x
  }

  lemma {:induction false} SubvolsFold(cfg: Config, x: Session, slave: string, subvols: seq<string>, local: Dir,
                                       infos: Dir)
    requires slave in x.w.remote
    ensures ReplicateSubvols(cfg, x, slave, subvols, local, infos)
            == Fold(SubvolStep(cfg, slave, local, infos), x, subvols)
    decreases |subvols|
  {
    if subvols != [] {
      var v := subvols[0];
      SubvolsFold(cfg, ReplicateSubvol(cfg, x, slave, v, Listing(local, v), Listing(infos, v)), slave, subvols[1..],
          local, infos);
    }
  }

  lemma SubvolsSplit(cfg: Config, x: Session, slave: string, subvols: seq<string>, j: nat, local: Dir, infos: Dir)
    requires slave in x.w.remote && j <= |subvols|
    ensures ReplicateSubvols(cfg, x, slave, subvols, local, infos)
            == ReplicateSubvols(cfg, ReplicateSubvols(cfg, x, slave, subvols[..j], local, infos), slave,
                subvols[j..], local, infos)
  {
    FoldSplit(SubvolStep(cfg, slave, local, infos), x, subvols, j);
    SubvolsFold(cfg, x, slave, subvols, local, infos);
    SubvolsFold(cfg, x, slave, subvols[..j], local, infos);
    SubvolsFold(cfg, ReplicateSubvols(cfg, x, slave, subvols[..j], local, infos), slave, subvols[j..], local, infos);
  }

  /** The turn of one slave, as a step from session to session. */
  function SlaveStep(cfg: Config, local: Dir): (Session, string) -> Session {
    (x: Session, slave: string) => if slave in x.w.remote then ReplicateSlave(cfg, x, slave, local) else x
  }

  lemma {:induction false} SlavesFold(cfg: Config, x: Session, slaves: seq<string>, local: Dir)
    requires forall s | s in slaves :: s in x.w.remote
    ensures ReplicateSlaves(cfg, x, slaves, local) == Fold(SlaveStep(cfg, local), x, slaves)
    decreases |slaves|
  {
    if slaves != [] {
      SlavesFold(cfg, ReplicateSlave(cfg, x, slaves[0], local), slaves[1..], local);
    }
  }

  lemma SlavesSplit(cfg: Config, x: Session, slaves: seq<string>, i: nat, local: Dir)
    requires i <= |slaves| && forall s | s in slaves :: s in x.w.remote
    ensures ReplicateSlaves(cfg, x, slaves, local)
            == ReplicateSlaves(cfg, ReplicateSlaves(cfg, x, slaves[..i], local), slaves[i..], local)
  {
    FoldSplit(SlaveStep(cfg, local), x, slaves, i);
    SlavesFold(cfg, x, slaves, local);
    SlavesFold(cfg, x, slaves[..i], local);
    SlavesFold(cfg, ReplicateSlaves(cfg, x, slaves[..i], local), slaves[i..], local);
  }

  /** These are moments of the cycle: going on from them with what is left gives the state after all slaves. */
  lemma MomentsOfCycle(cfg: Config, w: World, i: nat, j: nat)
    requires Connected(cfg, w) && i < |cfg.slaves| && j < |cfg.subvolumes|
    ensures var s, slave, local := AtSlave(cfg, w, i), cfg.slaves[i], BeforeSlaves(cfg, w).w.local;
            && AfterSlaves(cfg, w) == ReplicateSlaves(cfg, ReplicateSlave(cfg, s, slave, local), cfg.slaves[i + 1..],
               local)
            && (Next(s.w.tape).0.outcome.Done? ==>
                  ReplicateSlave(cfg, s, slave, local)
                  == ReplicateSubvols(cfg, AtSubvol(cfg, w, i, j), slave, cfg.subvolumes[j..], local,
                      s.w.remote[slave]))
  {
    var x, s, slave := BeforeSlaves(cfg, w), AtSlave(cfg, w, i), cfg.slaves[i];
    SlavesSplit(cfg, x, cfg.slaves, i, x.w.local);
    assert cfg.slaves[i..][1..] == cfg.slaves[i + 1..];
    SubvolsSplit(cfg, Opened(s, slave), slave, cfg.subvolumes, j, x.w.local, s.w.remote[slave]);
  }

  lemma PrefixIsDistinct(s: seq<string>, i: nat)
    requires Distinct(s) && i < |s|
    ensures Distinct(s[..i]) && s[i] !in s[..i] && forall x | x in s[..i] :: x in s
  {
  }

  /** The slaves before it leave this one, and everything local, as it was. */
  lemma NothingBeforeSlave(cfg: Config, w: World, i: nat)
    requires Inv(cfg, w) && ValidConfig(cfg) && i < |cfg.slaves|
    ensures var x0, s, slave := BeforeSlaves(cfg, w), AtSlave(cfg, w, i), cfg.slaves[i];
            Inv(cfg, s.w) && s.w.local == x0.w.local && Untouched(x0, s, slave) && slave !in s.w.log.reached
  {
    StartWaiting(cfg, w);
    PrefixIsDistinct(cfg.slaves, i);
    ReplicateSlavesSafe(cfg, BeforeSlaves(cfg, w), cfg.slaves[..i]);
  }

  /** What has been done before leaves this slave, and then this subvolume of it, as it was listed. */
  lemma NothingBefore(cfg: Config, w: World, i: nat, j: nat)
    requires Inv(cfg, w) && ValidConfig(cfg) && i < |cfg.slaves| && j < |cfg.subvolumes|
    ensures var x0, s, x, slave := BeforeSlaves(cfg, w), AtSlave(cfg, w, i), AtSubvol(cfg, w, i, j), cfg.slaves[i];
            && Inv(cfg, x.w) && x.w.local == x0.w.local
            && s.w.remote[slave] == x0.w.remote[slave] && SameOn(s.w.remote[slave], x.w.remote[slave],
               cfg.subvolumes[j])
  {
    NothingBeforeSlave(cfg, w, i);
    PrefixIsDistinct(cfg.subvolumes, j);
    SubvolsBefore(cfg, AtSlave(cfg, w, i), cfg.slaves[i], cfg.subvolumes[..j], cfg.subvolumes[j]);
  }

  lemma SubvolsBefore(cfg: Config, s: Session, slave: string, before: seq<string>, v: string)
    requires Inv(cfg, s.w) && ValidConfig(cfg) && slave in s.w.remote
    requires Distinct(before) && v !in before && forall u | u in before :: u in cfg.subvolumes
    ensures var x := ReplicateSubvols(cfg, Opened(s, slave), slave, before, s.w.local, s.w.remote[slave]);
            Inv(cfg, x.w) && x.w.local == s.w.local && SameOn(s.w.remote[slave], x.w.remote[slave], v)
  {
    OpenedReady(cfg, s, slave);
    ReplicateSubvolsSafe(cfg, Opened(s, slave), slave, before, s.w.remote[slave]);
  }

  /* ---- every send ---- */

  /** The slave holds a complete copy of the parent, if there is one, and it is older than what is sent. */
  predicate Applicable(d: Dir, parent: Option<Snapshot>, latest: Snapshot) {
    parent.Some? ==>
      var p := parent.value;
      && p.name in d && d[p.name].Received() && d[p.name].receivedUuid == p.copy.SendUuid()
      && (p.name == latest.name || p.name.time < latest.name.time)
  }

  /**
    In every cycle of every run, when a subvolume of a slave is replicated: the parent is chosen from the
    listing the slave gave at the start of its turn; and after the garbage deletions that follow, whatever
    becomes of them, what is sent applies.
   */
  lemma EverySendApplies(cfg: Config, w: World, scripts: seq<seq<Event>>, next: seq<Event>, i: nat, j: nat)
    requires Inv(cfg, w) && ValidConfig(cfg) && i < |cfg.slaves| && j < |cfg.subvolumes|
    ensures var w1, slave, v := Loaded(Run(cfg, w, scripts), next), cfg.slaves[i], cfg.subvolumes[j];
            var x, infos := AtSubvol(cfg, w1, i, j).w, AtSlave(cfg, w1, i).w.remote[slave];
            var local, remote := Listing(BeforeSlaves(cfg, w1).w.local, v), Listing(infos, v);
            var d := SweepRemote(x, slave, OfKind(remote, Uuids(local), Leftover)).remote[slave];
            var latest := NewestOf(local, ReadOnlyOne);
            latest.Some? ==> Applicable(d, ParentOf(local, remote), latest.value)
  {
    RunSafe(cfg, w, scripts);
    LoadedInv(cfg, Run(cfg, w, scripts), next);
    var w1 := Loaded(Run(cfg, w, scripts), next);
    NothingBefore(cfg, w1, i, j);
    var x := AtSubvol(cfg, w1, i, j).w;
    ListingSameOn(AtSlave(cfg, w1, i).w.remote[cfg.slaves[i]], x.remote[cfg.slaves[i]], cfg.subvolumes[j]);
    SendsAreApplicable(cfg, x, cfg.slaves[i], cfg.subvolumes[j]);
  }

  /**
    Offline catch-up at the moment of the send: after any number of cycles that keep the anchor, as those do in
    which the slave was away, the next cycle that gets its listing has a parent at least as new as the cursor
    was before them all.
   */
  lemma CatchUpIsIncremental(cfg: Config, w: World, scripts: seq<seq<Event>>, next: seq<Event>, i: nat, j: nat)
    requires Inv(cfg, w) && ValidConfig(cfg) && i < |cfg.slaves| && j < |cfg.subvolumes|
    requires HasAnchor(w, cfg.slaves[i], cfg.subvolumes[j]) && Throughout(cfg, w, scripts, Keeping(cfg.slaves[i]))
    requires YoungThroughout(cfg, scripts, Get(w.file, cfg.slaves[i], cfg.subvolumes[j]).value.name.time)
    ensures var w1, slave, v := Loaded(Run(cfg, w, scripts), next), cfg.slaves[i], cfg.subvolumes[j];
            var local, remote := Listing(BeforeSlaves(cfg, w1).w.local, v),
                Listing(AtSlave(cfg, w1, i).w.remote[slave], v);
            var parent := ParentOf(local, remote);
            parent.Some? && Get(w.file, slave, v).value.name.time <= parent.value.name.time
  {
    OfflineCatchUp(cfg, w, scripts, next, cfg.slaves[i], cfg.subvolumes[j]);
    RunSafe(cfg, w, scripts);
    LoadedInv(cfg, Run(cfg, w, scripts), next);
    NothingBefore(cfg, Loaded(Run(cfg, w, scripts), next), i, j);
  }
}
