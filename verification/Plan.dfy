/** The decisions of `plan.go`: which parent to send from, what is garbage, and what to prune. */
module Plan {
  import opened Wrappers
  import opened Snapshots
  import opened CursorTable

  /* ---- the parent of a send ---- */

  function ReceivedUuids(remote: seq<Snapshot>): set<Uuid> {
    set s | s in remote && s.copy.Received() :: s.copy.receivedUuid
  }

  method LatestCommon(local: seq<Snapshot>, remote: seq<Snapshot>) returns (r: Option<Snapshot>)
    ensures r == NewestOf(local, SentAs(ReceivedUuids(remote)))
  {
    var received: set<Uuid> := {};
    for i := 0 to |remote|
      invariant received == ReceivedUuids(remote[..i])
    {
      if remote[i].copy.Received() {
        received := received + {remote[i].copy.receivedUuid};
      }
      assert remote[..i + 1] == remote[..i] + [remote[i]];
    }
    assert remote[..|remote|] == remote;
    r := FindNewest(local, SentAs(received));
  }

  method NewestReadOnly(snaps: seq<Snapshot>) returns (r: Option<Snapshot>)
    ensures r == NewestOf(snaps, ReadOnlyOne)
  {
    r := FindNewest(snaps, ReadOnlyOne);
  }

  /** The downward index loop that both searches above consist of. */
  method FindNewest(snaps: seq<Snapshot>, want: Want) returns (r: Option<Snapshot>)
    ensures r == NewestOf(snaps, want)
  {
    var i := |snaps|;
    assert snaps[..i] == snaps;
    while i > 0
      invariant 0 <= i <= |snaps|
      invariant NewestOf(snaps, want) == NewestOf(snaps[..i], want)
    {
      i := i - 1;
      assert snaps[..i + 1][..i] == snaps[..i];
      if Meets(snaps[i], want) {
        return Some(snaps[i]);
      }
    }
    return None;
  }

  /** A complete snapshot that was received under the UUID that `p` is sent under. */
  predicate IsCopyOf(s: Snapshot, p: Snapshot) {
    && s.copy.readOnly && s.copy.receivedUuid != 0
    && s.copy.receivedUuid == if p.copy.receivedUuid != 0 then p.copy.receivedUuid else p.copy.uuid
  }

  /** Read-only, and the one under whose UUID a complete snapshot of `remote` was received. */
  predicate IsCommon(p: Snapshot, remote: seq<Snapshot>) {
    p.copy.readOnly && exists s | s in remote :: IsCopyOf(s, p)
  }

  /** The parent is the newest common snapshot, and there is none only if no snapshot is common. */
  lemma CommonExactly(local: seq<Snapshot>, remote: seq<Snapshot>)
    requires Sorted(local)
    ensures var r := NewestOf(local, SentAs(ReceivedUuids(remote)));
            && (r.None? <==> forall p | p in local :: !IsCommon(p, remote))
            && (r.Some? ==> r.value in local && IsCommon(r.value, remote)
                            && forall p | p in local && IsCommon(p, remote) :: p.name.time <= r.value.name.time)
  {
    NewestOfIsNewest(local, SentAs(ReceivedUuids(remote)));
    forall p | p in local ensures Meets(p, SentAs(ReceivedUuids(remote))) <==> IsCommon(p, remote) {
      assert p.copy.SendUuid() in ReceivedUuids(remote) <==> exists s | s in remote :: IsCopyOf(s, p);
    }
  }

  /** What is sent is the newest read-only snapshot; what is promoted is the newest complete one. */
  lemma NewestExactly(snaps: seq<Snapshot>)
    requires Sorted(snaps)
    ensures var r := NewestOf(snaps, ReadOnlyOne);
            && (r.None? <==> forall p | p in snaps :: !p.copy.readOnly)
            && (r.Some? ==> r.value in snaps && r.value.copy.readOnly
                            && forall p | p in snaps && p.copy.readOnly :: p.name.time <= r.value.name.time)
    ensures var r := NewestOf(snaps, ReceivedOne);
            && (r.None? <==> forall p | p in snaps :: !(p.copy.readOnly && p.copy.receivedUuid != 0))
            && (r.Some? ==> r.value in snaps && r.value.copy.readOnly && r.value.copy.receivedUuid != 0
                            && forall p | p in snaps && p.copy.readOnly && p.copy.receivedUuid != 0 ::
                                 p.name.time <= r.value.name.time)
  {
    NewestOfIsNewest(snaps, ReadOnlyOne);
    NewestOfIsNewest(snaps, ReceivedOne);
  }

  /* ---- complete snapshots and garbage on a slave ---- */

  datatype Kind = Own | Complete | Leftover

  function KindOf(s: Snapshot, own: set<Uuid>): Kind {
    if s.copy.uuid in own then Own else if s.copy.Received() then Complete else Leftover
  }

  function Uuids(local: seq<Snapshot>): set<Uuid> {
    set s | s in local :: s.copy.uuid
  }

  function OfKind(remote: seq<Snapshot>, own: set<Uuid>, kind: Kind): seq<Snapshot> {
    if remote == [] then []
    else
      var s := remote[|remote| - 1];
      OfKind(remote[..|remote| - 1], own, kind) + if KindOf(s, own) == kind then [s] else []
  }

  method SplitRemote(remote: seq<Snapshot>, local: seq<Snapshot>)
    returns (complete: seq<Snapshot>, garbage: seq<Snapshot>)
    ensures complete == OfKind(remote, Uuids(local), Complete)
    ensures garbage == OfKind(remote, Uuids(local), Leftover)
  {
    var own: set<Uuid> := {};
    for i := 0 to |local|
      invariant own == Uuids(local[..i])
    {
      own := own + {local[i].copy.uuid};
      assert local[..i + 1] == local[..i] + [local[i]];
    }
    assert local[..|local|] == local;
    complete, garbage := [], [];
    for i := 0 to |remote|
      invariant complete == OfKind(remote[..i], own, Complete)
      invariant garbage == OfKind(remote[..i], own, Leftover)
    {
      assert remote[..i + 1][..i] == remote[..i];
      match KindOf(remote[i], own)
      case Own =>
      case Complete => complete := complete + [remote[i]];
      case Leftover => garbage := garbage + [remote[i]];
    }
    assert remote[..|remote|] == remote;
  }

  /** Splitting keeps the order and puts every snapshot where its kind says. */
  lemma {:induction false} OfKindExact(remote: seq<Snapshot>, own: set<Uuid>, kind: Kind)
    requires Sorted(remote)
    ensures Sorted(OfKind(remote, own, kind))
    ensures forall x :: x in OfKind(remote, own, kind) <==> x in remote && KindOf(x, own) == kind
  {
    if remote != [] {
      var rest := remote[..|remote| - 1];
      OfKindExact(rest, own, kind);
      var r := OfKind(rest, own, kind);
      forall i | 0 <= i < |r| ensures r[i].name.time < remote[|remote| - 1].name.time {
        assert r[i] in rest;
      }
    }
  }

  /** What counts as complete and what as garbage. */
  lemma KindsExactly(remote: seq<Snapshot>, local: seq<Snapshot>, x: Snapshot)
    requires Sorted(remote) && x in remote
    ensures x in OfKind(remote, Uuids(local), Complete)
            <==> x.copy.readOnly && x.copy.receivedUuid != 0 && forall y | y in local :: y.copy.uuid != x.copy.uuid
    ensures x in OfKind(remote, Uuids(local), Leftover)
            <==> !(x.copy.readOnly && x.copy.receivedUuid != 0) && forall y | y in local :: y.copy.uuid != x.copy.uuid
  {
    OfKindExact(remote, Uuids(local), Complete);
    OfKindExact(remote, Uuids(local), Leftover);
  }

  /** A slave address that points back at the master: nothing there is garbage, nothing is complete. */
  lemma OwnSnapshotsAreLeftAlone(local: seq<Snapshot>)
    requires Sorted(local)
    ensures OfKind(local, Uuids(local), Complete) == [] && OfKind(local, Uuids(local), Leftover) == []
  {
    var c, g := OfKind(local, Uuids(local), Complete), OfKind(local, Uuids(local), Leftover);
    assert |c| == 0 || c[0] in c;
    assert |g| == 0 || g[0] in g;
    OfKindExact(local, Uuids(local), Complete);
    OfKindExact(local, Uuids(local), Leftover);
  }

  /* ---- pruning ---- */

  function AtLeastOne(keep: int): (k: nat)
    ensures k >= 1 && k >= keep && (k == 1 || k == keep)
  {
    if keep > 1 then keep else 1
  }

  /** The length of the part of an n-element list that is past the newest `keep`. */
  function Past(n: nat, keep: int): (k: nat)
    ensures k <= n && (n > 0 ==> k < n) && n - k <= AtLeastOne(keep)
    ensures k > 0 ==> n - k == AtLeastOne(keep)
  {
    if n <= AtLeastOne(keep) then 0 else n - AtLeastOne(keep)
  }

  function PlanRemotePrune(complete: seq<Snapshot>, keep: int): seq<Snapshot> {
    complete[..Past(|complete|, keep)]
  }

  datatype LocalPrunePlan = LocalPrunePlan(
    delete: seq<Snapshot>,
    held: map<Name, seq<string>>,
    expired: map<Name, seq<string>>)

  /** The clock and age limit of one call; a limit of zero means no limit. */
  datatype Age = Age(limit: int, now: int) {
    predicate Over(s: Snapshot) {
      limit > 0 && now - s.name.time > limit
    }
  }

  /** The local snapshot that the cursor of (slave, subvol) points to. */
  function Anchor(local: seq<Snapshot>, cur: Cursors, slave: string, subvol: string): Option<Snapshot> {
    match Get(cur, slave, subvol)
    case None => None
    case Some(c) => Find(c, local)
  }

  /** The slaves, in order, whose anchor is `n` and whose anchor is over age or not, as asked. */
  function Holders(slaves: seq<string>, n: Name, over: bool, local: seq<Snapshot>, cur: Cursors, subvol: string,
                   age: Age): seq<string> {
    if slaves == [] then []
    else
      var slave := slaves[|slaves| - 1];
      var a := Anchor(local, cur, slave, subvol);
      Holders(slaves[..|slaves| - 1], n, over, local, cur, subvol, age)
      + if a.Some? && a.value.name == n && age.Over(a.value) == over then [slave] else []
  }

  /** `m` lists for each name the slaves whose anchor it is, over age or not as asked, and no name without any. */
  ghost predicate Tallies(m: map<Name, seq<string>>, slaves: seq<string>, over: bool, local: seq<Snapshot>,
                          cur: Cursors, subvol: string, age: Age) {
    && (forall n {:trigger Listed(m, n)} :: Listed(m, n) == Holders(slaves, n, over, local, cur, subvol, age))
    && forall n | n in m :: m[n] != []
  }

  function Add(m: map<Name, seq<string>>, n: Name, slave: string): map<Name, seq<string>> {
    m[n := Listed(m, n) + [slave]]
  }

  lemma TallyNext(m: map<Name, seq<string>>, slaves: seq<string>, slave: string, over: bool, local: seq<Snapshot>,
                  cur: Cursors, subvol: string, age: Age)
    requires Tallies(m, slaves, over, local, cur, subvol, age)
    ensures var a := Anchor(local, cur, slave, subvol);
            Tallies(if a.Some? && age.Over(a.value) == over then Add(m, a.value.name, slave)
                else m, slaves + [slave], over, local, cur, subvol, age)
  {
    var a := Anchor(local, cur, slave, subvol);
    var m' := if a.Some? && age.Over(a.value) == over then Add(m, a.value.name, slave) else m;
    assert (slaves + [slave])[..|slaves|] == slaves;
    forall n ensures Listed(m', n) == Holders(slaves + [slave], n, over, local, cur, subvol, age) {
      assert Listed(m, n) == Holders(slaves, n, over, local, cur, subvol, age);
    }
  }

  method AnchorOf(local: seq<Snapshot>, cur: Cursors, slave: string, subvol: string) returns (s: Option<Snapshot>)
    ensures s == Anchor(local, cur, slave, subvol)
  {
    var c := Get(cur, slave, subvol);
    if c.None? {
      return None;
    }
    s := FindSnapshot(c.value, local);
  }

  /** The first loop: the anchors of the slaves by name, those to be held and those over age. */
  method Anchors(local: seq<Snapshot>, subvol: string, slaves: seq<string>, cur: Cursors, age: Age)
    returns (anchors: map<Name, seq<string>>, expired: map<Name, seq<string>>)
    ensures Tallies(anchors, slaves, false, local, cur, subvol, age)
            && Tallies(expired, slaves, true, local, cur, subvol, age)
  {
    anchors, expired := map[], map[];
    for i := 0 to |slaves|
      invariant Tallies(anchors, slaves[..i], false, local, cur, subvol, age)
      invariant Tallies(expired, slaves[..i], true, local, cur, subvol, age)
    {
      assert slaves[..i + 1] == slaves[..i] + [slaves[i]];
      TallyNext(anchors, slaves[..i], slaves[i], false, local, cur, subvol, age);
      TallyNext(expired, slaves[..i], slaves[i], true, local, cur, subvol, age);
      var s := AnchorOf(local, cur, slaves[i], subvol);
      if s.Some? {
        if age.Over(s.value) {
          expired := Add(expired, s.value.name, slaves[i]);
        } else {
          anchors := Add(anchors, s.value.name, slaves[i]);
        }
      }
    }
    assert slaves[..|slaves|] == slaves;
  }

  method PlanLocalPrune(local: seq<Snapshot>, keep: int, subvol: string, slaves: seq<string>, cur: Cursors, age: Age)
    returns (plan: LocalPrunePlan)
    ensures plan == LocalPrune(local, keep, subvol, slaves, cur, age)
  {
    var anchors, expired := Anchors(local, subvol, slaves, cur, age);
    plan := LocalPrunePlan([], map[], map[]);
    for i := 0 to Past(|local|, keep)
      invariant plan == PlanUpTo(local[..i], local, subvol, slaves, cur, age)
    {
      var s := local[i];
      assert local[..i + 1][..i] == local[..i];
      assert Listed(anchors, s.name) == Holders(slaves, s.name, false, local, cur, subvol, age);
      assert Listed(expired, s.name) == Holders(slaves, s.name, true, local, cur, subvol, age);
      if s.name in anchors {
        plan := plan.(held := plan.held[s.name := anchors[s.name]]);
      } else {
        if s.name in expired {
          plan := plan.(expired := plan.expired[s.name := expired[s.name]]);
        }
        plan := plan.(delete := plan.delete + [s]);
      }
    }
  }

  function Listed(m: map<Name, seq<string>>, n: Name): seq<string> {
    if n in m then m[n] else []
  }

  function LocalPrune(local: seq<Snapshot>, keep: int, subvol: string, slaves: seq<string>, cur: Cursors,
                      age: Age): LocalPrunePlan {
    PlanUpTo(local[..Past(|local|, keep)], local, subvol, slaves, cur, age)
  }

  /** The plan for the snapshots `past`, which are past the newest `keep` of `local`. */
  function PlanUpTo(past: seq<Snapshot>, local: seq<Snapshot>, subvol: string, slaves: seq<string>, cur: Cursors,
                    age: Age): LocalPrunePlan {
    if past == [] then LocalPrunePlan([], map[], map[])
    else
      var s := past[|past| - 1];
      var plan := PlanUpTo(past[..|past| - 1], local, subvol, slaves, cur, age);
      var holders := Holders(slaves, s.name, false, local, cur, subvol, age);
      var late := Holders(slaves, s.name, true, local, cur, subvol, age);
      if holders != [] then plan.(held := plan.held[s.name := holders])
      else plan.(delete := plan.delete + [s], expired := if late != [] then plan.expired[s.name := late]
          else plan.expired)
  }
}
