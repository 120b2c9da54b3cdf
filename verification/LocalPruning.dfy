/** The local prune plan: exactly what goes, what is held and why, and how much can stay. */
module LocalPruning {
  import opened Snapshots
  import opened CursorTable
  import opened Plan

  lemma {:induction false} HoldersExact(slaves: seq<string>, n: Name, over: bool, local: seq<Snapshot>, cur: Cursors,
                                        subvol: string, age: Age)
    ensures forall slave :: slave in Holders(slaves, n, over, local, cur, subvol, age) <==>
              var a := Anchor(local, cur, slave, subvol);
              slave in slaves && a.Some? && a.value.name == n && age.Over(a.value) == over
  {
    if slaves != [] {
      var rest := slaves[..|slaves| - 1];
      HoldersExact(rest, n, over, local, cur, subvol, age);
      assert slaves == rest + [slaves[|slaves| - 1]];
    }
  }

  predicate IsHeld(n: Name, local: seq<Snapshot>, subvol: string, slaves: seq<string>, cur: Cursors, age: Age) {
    Holders(slaves, n, false, local, cur, subvol, age) != []
  }

  function NamesIn(s: seq<Snapshot>): set<Name> {
    set x | x in s :: x.name
  }

  lemma NamesInLast(s: seq<Snapshot>)
    requires s != [] && Sorted(s)
    ensures NamesIn(s) == NamesIn(s[..|s| - 1]) + {s[|s| - 1].name}
    ensures s[|s| - 1].name !in NamesIn(s[..|s| - 1])
    ensures forall x :: x in s <==> x in s[..|s| - 1] || x == s[|s| - 1]
  {
    assert s == s[..|s| - 1] + [s[|s| - 1]];
    assert s[|s| - 1] in s;
  }

  lemma {:induction false} DeleteExact(past: seq<Snapshot>, local: seq<Snapshot>, subvol: string,
                                       slaves: seq<string>, cur: Cursors, age: Age)
    requires Sorted(past)
    ensures var delete := PlanUpTo(past, local, subvol, slaves, cur, age).delete;
            Sorted(delete) && forall x :: x in delete <==> x in past && !IsHeld(x.name, local, subvol, slaves, cur, age)
  {
    if past != [] {
      NamesInLast(past);
      var rest := past[..|past| - 1];
      DeleteExact(rest, local, subvol, slaves, cur, age);
      var d := PlanUpTo(rest, local, subvol, slaves, cur, age).delete;
      assert forall i | 0 <= i < |d| :: d[i] in rest;
    }
  }

  lemma {:induction false} HeldExact(past: seq<Snapshot>, local: seq<Snapshot>, subvol: string, slaves: seq<string>,
                                     cur: Cursors, age: Age)
    requires Sorted(past)
    ensures var p := PlanUpTo(past, local, subvol, slaves, cur, age);
            && (forall n :: n in p.held <==> n in NamesIn(past) && IsHeld(n, local, subvol, slaves, cur, age))
            && (forall n | n in p.held :: p.held[n] == Holders(slaves, n, false, local, cur, subvol, age))
            && |p.delete| + |p.held| == |past|
  {
    if past != [] {
      NamesInLast(past);
      HeldExact(past[..|past| - 1], local, subvol, slaves, cur, age);
    }
  }

  lemma {:induction false} ExpiredExact(past: seq<Snapshot>, local: seq<Snapshot>, subvol: string,
                                        slaves: seq<string>, cur: Cursors, age: Age)
    requires Sorted(past)
    ensures var p := PlanUpTo(past, local, subvol, slaves, cur, age);
            && (forall n :: n in p.expired <==>
                  n in NamesIn(past) && !IsHeld(n, local, subvol, slaves, cur, age)
                      && Holders(slaves, n, true, local, cur, subvol, age) != [])
            && (forall n | n in p.expired :: p.expired[n] == Holders(slaves, n, true, local, cur, subvol, age))
  {
    if past != [] {
      NamesInLast(past);
      ExpiredExact(past[..|past| - 1], local, subvol, slaves, cur, age);
    }
  }

  /** The names that some slave's anchor has. */
  function AnchorNames(slaves: seq<string>, local: seq<Snapshot>, cur: Cursors, subvol: string): set<Name> {
    set slave | slave in slaves && Anchor(local, cur, slave, subvol).Some? ::
        Anchor(local, cur, slave, subvol).value.name
  }

  lemma {:induction false} AnchorNamesCount(slaves: seq<string>, local: seq<Snapshot>, cur: Cursors, subvol: string)
    ensures |AnchorNames(slaves, local, cur, subvol)| <= |slaves|
  {
    if slaves != [] {
      var rest, slave := slaves[..|slaves| - 1], slaves[|slaves| - 1];
      AnchorNamesCount(rest, local, cur, subvol);
      assert slaves == rest + [slave];
      var a := Anchor(local, cur, slave, subvol);
      assert AnchorNames(slaves, local, cur, subvol) == AnchorNames(rest, local, cur, subvol) + if a.Some? then
          {a.value.name} else {};
    }
  }

  /**
    The plan splits the list: a snapshot is among the newest max(keep, 1), or held for a slave whose
    anchor it is, or deleted. The deleted ones come oldest first, and at most max(keep, 1) plus one
    per slave stay.
   */
  lemma LocalPruneExact(local: seq<Snapshot>, keep: int, subvol: string, slaves: seq<string>, cur: Cursors, age: Age)
    requires Sorted(local)
    ensures var p := LocalPrune(local, keep, subvol, slaves, cur, age);
            var cut := Past(|local|, keep);
            && Sorted(p.delete)
            && (forall i | 0 <= i < |local| ::
                  && (local[i] in p.delete <==> i < cut && local[i].name !in p.held)
                  && (local[i].name in p.held ==> i < cut && p.held[local[i].name] != []))
            && (forall x | x in p.delete :: x in local)
            && (forall n | n in p.held :: exists x :: x in local && x.name == n)
            && p.held.Keys !! p.expired.Keys
            && |local| - |p.delete| <= AtLeastOne(keep) + |slaves|
  {
    var cut := Past(|local|, keep);
    var past := local[..cut];
    DeleteExact(past, local, subvol, slaves, cur, age);
    HeldExact(past, local, subvol, slaves, cur, age);
    ExpiredExact(past, local, subvol, slaves, cur, age);
    var p := LocalPrune(local, keep, subvol, slaves, cur, age);
    forall i | 0 <= i < |local|
      ensures local[i] in p.delete <==> i < cut && local[i].name !in p.held
      ensures local[i].name in p.held ==> i < cut && p.held[local[i].name] != []
    {
      assert i < cut ==> local[i] in past;
      assert local[i].name in NamesIn(past) ==> i < cut;
    }
    forall n | n in p.held ensures n in AnchorNames(slaves, local, cur, subvol) {
      var h := Holders(slaves, n, false, local, cur, subvol, age);
      HoldersExact(slaves, n, false, local, cur, subvol, age);
      assert h[0] in h;
    }
    AnchorNamesCount(slaves, local, cur, subvol);
    SubsetSize(p.held.Keys, AnchorNames(slaves, local, cur, subvol));
  }

  /**
    The anchor of a configured slave is deleted exactly if it is past the newest max(keep, 1) and
    older than a positive age limit; then the plan reports it as expired for that slave. Without a
    limit no anchor is ever deleted.
   */
  lemma AnchorDeletedOnlyIfExpired(local: seq<Snapshot>, keep: int, subvol: string, slaves: seq<string>,
                                   cur: Cursors, age: Age, slave: string)
    requires Sorted(local) && slave in slaves && Anchor(local, cur, slave, subvol).Some?
    ensures var p := LocalPrune(local, keep, subvol, slaves, cur, age);
            var a := Anchor(local, cur, slave, subvol).value;
            && a in local
            && (a in p.delete <==>
                a in local[..Past(|local|, keep)] && age.limit > 0 && age.now - a.name.time > age.limit)
            && (a in p.delete ==> a.name in p.expired && slave in p.expired[a.name])
            && (a !in p.delete && a in local[..Past(|local|, keep)] ==> a.name in p.held && slave in p.held[a.name])
  {
    var past := local[..Past(|local|, keep)];
    FindBySendUuid(Get(cur, slave, subvol).value, local);
    DeleteExact(past, local, subvol, slaves, cur, age);
    HeldExact(past, local, subvol, slaves, cur, age);
    ExpiredExact(past, local, subvol, slaves, cur, age);
    HeldByAge(local, subvol, slaves, cur, age, slave);
  }

  /** The age of an anchor is its own: all slaves it is the anchor of have it held, or all have it expired. */
  lemma HeldByAge(local: seq<Snapshot>, subvol: string, slaves: seq<string>, cur: Cursors, age: Age, slave: string)
    requires slave in slaves && Anchor(local, cur, slave, subvol).Some?
    ensures var a := Anchor(local, cur, slave, subvol).value;
            && (IsHeld(a.name, local, subvol, slaves, cur, age) <==> !age.Over(a))
            && slave in Holders(slaves, a.name, age.Over(a), local, cur, subvol, age)
  {
    var a := Anchor(local, cur, slave, subvol).value;
    var kept := Holders(slaves, a.name, false, local, cur, subvol, age);
    assert kept == [] || kept[0] in kept;
    HoldersExact(slaves, a.name, false, local, cur, subvol, age);
    HoldersExact(slaves, a.name, true, local, cur, subvol, age);
  }
}
