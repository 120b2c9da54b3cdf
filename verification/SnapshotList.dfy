/**
  `Manager.Snapshots`: the snapshots of one subvolume picked out of a listing and sorted; and why the
  planner may take that for the listing of module Protocol.
 */
module SnapshotList {
  import opened Wrappers
  import opened Text
  import Paths
  import opened Naming
  import opened SubvolList
  import S = Snapshots
  import P = Protocol

  datatype Found = Found(name: string, time: int, info: Info)

  /** The manager's settings, and the time parser. */
  datatype Manager = Manager(prefix: string, snapshotDir: string, parse: Parse)

  predicate HasSuffix(s: string, suffix: string) {
    |suffix| <= |s| && s[|s| - |suffix|..] == suffix
  }

  function TrimLeft(s: string, c: char): string {
    if s != "" && s[0] == c then TrimLeft(s[1..], c) else s
  }

  /** The snapshot directory as it stands in a path, without slashes around it. */
  function DirPart(m: Manager): string {
    TrimLeft(TrimRight(Paths.Clean("/" + m.snapshotDir), '/'), '/')
  }

  /** Whether the entry is a snapshot of `subvol` in the snapshot directory, and its name and time then. */
  function Pick(m: Manager, subvol: string, info: Info): (r: Option<Found>) {
    var name := Paths.Base(info.path);
    if !HasSuffix("/" + info.path, "/" + DirPart(m) + "/" + name) then None
    else
      match TimeIn(m.parse, m.prefix, subvol, name)
      case None => None
      case Some(t) => Some(Found(name, t, info))
  }

  function Picks(m: Manager, subvol: string, infos: seq<Info>): seq<Found> {
    Collect((info: Info) => Pick(m, subvol, info), infos)
  }

  predicate InTimeOrder(s: seq<Found>) {
    forall i, j | 0 <= i < j < |s| :: s[i].time <= s[j].time
  }

  /** The place of `x` in a sorted list, after its equals. */
  method Place(s: seq<Found>, x: Found) returns (k: nat)
    requires InTimeOrder(s)
    ensures k <= |s| && (forall i | 0 <= i < k :: s[i].time <= x.time)
            && (forall i | k <= i < |s| :: x.time <= s[i].time)
  {
    k := |s|;
    while k > 0 && x.time < s[k - 1].time
      invariant k <= |s| && forall i | k <= i < |s| :: x.time <= s[i].time
    {
      k := k - 1;
    }
  }

  method Insert(s: seq<Found>, x: Found) returns (r: seq<Found>)
    requires InTimeOrder(s)
    ensures InTimeOrder(r) && multiset(r) == multiset(s) + multiset{x}
  {
    var k := Place(s, x);
    assert s == s[..k] + s[k..];
    r := s[..k] + [x] + s[k..];
  }

  method SortByTime(s: seq<Found>) returns (r: seq<Found>)
    ensures InTimeOrder(r) && multiset(r) == multiset(s)
  {
    r := [];
    for i := 0 to |s|
      invariant InTimeOrder(r) && multiset(r) == multiset(s[..i])
    {
      assert s[..i + 1] == s[..i] + [s[i]];
      r := Insert(r, s[i]);
    }
    assert s[..|s|] == s;
  }

  /** Returns exactly the snapshots of the subvolume in the snapshot directory, in time order. */
  method Snapshots(m: Manager, subvol: string, infos: seq<Info>) returns (snaps: seq<Found>)
    ensures InTimeOrder(snaps) && multiset(snaps) == multiset(Picks(m, subvol, infos))
    ensures forall f :: f in snaps <==> exists info :: info in infos && IsSnapshot(m, subvol, info, f)
  {
    snaps := [];
    for i := 0 to |infos|
      invariant snaps == Picks(m, subvol, infos[..i])
    {
      assert infos[..i + 1][..i] == infos[..i];
      var p := Pick(m, subvol, infos[i]);
      if p.Some? {
        snaps := snaps + [p.value];
      }
    }
    assert infos[..|infos|] == infos;
    ghost var picks := snaps;
    snaps := SortByTime(snaps);
    forall f ensures f in snaps <==> exists info :: info in infos && IsSnapshot(m, subvol, info, f) {
      assert f in snaps <==> f in multiset(picks);
      PicksExactly(m, subvol, infos, f);
    }
  }

  /** Subvolumes that differ after stripping "@" have no listed snapshot in common. */
  lemma ListsAreDisjoint(m: Manager, a: string, b: string, infos: seq<Info>, x: Found, y: Found)
    requires Sound(m.parse) && StripAt(a) != StripAt(b)
    requires x in Picks(m, a, infos) && y in Picks(m, b, infos)
    ensures x.name != y.name && x.info != y.info
  {
    CollectExactly((info: Info) => Pick(m, a, info), infos, x);
    CollectExactly((info: Info) => Pick(m, b, info), infos, y);
    if x.name == y.name {
      NameDetermines(m.parse, m.prefix, a, b, x.name);
    }
  }

  /* ---- where a snapshot is ---- */

  predicate EndsIn(a: seq<string>, b: seq<string>) {
    |b| <= |a| && a[|a| - |b|..] == b
  }

  lemma SuffixHasComponents(pre: string, q: string)
    ensures EndsIn(Split(pre + "/" + q, {'/'}), Split(q, {'/'}))
  {
    Paths.SplitTwo(pre, q);
  }

  lemma CutSuffix(p: string, q: string)
    requires HasSuffix("/" + p, "/" + q)
    ensures p == q || exists pre :: p == pre + "/" + q
  {
    var s, t := "/" + p, "/" + q;
    var n := |s| - |t|;
    assert s == s[..n] + t && p == s[1..];
    if n > 0 {
      assert p == s[..n][1..] + "/" + q;
    } else {
      assert q == t[1..];
    }
  }

  lemma SuffixAfterSlash(a: string, q: string)
    ensures HasSuffix("/" + (a + "/" + q), "/" + q)
  {
    var t := "/" + q;
    assert "/" + (a + "/" + q) == ("/" + a) + t;
  }

  lemma ComponentsAreSuffix(p: string, pre: seq<string>, q: string)
    requires Split(p, {'/'}) == pre + Split(q, {'/'})
    ensures HasSuffix("/" + p, "/" + q)
  {
    JoinSplit(p, '/');
    JoinSplit(q, '/');
    if pre != [] {
      JoinTwo(pre, Split(q, {'/'}), '/');
      SuffixAfterSlash(Join(pre, '/'), q);
      assert p == Join(pre, '/') + "/" + q;
    } else {
      assert pre + Split(q, {'/'}) == Split(q, {'/'});
    }
  }

  /** One path ends in another, from a slash on, exactly if its components end in those of the other. */
  lemma SuffixIsComponents(p: string, q: string)
    ensures HasSuffix("/" + p, "/" + q) <==> EndsIn(Split(p, {'/'}), Split(q, {'/'}))
  {
    var ps, qs := Split(p, {'/'}), Split(q, {'/'});
    if HasSuffix("/" + p, "/" + q) {
      CutSuffix(p, q);
      if pre :| p == pre + "/" + q {
        SuffixHasComponents(pre, q);
      }
    }
    if EndsIn(ps, qs) {
      var pre := ps[..|ps| - |qs|];
      assert ps == pre + qs;
      ComponentsAreSuffix(p, pre, q);
    }
  }

  /** The elements of the snapshot directory; a snapshot is an entry right in it. */
  function Directory(m: Manager): seq<string> {
    var st := Paths.Elements("/" + m.snapshotDir);
    if st == [] then [""] else st
  }

  lemma DirPartIsDirectory(m: Manager)
    ensures Split(DirPart(m), {'/'}) == Directory(m)
  {
    var p := "/" + m.snapshotDir;
    var st := Paths.Elements(p);
    Paths.CleanIdempotent(p);
    if st == [] {
      assert TrimRight("/", '/') == "";
      Paths.NothingReduces(true);
    } else {
      var j := Join(st, '/');
      Paths.JoinHead(st);
      Paths.SplitOfJoin(true, st);
      JoinEnds(st);
      assert ("/" + j)[1..] == j && TrimRight("/" + j, '/') == "/" + j && TrimLeft("/" + j, '/') == TrimLeft(j, '/');
    }
  }

  lemma {:induction false} JoinEnds(st: seq<string>)
    requires st != [] && forall c | c in st :: c != "" && Free(c, {'/'})
    ensures Join(st, '/') != "" && Join(st, '/')[|Join(st, '/')| - 1] != '/'
  {
    if |st| > 1 {
      assert forall c | c in st[1..] :: c in st;
      JoinEnds(st[1..]);
    } else {
      assert st[0] in st;
    }
  }

  /** The entry is at a path of the snapshot directory, under the name that `subvol` has at the time `f.time`. */
  ghost predicate IsSnapshot(m: Manager, subvol: string, info: Info, f: Found) {
    && f.info == info && EndsIn(Split(info.path, {'/'}), Directory(m) + [f.name])
    && exists ts :: f.name == SnapshotName(m.prefix, subvol, ts) && m.parse(ts) == Some(f.time)
  }

  lemma BaseIsLast(p: string, name: string)
    requires name != "" && name != "." && name != "/"
    ensures EndsIn(Split(p, {'/'}), [name]) ==> Paths.Base(p) == name
    ensures Paths.Base(p) == name ==> Free(name, {'/'}) && Split(name, {'/'}) == [name]
  {
    var comps := Split(p, {'/'});
    SplitIsFree(p, {'/'});
    if EndsIn(comps, [name]) {
      assert comps == comps[..|comps| - 1] + [name];
      NonEmptyAppend(comps[..|comps| - 1], [name]);
      assert NonEmpty([name][1..]) == [];
    }
    if Paths.Base(p) == name {
      NonEmptyIsAmong(comps);
      SplitPiece(name, "", '/', {'/'});
    }
  }

  lemma {:induction false} NonEmptyIsAmong(ws: seq<string>)
    ensures forall w | w in NonEmpty(ws) :: w in ws
  {
    if ws != [] {
      NonEmptyIsAmong(ws[1..]);
    }
  }

  /** The test of the path, for a name that is the base of it or its last component. */
  lemma InDirectory(m: Manager, p: string, name: string)
    requires Free(name, {'/'})
    ensures HasSuffix("/" + p, "/" + DirPart(m) + "/" + name) <==> EndsIn(Split(p, {'/'}), Directory(m) + [name])
  {
    var q := DirPart(m) + "/" + name;
    assert "/" + q == "/" + DirPart(m) + "/" + name;
    SuffixIsComponents(p, q);
    Paths.SplitTwo(DirPart(m), name);
    SplitPiece(name, "", '/', {'/'});
    DirPartIsDirectory(m);
  }

  /** The names that have a time are those of the subvolume, and have an underscore in them. */
  lemma TimeInExactly(m: Manager, subvol: string, name: string, t: int)
    ensures TimeIn(m.parse, m.prefix, subvol, name) == Some(t)
            <==> exists ts :: name == SnapshotName(m.prefix, subvol, ts) && m.parse(ts) == Some(t)
    ensures TimeIn(m.parse, m.prefix, subvol, name).Some? ==> name != "" && name != "." && name != "/"
  {
    var start := SnapshotName(m.prefix, subvol, "");
    assert start[|start| - 1] == '_';
    if start <= name {
      assert name[|start| - 1] == '_' && name == SnapshotName(m.prefix, subvol, name[|start|..]);
    }
    forall ts | name == SnapshotName(m.prefix, subvol, ts) ensures start <= name && name[|start|..] == ts {
      assert name == start + ts;
    }
  }

  /** `Pick` finds exactly the snapshots of the subvolume in the snapshot directory. */
  lemma PickExactly(m: Manager, subvol: string, info: Info, f: Found)
    ensures Pick(m, subvol, info) == Some(f) <==> IsSnapshot(m, subvol, info, f)
  {
    var name, comps := Paths.Base(info.path), Split(info.path, {'/'});
    TimeInExactly(m, subvol, f.name, f.time);
    if Pick(m, subvol, info) == Some(f) {
      BaseIsLast(info.path, name);
      InDirectory(m, info.path, name);
    }
    if IsSnapshot(m, subvol, info, f) {
      assert EndsIn(comps, [f.name]);
      BaseIsLast(info.path, f.name);
      InDirectory(m, info.path, f.name);
    }
  }

  lemma PicksExactly(m: Manager, subvol: string, infos: seq<Info>, f: Found)
    ensures f in Picks(m, subvol, infos) <==> exists info :: info in infos && IsSnapshot(m, subvol, info, f)
  {
    var pick := (info: Info) => Pick(m, subvol, info);
    CollectExactly(pick, infos, f);
    forall info | info in infos ensures pick(info) == Some(f) <==> IsSnapshot(m, subvol, info, f) {
      PickExactly(m, subvol, info, f);
    }
  }

  /* ---- the planner's view ---- */

  /** A numbering of the UUIDs, with 0 for the empty one. */
  ghost predicate Faithful(id: string -> S.Uuid) {
    id("") == 0 && forall u, v | id(u) == id(v) :: u == v
  }

  function CopyOf(id: string -> S.Uuid, info: Info): S.Copy {
    S.Copy(id(info.uuid), id(info.receivedUuid), info.readOnly)
  }

  /** The numbered copy is complete, and matches another as a parent, exactly when the listed one does. */
  lemma NumberingIsFaithful(id: string -> S.Uuid, a: Info, b: Info)
    requires Faithful(id)
    ensures CopyOf(id, a).Received() <==> a.readOnly && a.receivedUuid != ""
    ensures CopyOf(id, a).SendUuid() == CopyOf(id, b).receivedUuid
            <==> (if a.receivedUuid != "" then a.receivedUuid else a.uuid) == b.receivedUuid
  {
  }

  function SnapshotOf(id: string -> S.Uuid, subvol: string, x: Found): S.Snapshot {
    S.Snapshot(S.Name(subvol, x.time), CopyOf(id, x.info))
  }

  function SnapshotsOf(id: string -> S.Uuid, subvol: string, snaps: seq<Found>): (r: seq<S.Snapshot>)
    ensures |r| == |snaps| && forall i | 0 <= i < |snaps| :: r[i] == SnapshotOf(id, subvol, snaps[i])
  {
    seq(|snaps|, i requires 0 <= i < |snaps| => SnapshotOf(id, subvol, snaps[i]))
  }

  /** The snapshots found are the entries of `d` for the subvolume, one per name. */
  ghost predicate Shows(id: string -> S.Uuid, subvol: string, found: seq<Found>, d: P.Dir) {
    && (forall x | x in found :: S.Name(subvol, x.time) in d && d[S.Name(subvol, x.time)] == CopyOf(id, x.info))
    && (forall n | n in d && n.subvol == subvol :: exists x :: x in found && x.time == n.time)
    && (forall i, j | 0 <= i < j < |found| :: found[i].time != found[j].time)
  }

  /** Sorting changes nothing of it, and then no two times are equal. */
  lemma SortedShows(id: string -> S.Uuid, subvol: string, found: seq<Found>, sorted: seq<Found>, d: P.Dir)
    requires Shows(id, subvol, found, d) && InTimeOrder(sorted) && multiset(sorted) == multiset(found)
    ensures (forall x :: x in sorted <==> x in found) && forall i, j | 0 <= i < j < |sorted| ::
            sorted[i].time < sorted[j].time
  {
    forall x ensures x in sorted <==> x in found {
      assert x in sorted <==> x in multiset(sorted);
    }
    forall i, j | 0 <= i < j < |sorted| ensures sorted[i].time < sorted[j].time {
      if sorted[i].time == sorted[j].time {
        var x, y := sorted[i], sorted[j];
        assert x in found && y in found;
        if x == y {
          Twice(sorted, i, j);
          TwoPlaces(found, x);
        }
      }
    }
  }

  lemma Twice(s: seq<Found>, i: nat, j: nat)
    requires i < j < |s| && s[i] == s[j]
    ensures multiset(s)[s[i]] >= 2
  {
    assert s == s[..j] + s[j..] && s[i] in s[..j] && s[j] in s[j..];
  }

  lemma {:induction false} TwoPlaces(s: seq<Found>, x: Found)
    requires multiset(s)[x] >= 2
    ensures exists i, j :: 0 <= i < j < |s| && s[i] == x && s[j] == x
  {
    var i :| 0 <= i < |s| && s[i] == x;
    assert s == s[..i] + [x] + s[i + 1..];
    if x in s[..i] {
      var k :| 0 <= k < i && s[..i][k] == x;
      assert s[k] == x && s[i] == x;
    } else {
      assert multiset(s)[x] == multiset(s[..i])[x] + 1 + multiset(s[i + 1..])[x];
      assert x in s[i + 1..];
      var k :| 0 <= k < |s[i + 1..]| && s[i + 1..][k] == x;
      assert s[i] == x && s[i + 1 + k] == x;
    }
  }

  /** What btrfs lists of a host whose snapshot directory holds `d`: `where` tells which entry is which. */
  ghost predicate Lists(m: Manager, id: string -> S.Uuid, stamp: int -> string, infos: seq<Info>,
                        where: seq<Option<S.Name>>, d: P.Dir) {
    && |where| == |infos|
    && (forall t :: m.parse(stamp(t)) == Some(t))
    && (forall n | n in d :: exists i | 0 <= i < |where| :: where[i] == Some(n))
    && (forall i, j | 0 <= i < j < |where| && where[i].Some? :: where[i] != where[j])
    && (forall i | 0 <= i < |where| ::
          match where[i]
          case Some(n) => n in d && d[n] == CopyOf(id, infos[i]) && PrintedAt(m, stamp, infos[i], n)
          case None => Elsewhere(m, infos[i]))
  }

  /** The entry is printed with the path that the snapshot `n` has. */
  ghost predicate PrintedAt(m: Manager, stamp: int -> string, info: Info, n: S.Name) {
    EndsIn(Split(info.path, {'/'}), Directory(m) + [SnapshotName(m.prefix, n.subvol, stamp(n.time))])
  }

  /** The entry is not in the snapshot directory, or not under a name that any subvolume's snapshot can have. */
  ghost predicate Elsewhere(m: Manager, info: Info) {
    forall v, ts | m.parse(ts).Some? ::
      !EndsIn(Split(info.path, {'/'}), Directory(m) + [SnapshotName(m.prefix, v, ts)])
  }

  lemma SameLast(path: seq<string>, dir: seq<string>, a: string, b: string)
    requires EndsIn(path, dir + [a]) && EndsIn(path, dir + [b])
    ensures a == b
  {
    assert path[|path| - 1] == (dir + [a])[|dir|] == (dir + [b])[|dir|];
  }

  lemma NameHasTime(m: Manager, subvol: string, ts: string, t: int)
    requires m.parse(ts) == Some(t)
    ensures TimeIn(m.parse, m.prefix, subvol, SnapshotName(m.prefix, subvol, ts)) == Some(t)
  {
    var start := SnapshotName(m.prefix, subvol, "");
    assert SnapshotName(m.prefix, subvol, ts) == start + ts;
  }

  /** An entry that is picked is the one of the snapshot with that time. */
  lemma PickedIsListed(m: Manager, id: string -> S.Uuid, stamp: int -> string, infos: seq<Info>,
                       where: seq<Option<S.Name>>, d: P.Dir, subvol: string, i: nat, f: Found)
    requires Sound(m.parse) && Lists(m, id, stamp, infos, where, d) && i < |infos|
    requires forall n | n in d && StripAt(n.subvol) == StripAt(subvol) :: n.subvol == subvol
    requires Pick(m, subvol, infos[i]) == Some(f)
    ensures where[i] == Some(S.Name(subvol, f.time)) && f.info == infos[i]
  {
    PickExactly(m, subvol, infos[i], f);
    var ts :| f.name == SnapshotName(m.prefix, subvol, ts) && m.parse(ts) == Some(f.time);
    NameHasTime(m, subvol, ts, f.time);
    if where[i].None? {
      assert false;
    } else {
      var n := where[i].value;
      SameLast(Split(infos[i].path, {'/'}), Directory(m), f.name, SnapshotName(m.prefix, n.subvol, stamp(n.time)));
      NameHasTime(m, n.subvol, stamp(n.time), n.time);
      NameDetermines(m.parse, m.prefix, subvol, n.subvol, f.name);
    }
  }

  lemma ListedIsPicked(m: Manager, id: string -> S.Uuid, stamp: int -> string, infos: seq<Info>,
                       where: seq<Option<S.Name>>, d: P.Dir, n: S.Name)
    requires Lists(m, id, stamp, infos, where, d) && n in d
    ensures exists x :: x in Picks(m, n.subvol, infos) && x.time == n.time
  {
    var i :| 0 <= i < |where| && where[i] == Some(n);
    var f := Found(SnapshotName(m.prefix, n.subvol, stamp(n.time)), n.time, infos[i]);
    assert IsSnapshot(m, n.subvol, infos[i], f);
    PicksExactly(m, n.subvol, infos, f);
    assert infos[i] in infos && f in Picks(m, n.subvol, infos);
  }

  /** So the snapshots picked out of such a listing are the entries of the directory. */
  lemma ListsShows(m: Manager, id: string -> S.Uuid, stamp: int -> string, infos: seq<Info>,
                   where: seq<Option<S.Name>>, d: P.Dir, subvol: string)
    requires Sound(m.parse) && Lists(m, id, stamp, infos, where, d)
    requires forall n | n in d && StripAt(n.subvol) == StripAt(subvol) :: n.subvol == subvol
    ensures Shows(id, subvol, Picks(m, subvol, infos), d)
  {
    var pick := (info: Info) => Pick(m, subvol, info);
    var found := Picks(m, subvol, infos);
    forall x | x in found ensures S.Name(subvol, x.time) in d && d[S.Name(subvol, x.time)] == CopyOf(id, x.info) {
      CollectExactly(pick, infos, x);
      var info :| info in infos && pick(info) == Some(x);
      var i :| 0 <= i < |infos| && infos[i] == info;
      PickedIsListed(m, id, stamp, infos, where, d, subvol, i, x);
    }
    forall n | n in d && n.subvol == subvol ensures exists x :: x in found && x.time == n.time {
      ListedIsPicked(m, id, stamp, infos, where, d, n);
    }
    forall i, j | 0 <= i < j < |found| ensures found[i].time != found[j].time {
      CollectInOrder(pick, infos, i, j);
      var a, b :| 0 <= a < b < |infos| && pick(infos[a]) == Some(found[i]) && pick(infos[b]) == Some(found[j]);
      PickedIsListed(m, id, stamp, infos, where, d, subvol, a, found[i]);
      PickedIsListed(m, id, stamp, infos, where, d, subvol, b, found[j]);
    }
  }

  /**
    What `Snapshots` returns for a host is the listing of its snapshot directory that the protocol works on,
    whatever order btrfs lists the subvolumes in and whatever else there is on the filesystem.
   */
  lemma SnapshotsAreListing(m: Manager, id: string -> S.Uuid, stamp: int -> string, infos: seq<Info>,
                            where: seq<Option<S.Name>>, d: P.Dir, subvol: string, snaps: seq<Found>)
    requires Sound(m.parse) && Lists(m, id, stamp, infos, where, d)
    requires forall n | n in d && StripAt(n.subvol) == StripAt(subvol) :: n.subvol == subvol
    requires InTimeOrder(snaps) && multiset(snaps) == multiset(Picks(m, subvol, infos))
    ensures SnapshotsOf(id, subvol, snaps) == P.Listing(d, subvol)
  {
    ListsShows(m, id, stamp, infos, where, d, subvol);
    SortedShows(id, subvol, Picks(m, subvol, infos), snaps, d);
    FoundIsListing(id, subvol, Picks(m, subvol, infos), snaps, d);
  }

  lemma FoundIsListing(id: string -> S.Uuid, subvol: string, found: seq<Found>, snaps: seq<Found>, d: P.Dir)
    requires Shows(id, subvol, found, d) && (forall x :: x in snaps <==> x in found)
    requires forall i, j | 0 <= i < j < |snaps| :: snaps[i].time < snaps[j].time
    ensures SnapshotsOf(id, subvol, snaps) == P.Listing(d, subvol)
  {
    var a, b := SnapshotsOf(id, subvol, snaps), P.Listing(d, subvol);
    forall z ensures z in a <==> z in b {
      if z in a {
        var i :| 0 <= i < |a| && a[i] == z;
        assert snaps[i] in found;
      }
      if z in b {
        ListedIsFound(id, subvol, found, snaps, d, z);
      }
    }
    S.SortedUnique(a, b);
  }

  lemma ListedIsFound(id: string -> S.Uuid, subvol: string, found: seq<Found>, snaps: seq<Found>, d: P.Dir,
                      z: S.Snapshot)
    requires Shows(id, subvol, found, d) && (forall x :: x in snaps <==> x in found)
    requires z.name in d && z.copy == d[z.name] && z.name.subvol == subvol
    ensures z in SnapshotsOf(id, subvol, snaps)
  {
    var x :| x in found && x.time == z.name.time;
    assert x in snaps;
    var i :| 0 <= i < |snaps| && snaps[i] == x;
    assert SnapshotsOf(id, subvol, snaps)[i] == z;
  }
}
