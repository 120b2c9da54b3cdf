/**
  Snapshots as the planner sees them: the descriptor of `btrfs.go`, the order of a listing, and
  the one search every decision is made with, "the newest snapshot such that ...".
 */
module Snapshots {
  import opened Wrappers

  /** A btrfs UUID. Zero stands for the empty string, "no UUID". */
  type Uuid = nat

  /**
    A snapshot name. The text is prefix + subvolume + "_" + timestamp; module Naming shows that the
    text determines the subvolume and the time, so the pair is the name.
   */
  datatype Name = Name(subvol: string, time: int)

  /** What a host holds under a name. */
  datatype Copy = Copy(uuid: Uuid, receivedUuid: Uuid, readOnly: bool) {
    /** The UUID that btrfs send puts in the stream for this snapshot. */
    function SendUuid(): Uuid {
      if receivedUuid != 0 then receivedUuid else uuid
    }

    /** True of a complete received snapshot only: an interrupted receive leaves it writable. */
    predicate Received() {
      readOnly && receivedUuid != 0
    }
  }

  datatype Snapshot = Snapshot(name: Name, copy: Copy)

  /** Oldest first, and no two snapshots of one time: the order a listing returns. */
  predicate Sorted(s: seq<Snapshot>) {
    forall i, j | 0 <= i < j < |s| :: s[i].name.time < s[j].name.time
  }

  /** What a search asks of a snapshot. */
  datatype Want = ReadOnlyOne | ReceivedOne | SentAs(uuids: set<Uuid>)

  predicate Meets(s: Snapshot, want: Want) {
    match want
    case ReadOnlyOne => s.copy.readOnly
    case ReceivedOne => s.copy.Received()
    case SentAs(uuids) => s.copy.readOnly && s.copy.SendUuid() in uuids
  }

  /** The last snapshot of `s` that meets `want`. */
  function NewestOf(s: seq<Snapshot>, want: Want): Option<Snapshot> {
    if s == [] then None
    else if Meets(s[|s| - 1], want) then Some(s[|s| - 1])
    else NewestOf(s[..|s| - 1], want)
  }

  /** The search finds the greatest snapshot that meets `want`, and finds none only if there is none. */
  lemma {:induction false} NewestOfIsNewest(s: seq<Snapshot>, want: Want)
    requires Sorted(s)
    ensures NewestOf(s, want).None? <==> forall x | x in s :: !Meets(x, want)
    ensures NewestOf(s, want).Some? ==>
              var r := NewestOf(s, want).value;
              r in s && Meets(r, want) && forall x | x in s && Meets(x, want) :: x == r || x.name.time < r.name.time
  {
    if s != [] && !Meets(s[|s| - 1], want) {
      NewestOfIsNewest(s[..|s| - 1], want);
    }
  }

  lemma SubsetSize<T>(a: set<T>, b: set<T>)
    requires a <= b
    ensures |a| <= |b|
  {
    if a != {} {
      var x :| x in a;
      SubsetSize(a - {x}, b - {x});
    }
  }

  /** Two sorted lists of the same snapshots are the same list. */
  lemma {:induction false} SortedUnique(a: seq<Snapshot>, b: seq<Snapshot>)
    requires Sorted(a) && Sorted(b)
    requires forall x :: x in a <==> x in b
    ensures a == b
  {
    assert |b| == 0 || b[0] in a;
    if a != [] {
      assert a[0] in b;
      var x, y := a[|a| - 1], b[|b| - 1];
      assert x in b && y in a;
      assert x == y;
      var a', b' := a[..|a| - 1], b[..|b| - 1];
      forall z ensures z in a' <==> z in b' {
        assert z in a' <==> z in a && z != x;
        assert z in b' <==> z in b && z != x;
      }
      SortedUnique(a', b');
    }
  }
}
