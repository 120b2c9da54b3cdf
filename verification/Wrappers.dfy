/** An optional value, the model of a (value, ok) pair, and the loop that collects such values from a list. */
module Wrappers {
  datatype Option<+T> = None | Some(value: T)

  /** What `f` makes of the elements of `s` that it makes anything of, in order. */
  function Collect<T, U>(f: T -> Option<U>, s: seq<T>): seq<U> {
    if s == [] then []
    else
      var u := f(s[|s| - 1]);
      Collect(f, s[..|s| - 1]) + if u.Some? then [u.value] else []
  }

  lemma {:induction false} CollectExactly<T, U>(f: T -> Option<U>, s: seq<T>, u: U)
    ensures u in Collect(f, s) <==> exists t | t in s :: f(t) == Some(u)
  {
    if s != [] {
      var before, last := s[..|s| - 1], s[|s| - 1];
      CollectExactly(f, before, u);
      assert s == before + [last];
      assert last in s && forall t | t in before :: t in s;
    }
  }

  /** What is collected keeps its order. */
  lemma {:induction false} CollectInOrder<T, U>(f: T -> Option<U>, s: seq<T>, i: nat, j: nat)
    requires i < j < |Collect(f, s)|
    ensures exists a, b :: 0 <= a < b < |s| && f(s[a]) == Some(Collect(f, s)[i]) && f(s[b]) == Some(Collect(f, s)[j])
  {
    var before, last := s[..|s| - 1], s[|s| - 1];
    if j < |Collect(f, before)| {
      CollectInOrder(f, before, i, j);
      var a, b :| 0 <= a < b < |before| && f(before[a]) == Some(Collect(f, before)[i])
                  && f(before[b]) == Some(Collect(f, before)[j]);
      assert f(s[a]) == Some(Collect(f, s)[i]) && f(s[b]) == Some(Collect(f, s)[j]);
    } else {
      CollectExactly(f, before, Collect(f, before)[i]);
      var t :| t in before && f(t) == Some(Collect(f, before)[i]);
      var a :| 0 <= a < |before| && before[a] == t;
      assert f(s[a]) == Some(Collect(f, s)[i]) && f(s[|s| - 1]) == Some(Collect(f, s)[j]);
    }
  }

  /** What is left of `s` after the steps `ts`, in order. */
  function Fold<S, T>(f: (S, T) -> S, s: S, ts: seq<T>): S
    decreases |ts|
  {
    if ts == [] then s else Fold(f, f(s, ts[0]), ts[1..])
  }

  lemma {:induction false} FoldSplit<S, T>(f: (S, T) -> S, s: S, ts: seq<T>, i: nat)
    requires i <= |ts|
    ensures Fold(f, s, ts) == Fold(f, Fold(f, s, ts[..i]), ts[i..])
    decreases i
  {
    if i > 0 {
      FoldSplit(f, f(s, ts[0]), ts[1..], i - 1);
      assert ts[..i][1..] == ts[1..][..i - 1] && ts[1..][i - 1..] == ts[i..];
    }
  }

  lemma {:induction false} AboveAll(ns: set<int>) returns (top: int)
    ensures forall n | n in ns :: n < top
  {
    if x :| x in ns {
      var rest := AboveAll(ns - {x});
      assert forall n | n in ns :: n == x || n in ns - {x};
      top := if x < rest then rest else x + 1;
    } else {
      top := 0;
    }
  }
}
