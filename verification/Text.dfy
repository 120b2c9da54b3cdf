/** The string operations that the parsers and the path functions are built on. */
module Text {
  /** What `strings.Fields` and `strings.TrimSpace` take for white space. */
  predicate White(c: char) {
    || c == ' ' || '\t' <= c <= '\r' || c == '\U{0085}' || c == '\U{00A0}' || c == '\U{1680}'
    || '\U{2000}' <= c <= '\U{200A}' || c == '\U{2028}' || c == '\U{2029}' || c == '\U{202F}'
    || c == '\U{205F}' || c == '\U{3000}'
  }

  const WHITE: set<char> := set c: char | White(c)

  /** Splits at every separator; there is always at least one piece. */
  function Split(s: string, seps: set<char>): (r: seq<string>)
    ensures |r| > 0
  {
    if s == "" then [""]
    else
      var rest := Split(s[1..], seps);
      if s[0] in seps then [""] + rest else [[s[0]] + rest[0]] + rest[1..]
  }

  function Join(ws: seq<string>, sep: char): string {
    if ws == [] then ""
    else if |ws| == 1 then ws[0]
    else ws[0] + [sep] + Join(ws[1..], sep)
  }

  function NonEmpty(ws: seq<string>): seq<string> {
    if ws == [] then []
    else (if ws[0] != "" then [ws[0]] else []) + NonEmpty(ws[1..])
  }

  function Fields(s: string): seq<string> {
    NonEmpty(Split(s, WHITE))
  }

  /** No character of `w` is a separator. */
  predicate Free(w: string, seps: set<char>) {
    forall i | 0 <= i < |w| :: w[i] !in seps
  }

  /** A word of a line: not empty, and in one piece. */
  predicate Word(w: string) {
    w != "" && Free(w, WHITE)
  }

  lemma {:induction false} SplitPiece(w: string, rest: string, sep: char, seps: set<char>)
    requires Free(w, seps) && sep in seps
    ensures Split(w, seps) == [w]
    ensures Split(w + [sep] + rest, seps) == [w] + Split(rest, seps)
  {
    if w == "" {
      assert w + [sep] + rest == [sep] + rest;
      assert ([sep] + rest)[1..] == rest;
    } else {
      SplitPiece(w[1..], rest, sep, seps);
      assert (w + [sep] + rest)[1..] == w[1..] + [sep] + rest;
      assert w == [w[0]] + w[1..];
    }
  }

  /** Splitting undoes joining. */
  lemma {:induction false} SplitJoin(ws: seq<string>, sep: char, seps: set<char>)
    requires ws != [] && sep in seps && forall w | w in ws :: Free(w, seps)
    ensures Split(Join(ws, sep), seps) == ws
  {
    if |ws| == 1 {
      SplitPiece(ws[0], "", sep, seps);
    } else {
      SplitJoin(ws[1..], sep, seps);
      SplitPiece(ws[0], Join(ws[1..], sep), sep, seps);
      assert ws == [ws[0]] + ws[1..];
    }
  }

  /** Joining undoes splitting. */
  lemma {:induction false} JoinSplit(s: string, sep: char)
    ensures Join(Split(s, {sep}), sep) == s
  {
    if s != "" {
      JoinSplit(s[1..], sep);
      var rest := Split(s[1..], {sep});
      var all := Split(s, {sep});
      if s[0] == sep {
        assert all[1..] == rest;
      } else {
        assert all == [[s[0]] + rest[0]] + rest[1..] && all[1..] == rest[1..];
      }
      assert s == [s[0]] + s[1..];
    }
  }

  lemma {:induction false} JoinTwo(a: seq<string>, b: seq<string>, sep: char)
    requires a != [] && b != []
    ensures Join(a + b, sep) == Join(a, sep) + [sep] + Join(b, sep)
  {
    if |a| == 1 {
      assert (a + b)[1..] == b;
    } else {
      JoinTwo(a[1..], b, sep);
      assert (a + b)[1..] == a[1..] + b;
    }
  }

  lemma {:induction false} SplitIsFree(s: string, seps: set<char>)
    ensures forall w | w in Split(s, seps) :: Free(w, seps)
  {
    if s != "" {
      SplitIsFree(s[1..], seps);
      var rest := Split(s[1..], seps);
      assert rest[0] in rest;
    }
  }

  lemma Associate<T>(a: seq<T>, b: seq<T>, c: seq<T>)
    ensures a + (b + c) == (a + b) + c
  {
  }

  lemma {:induction false} NonEmptyAppend(a: seq<string>, b: seq<string>)
    ensures NonEmpty(a + b) == NonEmpty(a) + NonEmpty(b)
  {
    if a == [] {
      assert a + b == b;
    } else {
      NonEmptyAppend(a[1..], b);
      assert (a + b)[0] == a[0] && (a + b)[1..] == a[1..] + b;
      Associate(if a[0] != "" then [a[0]] else [], NonEmpty(a[1..]), NonEmpty(b));
    }
  }

  lemma {:induction false} NonEmptyAll(ws: seq<string>)
    requires forall w | w in ws :: w != ""
    ensures NonEmpty(ws) == ws
  {
    if ws != [] {
      assert forall w | w in ws[1..] :: w in ws;
      assert ws[0] in ws;
      NonEmptyAll(ws[1..]);
      assert ws == [ws[0]] + ws[1..];
    }
  }

  lemma {:induction false} JoinLast(ws: seq<string>, w: string, sep: char)
    requires ws != []
    ensures Join(ws + [w], sep) == Join(ws, sep) + [sep] + w
  {
    if |ws| == 1 {
      assert (ws + [w])[1..] == [w];
    } else {
      JoinLast(ws[1..], w, sep);
      assert (ws + [w])[1..] == ws[1..] + [w];
    }
  }

  /** Splitting two parts with a separator between them splits each. */
  lemma {:induction false} SplitAt(a: string, b: string, sep: char)
    ensures Split(a + [sep] + b, {sep}) == Split(a, {sep}) + Split(b, {sep})
  {
    if a == "" {
      assert a + [sep] + b == [sep] + b && ([sep] + b)[1..] == b;
    } else {
      SplitAt(a[1..], b, sep);
      assert (a + [sep] + b)[1..] == a[1..] + [sep] + b && (a + [sep] + b)[0] == a[0];
      var rest, after := Split(a[1..], {sep}), Split(b, {sep});
      Associate([""], rest, after);
      LongerFirst(a[0], rest, after);
    }
  }

  lemma LongerFirst(c: char, a: seq<string>, b: seq<string>)
    requires a != []
    ensures [[c] + (a + b)[0]] + (a + b)[1..] == [[c] + a[0]] + a[1..] + b
  {
  }

  /** The place of the first `c`, or the length of `s`. */
  function FirstOf(s: string, c: char): (i: nat)
    ensures i <= |s| && (forall k | 0 <= k < i :: s[k] != c) && (i < |s| ==> s[i] == c)
  {
    if s == "" || s[0] == c then 0 else FirstOf(s[1..], c) + 1
  }
}
