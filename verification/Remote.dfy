/** The commands of `remote.go`: quoting, the builders, and the filter that lets them through. */
module Remote {
  import opened Wrappers
  import opened Text
  import opened Shell

  /* ---- quoting ---- */

  predicate Safe(c: char) {
    || 'a' <= c <= 'z' || 'A' <= c <= 'Z' || '0' <= c <= '9' || c == '@' || c == '%' || c == '+' || c == '='
    || c == ':' || c == ',' || c == '.' || c == '/' || c == '_' || c == '-'
  }

  predicate AllSafe(s: string) {
    forall i | 0 <= i < |s| :: Safe(s[i])
  }

  /** An escaped quote, and the quote that opens the rest. */
  const REOPEN := "\\''"

  /** Replaces every single quote by '\''. */
  function Escape(s: string): string {
    if s == "" then ""
    else if s[0] == '\'' then "'" + (REOPEN + Escape(s[1..]))
    else [s[0]] + Escape(s[1..])
  }

  function Quote(s: string): string {
    if s != "" && AllSafe(s) then s else "'" + Escape(s) + "'"
  }

  lemma SafeIsOrdinary(s: string)
    requires AllSafe(s)
    ensures Ordinary(s)
  {
  }

  /** Inside quotes, an escaped character adds the character to the word. */
  lemma FeedEscapedChar(ws: seq<string>, acc: string, c: char)
    ensures Feed(Lex(ws, Some(acc), Single), if c == '\'' then ['\'', '\\', '\'', '\''] else [c])
            == Lex(ws, Some(acc + [c]), Single)
  {
    var st := Lex(ws, Some(acc), Single);
    if c == '\'' {
      FeedFour(st, '\'', '\\', '\'', '\'');
      assert (acc + [c]) + "" == acc + [c];
    } else {
      FeedOne(st, c);
    }
  }

  lemma EscapeFirst(s: string)
    requires s != ""
    ensures Escape(s) == (if s[0] == '\'' then ['\'', '\\', '\'', '\''] else [s[0]]) + Escape(s[1..])
  {
  }

  lemma {:induction false} FeedEscape(ws: seq<string>, acc: string, s: string)
    ensures Feed(Lex(ws, Some(acc), Single), Escape(s)) == Lex(ws, Some(acc + s), Single)
    decreases |s|
  {
    if s == "" {
      assert acc + s == acc;
    } else {
      var head := if s[0] == '\'' then ['\'', '\\', '\'', '\''] else [s[0]];
      EscapeFirst(s);
      FeedAppend(Lex(ws, Some(acc), Single), head, Escape(s[1..]));
      FeedEscapedChar(ws, acc, s[0]);
      FeedEscape(ws, acc + [s[0]], s[1..]);
      assert acc + [s[0]] + s[1..] == acc + s;
    }
  }

  lemma FeedFour(st: Lex, a: char, b: char, c: char, d: char)
    ensures Feed(st, [a, b, c, d]) == Step(Step(Step(Step(st, a), b), c), d)
  {
    assert [a, b, c, d] == [a] + ([b] + ([c] + [d]));
    FeedAppend(st, [a], [b] + ([c] + [d]));
    FeedOne(st, a);
    var st1 := Step(st, a);
    FeedAppend(st1, [b], [c] + [d]);
    FeedOne(st1, b);
    var st2 := Step(st1, b);
    FeedAppend(st2, [c], [d]);
    FeedOne(st2, c);
    FeedOne(Step(st2, c), d);
  }

  /** The shell reads a quoted string, at the start of a word, as the string itself. */
  lemma FeedQuote(ws: seq<string>, s: string)
    ensures Feed(Lex(ws, None, Plain), Quote(s)) == Lex(ws, Some(s), Plain)
  {
    var st := Lex(ws, None, Plain);
    if s != "" && AllSafe(s) {
      SafeIsOrdinary(s);
      FeedOrdinary(ws, None, s);
    } else {
      FeedAppend(st, "'" + Escape(s), "'");
      FeedAppend(st, "'", Escape(s));
      FeedOne(st, '\'');
      FeedEscape(ws, "", s);
      assert "" + s == s;
      FeedOne(Lex(ws, Some(s), Single), '\'');
    }
  }

  /** For a POSIX shell, Quote(s) is exactly one word, equal to s. */
  lemma QuoteIsOneWord(s: string)
    ensures Words(Quote(s)) == Some([s])
  {
    FeedQuote([], s);
    assert [] + [s] == [s];
  }

  /** A string stays as it is exactly if it is not empty and has only safe characters. */
  lemma QuotePlain(s: string)
    ensures Quote(s) == s <==> s != "" && AllSafe(s)
  {
    if s != "" && !AllSafe(s) && Quote(s) == s {
      EscapeLonger(s);
    }
  }

  lemma {:induction false} EscapeLonger(s: string)
    ensures |Escape(s)| >= |s|
  {
    if s != "" {
      EscapeLonger(s[1..]);
    }
  }

  lemma QuoteInjective(s: string, t: string)
    requires Quote(s) == Quote(t)
    ensures s == t
  {
    QuoteIsOneWord(s);
    QuoteIsOneWord(t);
    assert [s][0] == [t][0];
  }

  /** Up to its first quote, an escaped string is the string itself. */
  lemma {:induction false} EscapeHead(s: string)
    ensures var i := FirstOf(s, '\'');
            Escape(s) == s[..i] + if i < |s| then "'" + (REOPEN + Escape(s[i + 1..])) else ""
  {
    if s != "" && s[0] != '\'' {
      EscapeHead(s[1..]);
      var i := FirstOf(s[1..], '\'');
      assert FirstOf(s, '\'') == i + 1;
      assert s[..i + 1] == [s[0]] + s[1..][..i];
      if i < |s[1..]| { assert s[1..][i + 1..] == s[i + 2..]; }
    }
  }

  lemma FirstOfIs(s: string, c: char, i: nat)
    requires i < |s| && s[i] == c && forall k | 0 <= k < i :: s[k] != c
    ensures FirstOf(s, c) == i
  {
  }

  /** A quoted string: text up to a quote, the quote, and the tail that Unquote goes on with. */
  function TailOf(u: string, i: nat): string
    requires i <= |u|
  {
    if i == |u| then "" else REOPEN + Escape(u[i + 1..]) + "'"
  }

  lemma RestShape(u: string, i: nat)
    requires i == FirstOf(u, '\'')
    ensures "'" + Escape(u) + "'" == "'" + u[..i] + "'" + TailOf(u, i)
  {
    EscapeHead(u);
    if i < |u| {
      Regroup("'", u[..i], REOPEN + Escape(u[i + 1..]));
    }
  }

  lemma Regroup(q: string, head: string, x: string)
    ensures q + (head + (q + x)) + q == q + head + q + (x + q)
  {
  }

  lemma TakeApart(rest: string, head: string, tail: string)
    requires rest == "'" + head + "'" + tail && forall k | 0 <= k < |head| :: head[k] != '\''
    ensures FirstOf(rest[1..], '\'') == |head| < |rest| - 1
    ensures rest[1..1 + |head|] == head && rest[2 + |head|..] == tail
  {
    var body := rest[1..];
    assert forall k | 0 <= k < |head| :: body[k] == head[k];
    FirstOfIs(body, '\'', |head|);
  }

  /** One round of Unquote on a quoted string, of which `u` is still to come. */
  lemma UnquoteStep(u: string, rest: string, i: nat)
    requires rest == "'" + Escape(u) + "'" && i == FirstOf(u, '\'')
    ensures FirstOf(rest[1..], '\'') == i < |rest| - 1 && rest[1..1 + i] == u[..i] && rest[2 + i..] == TailOf(u, i)
  {
    RestShape(u, i);
    TakeApart(rest, u[..i], TailOf(u, i));
  }

  lemma TailGoesOn(u: string, i: nat)
    requires i < |u|
    ensures REOPEN <= TailOf(u, i) && TailOf(u, i)[2..] == "'" + Escape(u[i + 1..]) + "'"
  {
    Peel(Escape(u[i + 1..]));
  }

  lemma Peel(e: string)
    ensures (REOPEN + e + "'")[2..] == "'" + e + "'" && REOPEN <= REOPEN + e + "'"
  {
  }

  /** `b` has been read of the quoted string `t`; `u` is still to come, and `rest` is what is left. */
  predicate Reading(t: string, b: string, u: string, rest: string) {
    t == b + u && rest == "'" + Escape(u) + "'"
  }

  /** A round that does not read the last of it goes on after an escaped quote. */
  lemma RoundGoesOn(t: string, b: string, u: string, i: nat)
    requires i < |u| && u[i] == '\'' && t == b + u
    ensures REOPEN <= TailOf(u, i) && Reading(t, b + u[..i] + "'", u[i + 1..], TailOf(u, i)[2..])
  {
    TailGoesOn(u, i);
    ReadOn(b, u, i);
  }

  lemma ReadOn(b: string, u: string, i: nat)
    requires i < |u| && u[i] == '\''
    ensures b + u == (b + u[..i] + "'") + u[i + 1..]
  {
    assert u == u[..i] + (['\''] + u[i + 1..]);
  }

  /** Reverses Quote: it accepts exactly the words that Quote produces, each for one string. */
  method Unquote(w: string) returns (s: string, ok: bool)
    ensures ok ==> Quote(s) == w
    ensures (exists t :: Quote(t) == w) ==> ok
  {
    if !("'" <= w) {
      if w == "" || Quote(w) != w {
        return "", false;
      }
      return w, true;
    }
    ghost var good := exists t :: Quote(t) == w;
    ghost var t: string := "";
    if good {
      t :| Quote(t) == w;
      assert !Safe(w[0]);
    }
    ghost var u := t;
    var b, rest := "", w;
    while rest != ""
      invariant good ==> Reading(t, b, u, rest) || (rest == "" && b == t)
      decreases |rest|
    {
      if !("'" <= rest) {
        return "", false;
      }
      var end := FirstOf(rest[1..], '\'');
      if good {
        UnquoteStep(u, rest, FirstOf(u, '\''));
        if end < |u| {
          RoundGoesOn(t, b, u, end);
        } else {
          assert u[..end] == u;
        }
      }
      if end == |rest| - 1 {
        return "", false;
      }
      b := b + rest[1..1 + end];
      rest := rest[2 + end..];
      if rest == "" {
        break;
      }
      if !(REOPEN <= rest) {
        return "", false;
      }
      b := b + "'";
      rest := rest[2..];
      u := if good then u[end + 1..] else u;
    }
    s := b;
    if Quote(s) != w {
      return "", false;
    }
    ok := true;
  }
}
