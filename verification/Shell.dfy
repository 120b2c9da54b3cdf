/**
  How a POSIX shell splits a command into words: the quoting rules of sections 2.2.1 (backslash) and
  2.2.2 (single quotes) and the token rules of section 2.3 of the Shell Command Language volume of
  POSIX.1-2017. A command that needs any other rule (an operator, an expansion, a pattern, a comment,
  a tilde, double quotes) is stuck: it has no split here.
 */
module Shell {
  import opened Wrappers

  datatype Mode = Plain | Single | Escaped | Stuck

  /** The finished words, and the word that is being read, if one has begun. */
  datatype Lex = Lex(words: seq<string>, cur: Option<string>, mode: Mode)

  /** Characters that ask for a rule beyond these. */
  predicate Beyond(c: char) {
    || c == '|' || c == '&' || c == ';' || c == '<' || c == '>' || c == '(' || c == ')' || c == '$'
    || c == '`' || c == '"' || c == '\n' || c == '*' || c == '?' || c == '[' || c == '#' || c == '~'
  }

  function Grown(cur: Option<string>, tail: string): string {
    match cur
    case None => tail
    case Some(w) => w + tail
  }

  function Step(st: Lex, c: char): Lex {
    match st.mode
    case Plain =>
      if c == '\'' then st.(cur := Some(Grown(st.cur, "")), mode := Single)
      else if c == '\\' then st.(mode := Escaped)
      else if c == ' ' || c == '\t' then
        if st.cur.Some? then Lex(st.words + [st.cur.value], None, Plain) else st
      else if Beyond(c) then st.(mode := Stuck)
      else st.(cur := Some(Grown(st.cur, [c])))
    case Single => if c == '\'' then st.(mode := Plain) else st.(cur := Some(Grown(st.cur, [c])))
    case Escaped => if c == '\n' then st.(mode := Plain) else st.(cur := Some(Grown(st.cur, [c])), mode := Plain)
    case Stuck => st
  }

  function Feed(st: Lex, s: string): Lex
    decreases |s|
  {
    if s == "" then st else Feed(Step(st, s[0]), s[1..])
  }

  const START := Lex([], None, Plain)

  /** The words of a command. */
  function Words(cmd: string): Option<seq<string>> {
    var st := Feed(START, cmd);
    if st.mode != Plain then None
    else Some(st.words + if st.cur.Some? then [st.cur.value] else [])
  }

  lemma {:induction false} FeedAppend(st: Lex, a: string, b: string)
    ensures Feed(st, a + b) == Feed(Feed(st, a), b)
    decreases |a|
  {
    if a == "" {
      assert a + b == b;
    } else {
      assert (a + b)[0] == a[0] && (a + b)[1..] == a[1..] + b;
      FeedAppend(Step(st, a[0]), a[1..], b);
    }
  }

  predicate OrdinaryChar(c: char) {
    !Beyond(c) && c != '\'' && c != '\\' && c != ' ' && c != '\t'
  }

  /** Characters that mean themselves outside quotes. */
  predicate Ordinary(s: string) {
    forall i | 0 <= i < |s| :: OrdinaryChar(s[i])
  }

  lemma {:induction false} FeedOrdinary(ws: seq<string>, cur: Option<string>, s: string)
    requires Ordinary(s) && (s != "" || cur.Some?)
    ensures Feed(Lex(ws, cur, Plain), s) == Lex(ws, Some(Grown(cur, s)), Plain)
    decreases |s|
  {
    if s != "" {
      var cur' := Some(Grown(cur, [s[0]]));
      assert Grown(cur', s[1..]) == Grown(cur, s);
      FeedOrdinary(ws, cur', s[1..]);
    } else {
      assert Grown(cur, s) == cur.value;
    }
  }

  /** Words, each followed by one space. */
  function Spaced(ws: seq<string>): string {
    if ws == [] then "" else Spaced(ws[..|ws| - 1]) + ws[|ws| - 1] + " "
  }

  lemma {:induction false} FeedSpaced(ws: seq<string>)
    requires forall w | w in ws :: w != "" && Ordinary(w)
    ensures Feed(START, Spaced(ws)) == Lex(ws, None, Plain)
  {
    if ws != [] {
      var init, w := ws[..|ws| - 1], ws[|ws| - 1];
      assert w in ws && forall v | v in init :: v in ws;
      FeedSpaced(init);
      FeedOneMore(Spaced(init), init, w);
      assert ws == init + [w];
    }
  }

  lemma FeedOneMore(text: string, ws: seq<string>, w: string)
    requires Feed(START, text) == Lex(ws, None, Plain) && w != "" && Ordinary(w)
    ensures Feed(START, text + w + " ") == Lex(ws + [w], None, Plain)
  {
    FeedAppend(START, text, w + " ");
    assert text + (w + " ") == text + w + " ";
    FeedWordSpace(ws, w);
  }

  lemma FeedWordSpace(ws: seq<string>, w: string)
    requires w != "" && Ordinary(w)
    ensures Feed(Lex(ws, None, Plain), w + " ") == Lex(ws + [w], None, Plain)
  {
    FeedAppend(Lex(ws, None, Plain), w, " ");
    FeedOrdinary(ws, None, w);
    FeedOne(Lex(ws, Some(w), Plain), ' ');
  }

  lemma FeedOne(st: Lex, c: char)
    ensures Feed(st, [c]) == Step(st, c)
  {
    assert [c][1..] == "";
  }
}
