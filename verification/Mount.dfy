/** Reading /proc/self/mountinfo: the octal escapes, and the check that a path is a btrfs top level. */
module Mount {
  import opened Wrappers
  import opened Text
  import Paths

  /* ---- escapes ---- */

  predicate Octal(c: char) {
    '0' <= c <= '7'
  }

  function Digit(c: char): nat
    requires Octal(c)
  {
    c as int - '0' as int
  }

  /** Three octal digits of a byte, None for anything else (`strconv.ParseUint` with base 8 and 8 bits). */
  function ParseByte(a: char, b: char, c: char): Option<char> {
    if !Octal(a) || !Octal(b) || !Octal(c) then None
    else
      var n := 64 * Digit(a) + 8 * Digit(b) + Digit(c);
      if n > 255 then None else Some(n as char)
  }

  /** A backslash that no byte follows stands for itself. */
  function Unescaped(s: string): string {
    if s == "" then ""
    else if s[0] == '\\' && |s| >= 4 && ParseByte(s[1], s[2], s[3]).Some? then
      [ParseByte(s[1], s[2], s[3]).value] + Unescaped(s[4..])
    else [s[0]] + Unescaped(s[1..])
  }

  lemma {:induction false} NothingToUnescape(s: string)
    requires '\\' !in s
    ensures Unescaped(s) == s
  {
    if s != "" {
      NothingToUnescape(s[1..]);
      assert s == [s[0]] + s[1..];
    }
  }

  /** The first character that is decoded, and how many it is decoded from. */
  function FirstOne(s: string): (char, nat)
    requires s != ""
  {
    if s[0] == '\\' && |s| >= 4 && ParseByte(s[1], s[2], s[3]).Some? then (ParseByte(s[1], s[2], s[3]).value, 4)
        else (s[0], 1)
  }

  lemma UnescapedFirst(r: string, s: string, i: nat)
    requires i < |s|
    ensures var (c, step) := FirstOne(s[i..]);
            i + step <= |s| && r + Unescaped(s[i..]) == (r + [c]) + Unescaped(s[i + step..])
  {
    var (c, step) := FirstOne(s[i..]);
    assert s[i..][step..] == s[i + step..];
    Associate(r, [c], Unescaped(s[i + step..]));
  }

  method UnescapeMount(s: string) returns (r: string)
    ensures r == Unescaped(s)
  {
    if '\\' !in s {
      NothingToUnescape(s);
      return s;
    }
    var i := 0;
    r := "";
    assert s[0..] == s && "" + Unescaped(s) == Unescaped(s);
    while i < |s|
      invariant 0 <= i <= |s| && r + Unescaped(s[i..]) == Unescaped(s)
    {
      UnescapedFirst(r, s, i);
      var step := 1;
      var c := s[i];
      if c == '\\' && i + 4 <= |s| {
        var n := ParseByte(s[i + 1], s[i + 2], s[i + 3]);
        if n.Some? {
          c, step := n.value, 4;
        }
      }
      assert (c, step) == FirstOne(s[i..]);
      r := r + [c];
      i := i + step;
    }
  }

  /** A backslash and three more characters: decoded exactly if they are the octal digits of a byte. */
  lemma EscapeDecoded(a: char, b: char, c: char, rest: string)
    ensures Unescaped(['\\', a, b, c] + rest)
            == if '0' <= a <= '3' && '0' <= b <= '7' && '0' <= c <= '7' then
                 [(64 * (a as int - 48) + 8 * (b as int - 48) + (c as int - 48)) as char] + Unescaped(rest)
               else "\\" + Unescaped([a, b, c] + rest)
  {
    var s := ['\\', a, b, c] + rest;
    assert s[1..] == [a, b, c] + rest && s[4..] == rest;
    assert ParseByte(a, b, c).Some? <==> '0' <= a <= '3' && '0' <= b <= '7' && '0' <= c <= '7';
  }

  /** The kernel escapes blank, tab, newline and backslash in the paths of a mount table. */
  function EscapeChar(c: char): string {
    if c == ' ' then "\\040" else if c == '\t' then "\\011" else if c == '\n' then "\\012" else if c == '\\' then
        "\\134" else [c]
  }

  function Escape(s: string): string {
    if s == "" then "" else EscapeChar(s[0]) + Escape(s[1..])
  }

  lemma EscapedFirst(c: char, rest: string)
    ensures Unescaped(EscapeChar(c) + rest) == [c] + Unescaped(rest)
  {
    var e := EscapeChar(c);
    assert (e + rest)[|e|..] == rest;
    if |e| == 4 {
      assert (e + rest)[1] == e[1] && (e + rest)[2] == e[2] && (e + rest)[3] == e[3];
      assert ParseByte(e[1], e[2], e[3]) == Some(c);
    }
  }

  /** Unescaping undoes escaping, on every path. */
  lemma {:induction false} UnescapeEscape(s: string)
    ensures Unescaped(Escape(s)) == s
  {
    if s != "" {
      EscapedFirst(s[0], Escape(s[1..]));
      UnescapeEscape(s[1..]);
      assert s == [s[0]] + s[1..];
    }
  }

  /* ---- the check ---- */

  datatype Verdict = TopLevel | NotMounted | NotBtrfs(fsType: string) | NotTop(root: string)

  /** Of the last matching line: the root in its filesystem, and the filesystem's type. */
  datatype Seen = Seen(root: string, fsType: string)

  function PlaceOf(fields: seq<string>, w: string): (i: int)
    ensures -1 <= i < |fields| && (i >= 0 ==> fields[i] == w)
  {
    if fields == [] then -1
    else if fields[0] == w then 0
    else
      var i := PlaceOf(fields[1..], w);
      if i < 0 then -1 else i + 1
  }

  /** What a line says of `path`, if it is a complete line for a mount there. */
  function SeenIn(line: string, path: string): Option<Seen> {
    var fields := Fields(line);
    var sep := PlaceOf(fields, "-");
    if |fields| < 5 || sep < 0 || sep + 1 >= |fields| || Unescaped(fields[4]) != path then None
    else Some(Seen(Unescaped(fields[3]), fields[sep + 1]))
  }

  /** A line is complete if something follows a "-" in it and it has a fifth field; other lines say nothing. */
  lemma SeenExactly(line: string, path: string)
    ensures var fields := Fields(line);
            SeenIn(line, path).Some?
            <==> |fields| >= 5 && "-" in fields[..|fields| - 1] && Unescaped(fields[4]) == path
  {
    var fields := Fields(line);
    PlaceIsFirst(fields, "-");
  }

  lemma {:induction false} PlaceIsFirst(fields: seq<string>, w: string)
    ensures PlaceOf(fields, w) < 0 <==> w !in fields
    ensures PlaceOf(fields, w) >= 0 ==> w !in fields[..PlaceOf(fields, w)]
  {
    if fields != [] && fields[0] != w {
      PlaceIsFirst(fields[1..], w);
      var i := PlaceOf(fields[1..], w);
      assert fields == [fields[0]] + fields[1..];
      if i >= 0 {
        assert fields[..i + 1] == [fields[0]] + fields[1..][..i];
      }
    }
  }

  /** The last line that says anything of `path`. */
  function LastSeen(lines: seq<string>, path: string): Option<Seen> {
    if lines == [] then None
    else
      var s := SeenIn(lines[|lines| - 1], path);
      if s.Some? then s else LastSeen(lines[..|lines| - 1], path)
  }

  function Judge(s: Option<Seen>): Verdict {
    if s.None? then NotMounted
    else if s.value.fsType != "btrfs" then NotBtrfs(s.value.fsType)
    else if s.value.root != "/" then NotTop(s.value.root)
    else TopLevel
  }

  method ReadLine(line: string, path: string) returns (r: Option<Seen>)
    ensures r == SeenIn(line, path)
  {
    var fields := Fields(line);
    var sep := PlaceOf(fields, "-");
    if |fields| < 5 || sep < 0 || sep + 1 >= |fields| {
      return None;
    }
    var point := UnescapeMount(fields[4]);
    if point != path {
      return None;
    }
    var root := UnescapeMount(fields[3]);
    return Some(Seen(root, fields[sep + 1]));
  }

  method CheckMountInfo(mountinfo: string, path: string) returns (v: Verdict)
    ensures v == Judge(LastSeen(Split(mountinfo, {'\n'}), Paths.Clean(path)))
  {
    var p := Paths.Clean(path);
    var fsRoot, fsType, found := "", "", false;
    var lines := Split(mountinfo, {'\n'});
    for i := 0 to |lines|
      invariant LastSeen(lines[..i], p) == if found then Some(Seen(fsRoot, fsType)) else None
    {
      assert lines[..i + 1][..i] == lines[..i];
      var s := ReadLine(lines[i], p);
      if s.Some? {
        fsRoot, fsType, found := s.value.root, s.value.fsType, true;
      }
    }
    assert lines[..|lines|] == lines;
    if !found {
      return NotMounted;
    }
    if fsType != "btrfs" {
      return NotBtrfs(fsType);
    }
    if fsRoot != "/" {
      return NotTop(fsRoot);
    }
    return TopLevel;
  }

  /* ---- what a mount table means ---- */

  /** One mount: where its root is in the filesystem, where it is mounted, and the type. */
  datatype Entry = Entry(ids: seq<string>, root: string, point: string, options: seq<string>, fsType: string,
      source: seq<string>)

  /** Printed as in proc(5): three ids, root, mount point, options, "-", type, source and more options. */
  function EntryWords(e: Entry): seq<string> {
    e.ids + [Escape(e.root), Escape(e.point)] + e.options + ["-", e.fsType] + e.source
  }

  /**
    What the root and the mount point of an entry are taken to be: not empty, not the separator, and with no
    white space but of the kinds that are escaped. A root need not be a path: that of a namespace is `net:[4026531992]`.
   */
  predicate MountName(p: string) {
    p != "" && p != "-" && forall i | 0 <= i < |p| :: p[i] in WHITE ==> p[i] in {' ', '\t', '\n'}
  }

  /** The source may be empty; it is printed as it is. */
  predicate Complete(e: Entry) {
    && |e.ids| == 3 && (forall w | w in e.ids + e.options :: Word(w) && w != "-")
    && (forall w | w in e.source :: Free(w, WHITE)) && Word(e.fsType)
    && MountName(e.root) && MountName(e.point)
  }

  function Lines(table: seq<Entry>): seq<string> {
    if table == [] then [] else Lines(table[..|table| - 1]) + [Join(EntryWords(table[|table| - 1]), ' ')]
  }

  function PrintTable(table: seq<Entry>): string {
    Join(Lines(table) + [""], '\n')
  }

  /** The last entry mounted at `path`. */
  function LastAt(table: seq<Entry>, path: string): Option<Entry> {
    if table == [] then None
    else if table[|table| - 1].point == path then Some(table[|table| - 1])
    else LastAt(table[..|table| - 1], path)
  }

  lemma {:induction false} EscapedIsWord(p: string)
    requires forall i | 0 <= i < |p| :: p[i] in WHITE ==> p[i] in {' ', '\t', '\n'}
    ensures Free(Escape(p), WHITE) && (p != "" ==> Escape(p) != "") && (Escape(p) == "-" ==> p == "-")
  {
    if p != "" {
      EscapedIsWord(p[1..]);
      var e, rest := EscapeChar(p[0]), Escape(p[1..]);
      assert Free(e, WHITE);
      if e + rest == "-" {
        assert |e| == 1 && rest == "";
        assert (e + rest)[0] == e[0] == p[0];
        assert p == [p[0]] + p[1..];
      }
    }
  }

  /** The words before the separator, and what is read of the line: all its words but empty ones of the source. */
  function Before(e: Entry): seq<string> {
    e.ids + [Escape(e.root), Escape(e.point)] + e.options
  }

  function After(e: Entry): seq<string> {
    [e.fsType] + NonEmpty(e.source)
  }

  lemma WordsOfEntry(e: Entry)
    requires Complete(e)
    ensures forall w | w in EntryWords(e) :: Free(w, WHITE)
    ensures (forall w | w in Before(e) :: Word(w)) && "-" !in Before(e) && Word("-")
  {
    EscapedIsWord(e.root);
    EscapedIsWord(e.point);
    assert Word("-");
    assert EntryWords(e) == Before(e) + ["-", e.fsType] + e.source;
    forall w | w in EntryWords(e) ensures Free(w, WHITE) {
      assert w in Before(e) || w in ["-", e.fsType] || w in e.source;
      assert w in Before(e) ==> Word(w);
    }
  }

  lemma NonEmptyWords(e: Entry)
    requires Complete(e)
    ensures NonEmpty(EntryWords(e)) == Before(e) + ["-"] + After(e)
  {
    WordsOfEntry(e);
    var head := Before(e) + ["-", e.fsType];
    assert EntryWords(e) == head + e.source;
    NonEmptyAll(head);
    NonEmptyAppend(head, e.source);
    assert head + NonEmpty(e.source) == Before(e) + ["-"] + After(e);
  }

  lemma {:induction false} IndexAfter(a: seq<string>, b: seq<string>, w: string)
    requires w !in a
    ensures PlaceOf(a + [w] + b, w) == |a|
  {
    if a == [] {
      assert a + [w] + b == [w] + b;
    } else {
      assert (a + [w] + b)[1..] == a[1..] + [w] + b;
      IndexAfter(a[1..], b, w);
    }
  }

  lemma FieldsOfEntry(e: Entry)
    requires Complete(e)
    ensures Fields(Join(EntryWords(e), ' ')) == Before(e) + ["-"] + After(e) && Free(Join(EntryWords(e), ' '), {'\n'})
  {
    WordsOfEntry(e);
    SplitJoin(EntryWords(e), ' ', WHITE);
    NonEmptyWords(e);
    JoinedIsLine(EntryWords(e));
  }

  lemma {:induction false} JoinedIsLine(words: seq<string>)
    requires forall w | w in words :: Free(w, WHITE)
    ensures Free(Join(words, ' '), {'\n'})
  {
    if words != [] {
      assert words[0] in words && '\n' in WHITE;
      JoinedIsLine(words[1..]);
    }
  }

  lemma EntrySeen(e: Entry, path: string)
    requires Complete(e)
    ensures SeenIn(Join(EntryWords(e), ' '), path) == if e.point == path then Some(Seen(e.root, e.fsType)) else None
  {
    FieldsOfEntry(e);
    WordsOfEntry(e);
    IndexAfter(Before(e), After(e), "-");
    UnescapeEscape(e.root);
    UnescapeEscape(e.point);
    var fields := Before(e) + ["-"] + After(e);
    assert fields[3] == Escape(e.root) && fields[4] == Escape(e.point) && fields[|Before(e)| + 1] == e.fsType;
  }

  lemma {:induction false} TableSeen(table: seq<Entry>, path: string)
    requires forall e | e in table :: Complete(e)
    ensures var last := LastAt(table, path);
            LastSeen(Lines(table), path) == if last.Some? then Some(Seen(last.value.root, last.value.fsType)) else None
    ensures forall line | line in Lines(table) :: Free(line, {'\n'})
  {
    if table != [] {
      var e := table[|table| - 1];
      TableSeen(table[..|table| - 1], path);
      EntrySeen(e, path);
      FieldsOfEntry(e);
      assert Lines(table)[..|Lines(table)| - 1] == Lines(table[..|table| - 1]);
    }
  }

  lemma EmptyLine(path: string)
    ensures SeenIn("", path).None?
  {
    assert NonEmpty([""]) == [];
  }

  /**
    The check means what the table says: it succeeds exactly when the last entry mounted at the path is
    btrfs and shows the top level; and each error says which of the three things is not so.
   */
  lemma VerdictOfTable(table: seq<Entry>, path: string)
    requires forall e | e in table :: Complete(e)
    ensures var v, last := Judge(LastSeen(Split(PrintTable(table), {'\n'}), Paths.Clean(path))),
            LastAt(table, Paths.Clean(path));
            && (v == TopLevel <==> last.Some? && last.value.fsType == "btrfs" && last.value.root == "/")
            && (v == NotMounted <==> forall e | e in table :: e.point != Paths.Clean(path))
            && (v.NotBtrfs? <==> last.Some? && last.value.fsType != "btrfs")
            && (v.NotBtrfs? ==> v.fsType == last.value.fsType)
            && (v.NotTop? ==> last.Some? && v.root == last.value.root)
  {
    var p := Paths.Clean(path);
    TableSeen(table, p);
    SplitJoin(Lines(table) + [""], '\n', {'\n'});
    EmptyLine(p);
    assert (Lines(table) + [""])[..|Lines(table)|] == Lines(table);
    LastAtExact(table, p);
  }

  lemma {:induction false} LastAtExact(table: seq<Entry>, path: string)
    ensures LastAt(table, path).None? <==> forall e | e in table :: e.point != path
    ensures LastAt(table, path).Some? ==>
              exists k :: 0 <= k < |table| && table[k] == LastAt(table, path).value && table[k].point == path
                          && forall j | k < j < |table| :: table[j].point != path
  {
    if table != [] && table[|table| - 1].point != path {
      LastAtExact(table[..|table| - 1], path);
      if LastAt(table, path).Some? {
        var t := table[..|table| - 1];
        var k :| 0 <= k < |t| && t[k] == LastAt(table, path).value && t[k].point == path
                 && forall j | k < j < |t| :: t[j].point != path;
        assert table[k] == LastAt(table, path).value && forall j | k < j < |table| :: table[j].point != path;
      }
    }
  }
}
