/** The two outputs of `btrfs subvolume list`, what is read from them, and how they are printed. */
module SubvolList {
  import opened Wrappers
  import opened Text

  /** A subvolume as listed; the received UUID is empty if there is none. */
  datatype Info = Info(path: string, uuid: string, receivedUuid: string, readOnly: bool)

  /* ---- reading ---- */

  const PATH := " path "

  /** The first place of `pat` in `s`, or None. */
  function IndexOf(s: string, pat: string): (i: Option<nat>)
    ensures i.Some? ==> i.value + |pat| <= |s|
  {
    if pat <= s then Some(0)
    else if s == "" then None
    else
      var i := IndexOf(s[1..], pat);
      if i.None? then None else Some(i.value + 1)
  }

  predicate StandsAt(s: string, pat: string, k: nat) {
    k + |pat| <= |s| && s[k..k + |pat|] == pat
  }

  lemma {:induction false} IndexOfFirst(s: string, pat: string, i: nat)
    requires StandsAt(s, pat, i) && forall k: nat | k < i :: !StandsAt(s, pat, k)
    ensures IndexOf(s, pat) == Some(i)
  {
    if i > 0 {
      assert !StandsAt(s, pat, 0);
      forall k: nat | k <= i - 1 ensures StandsAt(s[1..], pat, k) == StandsAt(s, pat, k + 1) {
        if k + 1 + |pat| <= |s| {
          assert s[1..][k..k + |pat|] == s[k + 1..k + 1 + |pat|];
        }
      }
      IndexOfFirst(s[1..], pat, i - 1);
    }
  }

  function TrimRight(s: string, c: char): (r: string)
    ensures r <= s && (r == "" || r[|r| - 1] != c)
  {
    if s != "" && s[|s| - 1] == c then TrimRight(s[..|s| - 1], c) else s
  }

  datatype Cut = Cut(head: string, path: string)

  /** A line's key/value part and its path, None for a line without a path. */
  function SplitPath(line: string): Option<Cut> {
    var s := TrimRight(line, '\r');
    match IndexOf(s, PATH)
    case None => None
    case Some(i) => Some(Cut(s[..i], s[i + |PATH|..]))
  }

  /** Carriage returns at the end of a line are not read. */
  lemma CarriageReturn(line: string)
    ensures SplitPath(line + "\r") == SplitPath(line)
  {
    assert (line + "\r")[..|line|] == line;
  }

  /** The value after the first `key`, "" when there is none or it is "-". */
  function FieldAfter(fields: seq<string>, key: string): string {
    if |fields| < 2 then ""
    else if fields[0] == key then if fields[1] == "-" then "" else fields[1]
    else FieldAfter(fields[1..], key)
  }

  /** The value of a key is what follows its first place; one that is last has none. */
  lemma {:induction false} FieldExactly(fields: seq<string>, key: string, i: nat)
    requires i < |fields| && fields[i] == key && key !in fields[..i]
    ensures FieldAfter(fields, key) == if i + 1 == |fields| || fields[i + 1] == "-" then "" else fields[i + 1]
  {
    if i > 0 {
      assert fields[0] in fields[..i] && fields[1..][..i - 1] == fields[..i][1..];
      FieldExactly(fields[1..], key, i - 1);
    }
  }

  method ListField(fields: seq<string>, key: string) returns (v: string)
    ensures v == FieldAfter(fields, key)
  {
    var i := 0;
    while i + 1 < |fields|
      invariant 0 <= i && (i <= |fields| || fields == [])
      invariant i <= |fields| ==> FieldAfter(fields, key) == FieldAfter(fields[i..], key)
    {
      if fields[i] == key {
        return if fields[i + 1] != "-" then fields[i + 1] else "";
      }
      assert fields[i..][1..] == fields[i + 1..];
      i := i + 1;
    }
    return "";
  }

  /** The paths of a listing. */
  function PathsOf(lines: seq<string>): set<string> {
    if lines == [] then {}
    else
      var cut := SplitPath(lines[|lines| - 1]);
      PathsOf(lines[..|lines| - 1]) + if cut.Some? then {cut.value.path} else {}
  }

  /** The entry of a line with a path. */
  function InfoOf(cut: Cut, readOnly: set<string>): Info {
    var fields := Fields(cut.head);
    Info(cut.path, FieldAfter(fields, "uuid"), FieldAfter(fields, "received_uuid"), cut.path in readOnly)
  }

  /** The entries of all lines with a path, in order. */
  function InfosOf(lines: seq<string>, readOnly: set<string>): seq<Info> {
    if lines == [] then []
    else
      var cut := SplitPath(lines[|lines| - 1]);
      InfosOf(lines[..|lines| - 1], readOnly) + if cut.Some? then [InfoOf(cut.value, readOnly)] else []
  }

  /** A line with a path and no UUID. */
  predicate LacksUuid(line: string) {
    var cut := SplitPath(line);
    cut.Some? && FieldAfter(Fields(cut.value.head), "uuid") == ""
  }

  /** The first loop: the paths of the read-only listing. */
  method ReadOnlyPaths(lines: seq<string>) returns (ro: set<string>)
    ensures ro == PathsOf(lines)
  {
    ro := {};
    for i := 0 to |lines|
      invariant ro == PathsOf(lines[..i])
    {
      assert lines[..i + 1][..i] == lines[..i];
      var cut := SplitPath(lines[i]);
      if cut.Some? {
        ro := ro + {cut.value.path};
      }
    }
    assert lines[..|lines|] == lines;
  }

  /** One turn of the second loop: None for a line with a path and no UUID. */
  method ParseCut(cut: Cut, ro: set<string>) returns (r: Option<Info>)
    ensures r == if FieldAfter(Fields(cut.head), "uuid") == "" then None else Some(InfoOf(cut, ro))
  {
    var fields := Fields(cut.head);
    var uuid := ListField(fields, "uuid");
    if uuid == "" {
      return None;
    }
    var received := ListField(fields, "received_uuid");
    return Some(Info(cut.path, uuid, received, cut.path in ro));
  }

  lemma InfosNext(lines: seq<string>, i: nat, ro: set<string>)
    requires i < |lines|
    ensures InfosOf(lines[..i + 1], ro)
            == InfosOf(lines[..i], ro) + match SplitPath(lines[i]) case None => [] case Some(cut) => [InfoOf(cut, ro)]
  {
    assert lines[..i + 1][..i] == lines[..i];
  }

  /** Fails if and only if a line with a path has no UUID; otherwise there is one entry per line with a path. */
  method ParseSubvolumeList(all: string, readOnly: string) returns (r: Option<seq<Info>>)
    ensures r.None? <==> exists line | line in Split(all, {'\n'}) :: LacksUuid(line)
    ensures r.Some? ==> r.value == InfosOf(Split(all, {'\n'}), PathsOf(Split(readOnly, {'\n'})))
  {
    var ro := ReadOnlyPaths(Split(readOnly, {'\n'}));
    var infos := [];
    var lines := Split(all, {'\n'});
    for i := 0 to |lines|
      invariant infos == InfosOf(lines[..i], ro)
      invariant forall k | 0 <= k < i :: !LacksUuid(lines[k])
    {
      InfosNext(lines, i, ro);
      var cut := SplitPath(lines[i]);
      if cut.Some? {
        var info := ParseCut(cut.value, ro);
        if info.None? {
          assert lines[i] in lines && LacksUuid(lines[i]);
          return None;
        }
        infos := infos + [info.value];
      }
    }
    assert lines[..|lines|] == lines;
    return Some(infos);
  }

  /* ---- printing ---- */

  /** An entry as btrfs-progs prints it: the numbers are not read back, values are padded with blanks. */
  datatype Row = Row(info: Info, id: string, gen: string, top: string, pad: nat, pad2: nat)

  function OrDash(v: string): string {
    if v == "" then "-" else v
  }

  /** Padding is a run of empty words. */
  function Blanks(n: nat): (r: seq<string>)
    ensures |r| == n && forall w | w in r :: w == ""
  {
    if n == 0 then [] else [""] + Blanks(n - 1)
  }

  function Numbers(row: Row): seq<string> {
    ["ID", row.id, "gen", row.gen, "top", "level", row.top]
  }

  function Words(row: Row): seq<string> {
    Numbers(row) + ["received_uuid", OrDash(row.info.receivedUuid)] + Blanks(row.pad)
    + ["uuid", OrDash(row.info.uuid)] + Blanks(row.pad2)
  }

  function PrintLine(words: seq<string>, path: string): string {
    Join(words, ' ') + PATH + path
  }

  function AllLines(rows: seq<Row>): seq<string> {
    if rows == [] then [] else AllLines(rows[..|rows| - 1]) + [PrintLine(Words(rows[|rows| - 1]),
        rows[|rows| - 1].info.path)]
  }

  /** The second listing has the read-only subvolumes only, and no UUIDs. */
  function ReadOnlyLines(rows: seq<Row>): seq<string> {
    if rows == [] then []
    else
      var last := rows[|rows| - 1];
      ReadOnlyLines(rows[..|rows| - 1]) + if last.info.readOnly then [PrintLine(Numbers(last), last.info.path)] else []
  }

  /** Every line ends with a newline. */
  function PrintText(lines: seq<string>): string {
    Join(lines + [""], '\n')
  }

  /** A number or a UUID: one word, not one of the words that are looked for. */
  predicate Token(w: string) {
    Word(w) && w !in {"path", "uuid", "received_uuid"}
  }

  /** A path can be read back if it has no newline and does not end in a carriage return. */
  predicate Readable(path: string) {
    Free(path, {'\n'}) && (path == "" || path[|path| - 1] != '\r')
  }

  predicate Printable(row: Row) {
    && Token(row.id) && Token(row.gen) && Token(row.top) && Readable(row.info.path)
    && (row.info.uuid == "" || (Token(row.info.uuid) && row.info.uuid != "-"))
    && (row.info.receivedUuid == "" || (Token(row.info.receivedUuid) && row.info.receivedUuid != "-"))
  }

  /* ---- reading back one line ---- */

  /** A word between two blanks, or between a blank and the end, is one of the words. */
  lemma DelimitedWord(a: string, w: string, rest: string)
    requires Free(w, {' '}) && (rest == "" || rest[0] == ' ')
    ensures w in Split(a + [' '] + (w + rest), {' '})
  {
    SplitAt(a, w + rest, ' ');
    FirstWord(w, rest);
  }

  lemma FirstWord(w: string, rest: string)
    requires Free(w, {' '}) && (rest == "" || rest[0] == ' ')
    ensures Split(w + rest, {' '})[0] == w
  {
    if rest == "" {
      assert w + rest == w;
      SplitPiece(w, "", ' ', {' '});
    } else {
      assert w + rest == w + [' '] + rest[1..];
      SplitPiece(w, rest[1..], ' ', {' '});
    }
  }

  /** The first " path " of a printed line is the one after the words, whatever the path has in it. */
  lemma FirstPath(head: string, path: string)
    requires "path" !in Split(head, {' '})
    ensures IndexOf(head + PATH + path, PATH) == Some(|head|)
  {
    var s := head + PATH + path;
    assert StandsAt(s, PATH, |head|);
    forall k: nat | k < |head| ensures !StandsAt(s, PATH, k) {
      NoEarlierPath(head, s, k);
    }
    IndexOfFirst(s, PATH, |head|);
  }

  lemma NoEarlierPath(head: string, s: string, k: nat)
    requires head + " " <= s && k < |head|
    requires "path" !in Split(head, {' '})
    ensures !StandsAt(s, PATH, k)
  {
    if StandsAt(s, PATH, k) {
      PathChars(s, k);
      assert s[|head|] == (head + " ")[|head|] == ' ';
      assert forall j | 0 <= j < |head| :: s[j] == (head + " ")[j] == head[j];
      WordPath(head, k);
    }
  }

  lemma PathChars(s: string, k: nat)
    requires StandsAt(s, PATH, k)
    ensures s[k] == ' ' && s[k + 1] == 'p' && s[k + 2] == 'a' && s[k + 3] == 't' && s[k + 4] == 'h' && s[k + 5] == ' '
  {
    var p := s[k..k + |PATH|];
    assert s[k] == p[0] && s[k + 1] == p[1] && s[k + 2] == p[2] && s[k + 3] == p[3] && s[k + 4] == p[4]
        && s[k + 5] == p[5];
  }

  lemma WordPath(head: string, k: nat)
    requires k + 5 <= |head| && head[k] == ' ' && head[k + 1] == 'p' && head[k + 2] == 'a' && head[k + 3] == 't'
             && head[k + 4] == 'h'
    requires k + 5 == |head| || head[k + 5] == ' '
    ensures "path" in Split(head, {' '})
  {
    var a, rest := head[..k], head[k + 5..];
    assert head == a + [' '] + ("path" + rest);
    DelimitedWord(a, "path", rest);
  }

  lemma LineSplits(words: seq<string>, path: string)
    requires words != [] && (forall w | w in words :: w == "" || HeadWord(w)) && Readable(path)
    ensures SplitPath(PrintLine(words, path)) == Some(Cut(Join(words, ' '), path))
  {
    var head := Join(words, ' ');
    forall w | w in words ensures Free(w, {' '}) {
      NoWhite(w);
    }
    SplitJoin(words, ' ', {' '});
    FirstPath(head, path);
    var line := PrintLine(words, path);
    assert line[|line| - 1] == if path == "" then ' ' else path[|path| - 1];
    assert TrimRight(line, '\r') == line;
    assert line[..|head|] == head && line[|head| + |PATH|..] == path;
  }

  lemma LineFields(words: seq<string>)
    requires words != [] && forall w | w in words :: w == "" || HeadWord(w)
    ensures Fields(Join(words, ' ')) == NonEmpty(words)
  {
    SplitJoin(words, ' ', WHITE);
  }

  lemma LineIsLine(words: seq<string>, path: string)
    requires (forall w | w in words :: w == "" || HeadWord(w)) && Readable(path)
    ensures Free(PrintLine(words, path), {'\n'})
  {
    forall w | w in words ensures Free(w, {'\n'}) {
      NoWhite(w);
    }
    JoinFree(words);
  }

  lemma NoWhite(w: string)
    requires Free(w, WHITE)
    ensures Free(w, {'\n'}) && Free(w, {' '})
  {
    assert ' ' in WHITE && '\n' in WHITE;
  }

  lemma {:induction false} JoinFree(words: seq<string>)
    requires forall w | w in words :: Free(w, {'\n'})
    ensures Free(Join(words, ' '), {'\n'})
  {
    if words != [] {
      assert words[0] in words;
      JoinFree(words[1..]);
    }
  }

  lemma {:induction false} BlanksVanish(n: nat)
    ensures NonEmpty(Blanks(n)) == []
  {
    if n > 0 {
      BlanksVanish(n - 1);
    }
  }

  /** A word that is printed before the path. */
  predicate HeadWord(w: string) {
    Word(w) && w != "path"
  }

  lemma LiteralWords()
    ensures HeadWord("ID") && HeadWord("gen") && HeadWord("top") && HeadWord("level") && HeadWord("received_uuid")
            && HeadWord("uuid") && HeadWord("-")
  {
  }

  lemma PaddedWords(a: seq<string>, n: nat, b: seq<string>, m: nat)
    requires (forall w | w in a :: w != "") && forall w | w in b :: w != ""
    ensures NonEmpty(a + Blanks(n) + b + Blanks(m)) == a + b
  {
    PaddingVanishes(a, n);
    NonEmptyAppend(a + Blanks(n), b);
    PaddingVanishes(a + Blanks(n) + b, m);
    NonEmptyAll(a);
    NonEmptyAll(b);
  }

  lemma PaddingVanishes(words: seq<string>, n: nat)
    ensures NonEmpty(words + Blanks(n)) == NonEmpty(words)
  {
    NonEmptyAppend(words, Blanks(n));
    BlanksVanish(n);
  }

  lemma WordsRead(row: Row)
    requires Printable(row)
    ensures forall w | w in Words(row) :: w == "" || HeadWord(w)
    ensures NonEmpty(Words(row)) == Numbers(row) + ["received_uuid", OrDash(row.info.receivedUuid), "uuid",
            OrDash(row.info.uuid)]
  {
    LiteralWords();
    PaddedWords(Numbers(row) + ["received_uuid", OrDash(row.info.receivedUuid)], row.pad,
        ["uuid", OrDash(row.info.uuid)], row.pad2);
    forall w | w in Words(row) ensures w == "" || HeadWord(w) {
      assert w in Numbers(row) || w in ["received_uuid", OrDash(row.info.receivedUuid)] || w in Blanks(row.pad)
             || w in ["uuid", OrDash(row.info.uuid)] || w in Blanks(row.pad2);
    }
  }

  lemma FieldsRead(row: Row)
    requires Printable(row)
    ensures var fields := Numbers(row) + ["received_uuid", OrDash(row.info.receivedUuid), "uuid",
            OrDash(row.info.uuid)];
            FieldAfter(fields, "uuid") == row.info.uuid && FieldAfter(fields, "received_uuid") == row.info.receivedUuid
  {
    var last := ["uuid", OrDash(row.info.uuid)];
    var tail := ["received_uuid", OrDash(row.info.receivedUuid)] + last;
    assert tail[1..][1..] == last;
    FieldSkips(Numbers(row), tail, "uuid");
    FieldSkips(Numbers(row), tail, "received_uuid");
    FieldSkips(tail[..2], last, "uuid");
    assert tail[..2] + last == tail;
    assert Numbers(row) + tail == Numbers(row) + ["received_uuid", OrDash(row.info.receivedUuid), "uuid",
        OrDash(row.info.uuid)];
  }

  lemma {:induction false} FieldSkips(a: seq<string>, b: seq<string>, key: string)
    requires key !in a && |b| > 0
    ensures FieldAfter(a + b, key) == FieldAfter(b, key)
  {
    if a == [] {
      assert a + b == b;
    } else {
      assert (a + b)[1..] == a[1..] + b;
      FieldSkips(a[1..], b, key);
    }
  }

  /* ---- reading back a listing ---- */

  lemma RowRead(row: Row, ro: set<string>)
    requires Printable(row)
    ensures var line := PrintLine(Words(row), row.info.path);
            && SplitPath(line) == Some(Cut(Join(Words(row), ' '), row.info.path))
            && InfoOf(SplitPath(line).value, ro) == row.info.(readOnly := row.info.path in ro)
            && (LacksUuid(line) <==> row.info.uuid == "")
            && Free(line, {'\n'})
  {
    WordsRead(row);
    LineSplits(Words(row), row.info.path);
    LineFields(Words(row));
    LineIsLine(Words(row), row.info.path);
    FieldsRead(row);
  }

  lemma ReadOnlyRead(row: Row)
    requires Printable(row)
    ensures var line := PrintLine(Numbers(row), row.info.path);
            SplitPath(line) == Some(Cut(Join(Numbers(row), ' '), row.info.path)) && Free(line, {'\n'})
  {
    LiteralWords();
    LineSplits(Numbers(row), row.info.path);
    LineIsLine(Numbers(row), row.info.path);
  }

  /** The rows as they are read back, when `ro` holds the read-only paths. */
  function ReadBack(rows: seq<Row>, ro: set<string>): seq<Info> {
    if rows == [] then []
    else
      var last := rows[|rows| - 1].info;
      ReadBack(rows[..|rows| - 1], ro) + [last.(readOnly := last.path in ro)]
  }

  lemma {:induction false} InfosRead(rows: seq<Row>, ro: set<string>)
    requires forall row | row in rows :: Printable(row)
    ensures InfosOf(AllLines(rows), ro) == ReadBack(rows, ro)
  {
    if rows != [] {
      InfosRead(rows[..|rows| - 1], ro);
      RowRead(rows[|rows| - 1], ro);
      assert AllLines(rows)[..|AllLines(rows)| - 1] == AllLines(rows[..|rows| - 1]);
    }
  }

  lemma {:induction false} LinesOfRows(rows: seq<Row>)
    ensures |AllLines(rows)| == |rows|
    ensures forall i | 0 <= i < |rows| :: AllLines(rows)[i] == PrintLine(Words(rows[i]), rows[i].info.path)
  {
    if rows != [] {
      LinesOfRows(rows[..|rows| - 1]);
    }
  }

  lemma UuidsRead(rows: seq<Row>)
    requires forall row | row in rows :: Printable(row)
    ensures (exists line | line in AllLines(rows) :: LacksUuid(line))
            <==> (exists row | row in rows :: row.info.uuid == "")
    ensures forall line | line in AllLines(rows) :: Free(line, {'\n'})
  {
    LinesOfRows(rows);
    var lines := AllLines(rows);
    forall i | 0 <= i < |rows| ensures LacksUuid(lines[i]) == (rows[i].info.uuid == "") && Free(lines[i], {'\n'}) {
      RowRead(rows[i], {});
    }
    if row :| row in rows && row.info.uuid == "" {
      var i :| 0 <= i < |rows| && rows[i] == row;
      assert lines[i] in lines;
    }
  }

  function ReadOnlySet(rows: seq<Row>): set<string> {
    set row | row in rows && row.info.readOnly :: row.info.path
  }

  lemma {:induction false} ReadOnlyLinesRead(rows: seq<Row>)
    requires forall row | row in rows :: Printable(row)
    ensures PathsOf(ReadOnlyLines(rows)) == ReadOnlySet(rows)
    ensures forall line | line in ReadOnlyLines(rows) :: Free(line, {'\n'})
  {
    if rows != [] {
      var before, row := rows[..|rows| - 1], rows[|rows| - 1];
      ReadOnlyLinesRead(before);
      ReadOnlySetLast(before, row);
      assert rows == before + [row];
      if row.info.readOnly {
        ReadOnlyRead(row);
        PathsLast(ReadOnlyLines(before), PrintLine(Numbers(row), row.info.path));
      } else {
        assert ReadOnlyLines(rows) == ReadOnlyLines(before);
      }
    }
  }

  lemma ReadOnlySetLast(before: seq<Row>, row: Row)
    ensures ReadOnlySet(before + [row]) == ReadOnlySet(before) + if row.info.readOnly then {row.info.path} else {}
  {
  }

  lemma PathsLast(lines: seq<string>, line: string)
    ensures PathsOf(lines + [line]) == PathsOf(lines) + if SplitPath(line).Some? then {SplitPath(line).value.path}
            else {}
  {
    assert (lines + [line])[..|lines|] == lines;
  }

  /** The lines of a printed text are the lines that were printed, and an empty one that is not read. */
  lemma TextLines(lines: seq<string>)
    requires forall line | line in lines :: Free(line, {'\n'})
    ensures Split(PrintText(lines), {'\n'}) == lines + [""] && SplitPath("").None?
  {
    SplitJoin(lines + [""], '\n', {'\n'});
  }

  lemma SkipEmpty(lines: seq<string>, ro: set<string>)
    ensures InfosOf(lines + [""], ro) == InfosOf(lines, ro) && PathsOf(lines + [""]) == PathsOf(lines)
    ensures !LacksUuid("")
  {
    TextLines([]);
    assert (lines + [""])[..|lines|] == lines;
  }

  predicate DistinctPaths(rows: seq<Row>) {
    forall i, j | 0 <= i < j < |rows| :: rows[i].info.path != rows[j].info.path
  }

  function Contents(rows: seq<Row>): seq<Info> {
    seq(|rows|, i requires 0 <= i < |rows| => rows[i].info)
  }

  lemma FlagsRead(rows: seq<Row>)
    requires DistinctPaths(rows)
    ensures ReadBack(rows, ReadOnlySet(rows)) == Contents(rows)
  {
    ReadBackAt(rows, ReadOnlySet(rows));
    forall i | 0 <= i < |rows| ensures rows[i].info.path in ReadOnlySet(rows) <==> rows[i].info.readOnly {
      if rows[i].info.path in ReadOnlySet(rows) {
        var j :| 0 <= j < |rows| && rows[j].info.readOnly && rows[j].info.path == rows[i].info.path;
        assert j == i;
      }
    }
  }

  lemma {:induction false} ReadBackAt(rows: seq<Row>, ro: set<string>)
    ensures |ReadBack(rows, ro)| == |rows|
    ensures forall i | 0 <= i < |rows| :: ReadBack(rows, ro)[i] == rows[i].info.(readOnly := rows[i].info.path in ro)
  {
    if rows != [] {
      ReadBackAt(rows[..|rows| - 1], ro);
    }
  }

  function AllText(rows: seq<Row>): string {
    PrintText(AllLines(rows))
  }

  function ReadOnlyText(rows: seq<Row>): string {
    PrintText(ReadOnlyLines(rows))
  }

  /**
    Reading undoes printing: the two printed listings of any subvolumes with distinct paths, whatever
    blanks or " path " the paths have in them, read back as the same subvolumes in the same order with
    the same UUIDs and flags.
   */
  lemma ParsePrinted(rows: seq<Row>)
    requires DistinctPaths(rows) && forall row | row in rows :: Printable(row)
    ensures InfosOf(Split(AllText(rows), {'\n'}), PathsOf(Split(ReadOnlyText(rows), {'\n'}))) == Contents(rows)
  {
    var ro := ReadOnlySet(rows);
    ReadOnlyLinesRead(rows);
    InfosRead(rows, ro);
    UuidsRead(rows);
    FlagsRead(rows);
    TextLines(ReadOnlyLines(rows));
    TextLines(AllLines(rows));
    SkipEmpty(ReadOnlyLines(rows), ro);
    SkipEmpty(AllLines(rows), ro);
  }

  /** The read of a printed listing fails exactly when a subvolume was printed without a UUID. */
  lemma PrintedLacksUuid(rows: seq<Row>)
    requires forall row | row in rows :: Printable(row)
    ensures (exists line | line in Split(AllText(rows), {'\n'}) :: LacksUuid(line))
            <==> (exists row | row in rows :: row.info.uuid == "")
  {
    UuidsRead(rows);
    TextLines(AllLines(rows));
    SkipEmpty([], {});
    assert forall line | line in AllLines(rows) + [""] :: line in AllLines(rows) || line == "";
    assert forall line | line in AllLines(rows) :: line in AllLines(rows) + [""];
  }
}
