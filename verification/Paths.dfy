/** The lexical path functions of Go's path/filepath on Unix, as far as the command builders use them. */
module Paths {
  import opened Text

  predicate Rooted(p: string) {
    p != "" && p[0] == '/'
  }

  /** One more element resolves against what the elements before it come to. */
  function Resolve(rooted: bool, st: seq<string>, c: string): seq<string> {
    if c == "" || c == "." then st
    else if c != ".." then st + [c]
    else if st != [] && st[|st| - 1] != ".." then st[..|st| - 1]
    else if rooted then st
    else st + [".."]
  }

  /** Resolves empty, "." and ".." elements, left to right. */
  function Reduce(rooted: bool, comps: seq<string>): seq<string> {
    if comps == [] then [] else Resolve(rooted, Reduce(rooted, comps[..|comps| - 1]), comps[|comps| - 1])
  }

  function Render(rooted: bool, st: seq<string>): string {
    if rooted then "/" + Join(st, '/') else if st == [] then "." else Join(st, '/')
  }

  /** The elements of the cleaned path. */
  function Elements(p: string): seq<string> {
    Reduce(Rooted(p), Split(p, {'/'}))
  }

  function Clean(p: string): string {
    Render(Rooted(p), Elements(p))
  }

  function JoinPath(dir: string, name: string): string {
    if dir == "" && name == "" then ""
    else if dir == "" then Clean(name)
    else if name == "" then Clean(dir)
    else Clean(dir + "/" + name)
  }

  function Base(p: string): string {
    if p == "" then "."
    else
      var comps := NonEmpty(Split(p, {'/'}));
      if comps == [] then "/" else comps[|comps| - 1]
  }

  /** Everything up to and including the last slash. */
  function UpToSlash(p: string): string {
    if p == "" || p[|p| - 1] == '/' then p else UpToSlash(p[..|p| - 1])
  }

  function Dir(p: string): string {
    Clean(UpToSlash(p))
  }

  /** A single path element that stands for itself. */
  predicate Element(c: string) {
    c != "" && c != "." && c != ".." && Free(c, {'/'})
  }

  /** What Reduce produces: elements, after leading ".." if the path is not rooted. */
  predicate Normal(rooted: bool, st: seq<string>) {
    && (forall i | 0 <= i < |st| :: Element(st[i]) || (st[i] == ".." && !rooted))
    && (forall i, j | 0 <= i < j < |st| :: st[j] == ".." ==> st[i] == "..")
  }

  lemma {:induction false} ReduceIsNormal(rooted: bool, comps: seq<string>)
    requires forall c | c in comps :: Free(c, {'/'})
    ensures Normal(rooted, Reduce(rooted, comps))
  {
    if comps != [] {
      ReduceIsNormal(rooted, comps[..|comps| - 1]);
    }
  }

  lemma ReduceLast(rooted: bool, comps: seq<string>, c: string)
    ensures Reduce(rooted, comps + [c]) == Resolve(rooted, Reduce(rooted, comps), c)
  {
    assert (comps + [c])[..|comps|] == comps;
  }

  lemma {:induction false} ReduceNormal(rooted: bool, st: seq<string>)
    requires Normal(rooted, st)
    ensures Reduce(rooted, st) == st
  {
    if st != [] {
      var before, last := st[..|st| - 1], st[|st| - 1];
      ReduceNormal(rooted, before);
      ReduceLast(rooted, before, last);
      assert st == before + [last];
    }
  }

  lemma {:induction false} ReduceSkipsFirstEmpty(rooted: bool, comps: seq<string>)
    ensures Reduce(rooted, [""] + comps) == Reduce(rooted, comps)
  {
    if comps == [] {
      assert [""] + comps == [""];
      assert Reduce(rooted, [""]) == Reduce(rooted, [""][..0]);
    } else {
      var before, last := comps[..|comps| - 1], comps[|comps| - 1];
      ReduceSkipsFirstEmpty(rooted, before);
      assert comps == before + [last] && [""] + comps == ([""] + before) + [last];
      ReduceLast(rooted, before, last);
      ReduceLast(rooted, [""] + before, last);
    }
  }

  lemma ReduceSkipsLastEmpty(rooted: bool, comps: seq<string>)
    ensures Reduce(rooted, comps + [""]) == Reduce(rooted, comps)
  {
    assert (comps + [""])[..|comps|] == comps;
  }

  lemma NormalIsFree(rooted: bool, st: seq<string>)
    requires Normal(rooted, st)
    ensures forall c | c in st :: Free(c, {'/'})
  {
  }

  lemma NothingReduces(rooted: bool)
    ensures Reduce(rooted, [""]) == [] && Reduce(rooted, ["."]) == [] && Reduce(rooted, ["", ""]) == []
    ensures Split("", {'/'}) == [""] && Split(".", {'/'}) == ["."] && Split("/", {'/'}) == ["", ""]
  {
    assert [""][..0] == [] && ["."][..0] == [] && ["", ""][..1] == [""];
    SplitPiece("", "", '/', {'/'});
    SplitPiece(".", "", '/', {'/'});
    assert "" + ['/'] + "" == "/";
  }

  /** Reading a rendered path back gives its elements, with or without a trailing slash. */
  lemma ElementsOfRender(rooted: bool, st: seq<string>)
    requires Normal(rooted, st)
    ensures Rooted(Render(rooted, st)) == rooted && Elements(Render(rooted, st)) == st
    ensures st != [] ==> Rooted(Render(rooted, st) + "/") == rooted && Elements(Render(rooted, st) + "/") == st
  {
    ReduceNormal(rooted, st);
    if st == [] {
      NothingReduces(rooted);
      assert Render(rooted, st) == if rooted then "/" else ".";
    } else {
      var j := Join(st, '/');
      JoinHead(st);
      SplitOfJoin(rooted, st);
      ReduceSkipsLastEmpty(rooted, st);
      if rooted {
        SplitPiece("", j, '/', {'/'});
        SplitPiece("", j + "/", '/', {'/'});
        assert "" + ['/'] + j == "/" + j && "" + ['/'] + (j + "/") == "/" + j + "/";
        ReduceSkipsFirstEmpty(true, st);
        ReduceSkipsFirstEmpty(true, st + [""]);
      }
    }
  }

  lemma SplitOfJoin(rooted: bool, st: seq<string>)
    requires Normal(rooted, st) && st != []
    ensures Split(Join(st, '/'), {'/'}) == st && Split(Join(st, '/') + "/", {'/'}) == st + [""]
  {
    NormalIsFree(rooted, st);
    SplitJoin(st, '/', {'/'});
    JoinLast(st, "", '/');
    assert Join(st, '/') + ['/'] + "" == Join(st, '/') + "/";
    assert forall w | w in st + [""] :: w in st || w == "";
    SplitJoin(st + [""], '/', {'/'});
  }

  lemma JoinHead(st: seq<string>)
    requires st != [] && (Element(st[0]) || st[0] == "..")
    ensures Join(st, '/') != "" && Join(st, '/')[0] == st[0][0] && st[0][0] != '/'
  {
  }

  /** Cleaning a path twice is cleaning it once. */
  lemma CleanIdempotent(p: string)
    ensures Clean(Clean(p)) == Clean(p) && Normal(Rooted(p), Elements(p))
  {
    SplitIsFree(p, {'/'});
    ReduceIsNormal(Rooted(p), Split(p, {'/'}));
    ElementsOfRender(Rooted(p), Elements(p));
  }

  lemma {:induction false} UpToSlashOf(pre: string, name: string)
    requires Free(name, {'/'}) && (pre == "" || pre[|pre| - 1] == '/')
    ensures UpToSlash(pre + name) == pre
  {
    if name == "" {
      assert pre + name == pre;
    } else {
      UpToSlashOf(pre, name[..|name| - 1]);
      assert (pre + name)[..|pre + name| - 1] == pre + name[..|name| - 1];
    }
  }

  /** Joining an element to a cleaned directory can be taken apart again. */
  lemma JoinThenSplit(dir: string, name: string)
    requires dir == Clean(dir) && Element(name)
    ensures Dir(JoinPath(dir, name)) == dir && Base(JoinPath(dir, name)) == name
  {
    CleanIdempotent(dir);
    var rooted, st := Rooted(dir), Elements(dir);
    JoinElements(dir, name);
    BaseOf(rooted, st, name);
    DirOfJoined(rooted, st, name);
  }

  lemma DirOfJoined(rooted: bool, st: seq<string>, name: string)
    requires Normal(rooted, st) && Element(name)
    ensures Dir(Render(rooted, st + [name])) == Render(rooted, st)
  {
    var p := Render(rooted, st + [name]);
    if st == [] {
      assert st + [name] == [name];
      NothingReduces(rooted);
      var pre := if rooted then "/" else "";
      assert p == pre + name;
      UpToSlashOf(pre, name);
    } else {
      JoinLast(st, name, '/');
      var pre := Render(rooted, st) + "/";
      assert p == pre + name;
      UpToSlashOf(pre, name);
      ElementsOfRender(rooted, st);
    }
  }

  lemma JoinElements(dir: string, name: string)
    requires dir == Clean(dir) && Element(name) && Normal(Rooted(dir), Elements(dir))
    ensures JoinPath(dir, name) == Render(Rooted(dir), Elements(dir) + [name])
    ensures Normal(Rooted(dir), Elements(dir) + [name])
  {
    var rooted, comps := Rooted(dir), Split(dir, {'/'});
    NothingReduces(false);
    assert dir != "";
    SplitTwo(dir, name);
    OneComponent(name);
    assert Split(dir + "/" + name, {'/'}) == comps + [name];
    assert (comps + [name])[..|comps|] == comps;
    assert Reduce(rooted, comps + [name]) == Elements(dir) + [name];
    assert Rooted(dir + "/" + name) == rooted;
  }

  lemma BaseOf(rooted: bool, st: seq<string>, name: string)
    requires Normal(rooted, st + [name]) && Element(name)
    ensures Base(Render(rooted, st + [name])) == name
  {
    var all := st + [name];
    NormalIsFree(rooted, all);
    SplitJoin(all, '/', {'/'});
    var j := Join(all, '/');
    JoinHead(all);
    NonEmptyAll(all);
    if rooted {
      SplitPiece("", j, '/', {'/'});
      assert "" + ['/'] + j == "/" + j;
      NonEmptyAppend([""], all);
      assert NonEmpty([""]) == [];
    }
  }

  /* ---- one path after another ---- */

  /** The components resolved one by one, from what the path before them comes to. */
  function ReduceFrom(rooted: bool, st: seq<string>, comps: seq<string>): seq<string>
    decreases |comps|
  {
    if comps == [] then st else ReduceFrom(rooted, Resolve(rooted, st, comps[0]), comps[1..])
  }

  lemma {:induction false} ReduceAppend(rooted: bool, a: seq<string>, b: seq<string>)
    ensures Reduce(rooted, a + b) == ReduceFrom(rooted, Reduce(rooted, a), b)
    decreases |b|
  {
    if b == [] {
      assert a + b == a;
    } else {
      ReduceLast(rooted, a, b[0]);
      assert a + b == (a + [b[0]]) + b[1..];
      ReduceAppend(rooted, a + [b[0]], b[1..]);
    }
  }

  lemma SplitTwo(a: string, b: string)
    ensures Split(a + "/" + b, {'/'}) == Split(a, {'/'}) + Split(b, {'/'})
  {
    SplitAt(a, b, '/');
    assert a + "/" + b == a + ['/'] + b;
  }

  /** A path after another is resolved from what that comes to. */
  lemma ElementsOfTwo(a: string, b: string)
    requires a != ""
    ensures Rooted(a + "/" + b) == Rooted(a)
    ensures Elements(a + "/" + b) == ReduceFrom(Rooted(a), Elements(a), Split(b, {'/'}))
  {
    SplitTwo(a, b);
    ReduceAppend(Rooted(a), Split(a, {'/'}), Split(b, {'/'}));
  }

  /** Without a "..", components only add to what is there. */
  lemma {:induction false} ReducePlain(rooted: bool, st: seq<string>, comps: seq<string>)
    requires ".." !in comps
    ensures ReduceFrom(rooted, st, comps) == st + ReduceFrom(false, [], comps)
    decreases |comps|
  {
    if comps != [] {
      var one := Resolve(false, [], comps[0]);
      assert comps[0] in comps && forall c | c in comps[1..] :: c in comps;
      assert Resolve(rooted, st, comps[0]) == st + one;
      ReducePlain(rooted, st + one, comps[1..]);
      ReducePlain(false, one, comps[1..]);
    }
  }

  lemma ElementsPlain(p: string)
    requires ".." !in Split(p, {'/'})
    ensures Elements(p) == ReduceFrom(false, [], Split(p, {'/'}))
  {
    var comps := Split(p, {'/'});
    ReduceAppend(Rooted(p), [], comps);
    assert [] + comps == comps;
    ReducePlain(Rooted(p), [], comps);
  }

  /** So joining such a path to a directory appends its elements to those of the directory. */
  lemma JoinAppends(dir: string, p: string)
    requires dir != "" && ".." !in Split(p, {'/'})
    ensures Elements(JoinPath(dir, p)) == Elements(dir) + Elements(p) && Rooted(JoinPath(dir, p)) == Rooted(dir)
  {
    ElementsPlain(p);
    JoinIsClean(dir, p);
    ReducePlain(Rooted(dir), Elements(dir), Split(p, {'/'}));
  }

  /** Joining resolves the path from what the directory comes to. */
  lemma JoinIsClean(dir: string, p: string)
    requires dir != ""
    ensures Rooted(JoinPath(dir, p)) == Rooted(dir)
    ensures Elements(JoinPath(dir, p)) == ReduceFrom(Rooted(dir), Elements(dir), Split(p, {'/'}))
  {
    ElementsOfTwo(dir, p);
    CleanKeepsElements(dir);
    CleanKeepsElements(dir + "/" + p);
    if p == "" {
      NothingReduces(false);
      assert ReduceFrom(Rooted(dir), Elements(dir), [""][1..]) == Elements(dir);
    }
  }

  lemma CleanKeepsElements(p: string)
    ensures Elements(Clean(p)) == Elements(p) && Rooted(Clean(p)) == Rooted(p)
  {
    CleanIdempotent(p);
    ElementsOfRender(Rooted(p), Elements(p));
  }

  /* ---- the rules of Clean ---- */

  lemma ReduceFromTwo(rooted: bool, st: seq<string>, a: seq<string>, b: seq<string>)
    ensures ReduceFrom(rooted, st, a + b) == ReduceFrom(rooted, ReduceFrom(rooted, st, a), b)
    decreases |a|
  {
    if a == [] {
      assert a + b == b;
    } else {
      assert (a + b)[1..] == a[1..] + b;
      ReduceFromTwo(rooted, Resolve(rooted, st, a[0]), a[1..], b);
    }
  }

  /** Between two parts of a path, what comes to nothing can be left out. */
  lemma CleanSkips(a: string, x: string, b: string)
    requires a != "" && ReduceFrom(Rooted(a), Elements(a), Split(x, {'/'})) == Elements(a)
    ensures Clean(a + "/" + x + "/" + b) == Clean(a + "/" + b)
  {
    var rest := x + "/" + b;
    assert a + "/" + x + "/" + b == a + "/" + rest;
    ElementsOfTwo(a, rest);
    ElementsOfTwo(a, b);
    SplitTwo(x, b);
    ReduceFromTwo(Rooted(a), Elements(a), Split(x, {'/'}), Split(b, {'/'}));
  }

  lemma OneComponent(x: string)
    requires Free(x, {'/'})
    ensures Split(x, {'/'}) == [x]
  {
    SplitPiece(x, "", '/', {'/'});
  }

  lemma SkipComponent(a: string, x: string, b: string)
    requires a != "" && Free(x, {'/'}) && Resolve(Rooted(a), Elements(a), x) == Elements(a)
    ensures Clean(a + "/" + x + "/" + b) == Clean(a + "/" + b)
  {
    OneComponent(x);
    assert [x][1..] == [];
    assert ReduceFrom(Rooted(a), Elements(a), [x]) == Elements(a);
    CleanSkips(a, x, b);
  }

  lemma SkipUp(a: string, x: string, b: string)
    requires a != "" && Element(x)
    ensures Clean(a + "/" + (x + "/" + "..") + "/" + b) == Clean(a + "/" + b)
  {
    OneComponent(x);
    OneComponent("..");
    SplitTwo(x, "..");
    var st := Elements(a);
    assert [x, ".."][1..] == [".."] && [".."][1..] == [];
    assert [x] + [".."] == [x, ".."];
    assert ReduceFrom(Rooted(a), st + [x], [".."]) == st;
    assert ReduceFrom(Rooted(a), st, [x, ".."]) == st;
    CleanSkips(a, x + "/" + "..", b);
  }

  /**
    The rules of Clean: an empty component and a "." come to nothing, a ".." takes the element before it away,
    and at the root it comes to nothing too.
   */
  lemma CleanRules(a: string, x: string, b: string)
    requires a != "" && Element(x)
    ensures Clean(a + "/" + "" + "/" + b) == Clean(a + "/" + b)
    ensures Clean(a + "/" + "." + "/" + b) == Clean(a + "/" + b)
    ensures Clean(a + "/" + (x + "/" + "..") + "/" + b) == Clean(a + "/" + b)
    ensures Rooted(a) && Elements(a) == [] ==> Clean(a + "/" + ".." + "/" + b) == Clean(a + "/" + b)
  {
    SkipComponent(a, "", b);
    SkipComponent(a, ".", b);
    SkipUp(a, x, b);
    if Rooted(a) && Elements(a) == [] {
      SkipComponent(a, "..", b);
    }
  }
}
