/** The commands btrepl runs on a slave, and the forced command that allows exactly these. */
module Filter {
  import opened Wrappers
  import opened Text
  import opened Paths
  import opened Shell
  import opened Remote
  import opened Naming

  /** The commands for one btrfs_root and snapshot_dir; both paths are clean. */
  datatype Commands = Commands(root: string, snapDir: string) {
    function MountInfo(): string { "cat /proc/self/mountinfo" }

    function ListSubvolumes(): string { "btrfs subvolume list -u -R " + Quote(root) }

    function ListReadOnly(): string { "btrfs subvolume list -r " + Quote(root) }

    function MkdirSnapshotDir(): string { "mkdir -p -m 0700 " + Quote(snapDir) }

    function ChmodSnapshotDir(): string { "chmod 0700 " + Quote(snapDir) }

    function Receive(): string { "btrfs receive --chroot " + Quote(snapDir) }

    function Delete(name: string): string { DELETE_PREFIX + Quote(JoinPath(snapDir, name)) }
  }

  const DELETE_PREFIX := "btrfs subvolume delete "

  function New(btrfsRoot: string, snapshotDir: string): Commands {
    var root := Clean(btrfsRoot);
    Commands(root, JoinPath(root, snapshotDir))
  }

  predicate ValidName(name: string) {
    name != "" && name != "." && name != ".." && AllSafe(name) && '/' !in name
  }

  ghost predicate WellFormed(c: Commands) {
    c.root == Clean(c.root) && c.snapDir == Clean(c.snapDir)
  }

  lemma NewIsWellFormed(btrfsRoot: string, snapshotDir: string)
    ensures WellFormed(New(btrfsRoot, snapshotDir))
  {
    CleanIdempotent(btrfsRoot);
    var root := Clean(btrfsRoot);
    CleanIdempotent(root);
    CleanIdempotent(snapshotDir);
    CleanIdempotent(root + "/" + snapshotDir);
    CleanIsNotEmpty(btrfsRoot);
  }

  /**
    The paths of the commands: root is btrfs_root, and the snapshot directory is what snapshot_dir comes to
    from there. If there is no ".." in it, its elements follow those of btrfs_root.
   */
  lemma NewPaths(btrfsRoot: string, snapshotDir: string)
    ensures var c := New(btrfsRoot, snapshotDir);
            && Rooted(c.root) == Rooted(c.snapDir) == Rooted(btrfsRoot) && Elements(c.root) == Elements(btrfsRoot)
            && Elements(c.snapDir)
               == ReduceFrom(Rooted(btrfsRoot), Elements(btrfsRoot), Split(snapshotDir, {'/'}))
            && (".." !in Split(snapshotDir, {'/'}) ==>
                  Elements(c.snapDir) == Elements(btrfsRoot) + Elements(snapshotDir))
            && (Element(snapshotDir) ==> Dir(c.snapDir) == c.root && Base(c.snapDir) == snapshotDir)
  {
    var root := Clean(btrfsRoot);
    CleanKeepsElements(btrfsRoot);
    CleanIsNotEmpty(btrfsRoot);
    JoinIsClean(root, snapshotDir);
    if ".." !in Split(snapshotDir, {'/'}) {
      JoinAppends(root, snapshotDir);
    }
    if Element(snapshotDir) {
      CleanIdempotent(btrfsRoot);
      JoinThenSplit(root, snapshotDir);
    }
  }

  lemma CleanIsNotEmpty(p: string)
    ensures Clean(p) != ""
  {
    CleanIdempotent(p);
    if Elements(p) != [] {
      JoinHead(Elements(p));
    }
  }

  /** The fixed commands, with the words each is run as. */
  function Fixed(c: Commands, cmd: string): Option<seq<string>> {
    if cmd == c.MountInfo() then Some(["cat", "/proc/self/mountinfo"])
    else if cmd == c.MkdirSnapshotDir() then Some(["mkdir", "-p", "-m", "0700", c.snapDir])
    else if cmd == c.ChmodSnapshotDir() then Some(["chmod", "0700", c.snapDir])
    else if cmd == c.ListSubvolumes() then Some(["btrfs", "subvolume", "list", "-u", "-R", c.root])
    else if cmd == c.ListReadOnly() then Some(["btrfs", "subvolume", "list", "-r", c.root])
    else if cmd == c.Receive() then Some(["btrfs", "receive", "--chroot", c.snapDir])
    else None
  }

  /** A delete of a valid snapshot name in the snapshot directory. */
  ghost predicate IsDelete(c: Commands, cmd: string) {
    exists name :: ValidName(name) && cmd == c.Delete(name)
  }

  /** One of the fixed commands, or such a delete. */
  ghost predicate IsCommand(c: Commands, cmd: string) {
    || cmd in {c.MountInfo(), c.MkdirSnapshotDir(), c.ChmodSnapshotDir(), c.ListSubvolumes(), c.ListReadOnly(),
       c.Receive()}
    || IsDelete(c, cmd)
  }

  /**
    The argv to execute, if the command is allowed: it is allowed exactly if it is one of the
    commands above, and the argv is what a POSIX shell would have split the command into.
   */
  method Allow(c: Commands, cmd: string) returns (argv: Option<seq<string>>)
    requires WellFormed(c)
    ensures argv.Some? <==> IsCommand(c, cmd)
    ensures argv.Some? ==> Words(cmd) == argv
  {
    argv := Fixed(c, cmd);
    if argv.Some? {
      FixedWords(c, cmd);
      return;
    }
    if DELETE_PREFIX <= cmd {
      var path, ok := Unquote(cmd[|DELETE_PREFIX|..]);
      var name := Base(path);
      ghost var good := IsDelete(c, cmd);
      if good {
        var n :| ValidName(n) && cmd == c.Delete(n);
        assert cmd[|DELETE_PREFIX|..] == Quote(JoinPath(c.snapDir, n));
        JoinThenSplit(c.snapDir, n);
        assert ok;
        QuoteInjective(path, JoinPath(c.snapDir, n));
      }
      if ok && Dir(path) == c.snapDir && ValidName(name) && cmd == c.Delete(name) {
        DeleteWords(c, name);
        QuoteInjective(path, JoinPath(c.snapDir, name));
        return Some(["btrfs", "subvolume", "delete", path]);
      }
    }
    return None;
  }

  lemma SpacedQuote(ws: seq<string>, pre: string, s: string)
    requires pre == Spaced(ws) && forall w | w in ws :: w != "" && Ordinary(w)
    ensures Words(pre + Quote(s)) == Some(ws + [s])
  {
    FeedSpaced(ws);
    FeedAppend(START, pre, Quote(s));
    FeedQuote(ws, s);
  }

  lemma Spaced1(a: string)
    ensures Spaced([a]) == a + " "
  {
    assert [a][..0] == [];
    assert Spaced([]) + a + " " == a + " ";
  }

  lemma Spaced2(a: string, b: string)
    ensures Spaced([a, b]) == (a + " ") + (b + " ")
  {
    Spaced1(a);
    assert [a, b][..1] == [a];
    assert Spaced([a]) + b + " " == Spaced([a]) + (b + " ");
  }

  lemma Spaced3(a: string, b: string, c: string)
    ensures Spaced([a, b, c]) == ((a + " ") + (b + " ")) + (c + " ")
  {
    Spaced2(a, b);
    assert [a, b, c][..2] == [a, b];
    assert Spaced([a, b]) + c + " " == Spaced([a, b]) + (c + " ");
  }

  lemma Spaced4(a: string, b: string, c: string, d: string)
    ensures Spaced([a, b, c, d]) == (((a + " ") + (b + " ")) + (c + " ")) + (d + " ")
  {
    Spaced3(a, b, c);
    assert [a, b, c, d][..3] == [a, b, c];
    assert Spaced([a, b, c]) + d + " " == Spaced([a, b, c]) + (d + " ");
  }

  lemma Spaced5(a: string, b: string, c: string, d: string, e: string)
    ensures Spaced([a, b, c, d, e]) == ((((a + " ") + (b + " ")) + (c + " ")) + (d + " ")) + (e + " ")
  {
    Spaced4(a, b, c, d);
    assert [a, b, c, d, e][..4] == [a, b, c, d];
    assert Spaced([a, b, c, d]) + e + " " == Spaced([a, b, c, d]) + (e + " ");
  }

  lemma MkdirPrefix()
    ensures Spaced(["mkdir", "-p", "-m", "0700"]) == "mkdir -p -m 0700 "
            && forall w | w in ["mkdir", "-p", "-m", "0700"] :: w != "" && Ordinary(w)
  {
    Spaced4("mkdir", "-p", "-m", "0700");
    assert "mkdir " + "-p " == "mkdir -p ";
    assert "mkdir -p " + "-m " == "mkdir -p -m ";
    assert "mkdir -p -m " + "0700 " == "mkdir -p -m 0700 ";
  }

  lemma MkdirWords(c: Commands)
    ensures Words(c.MkdirSnapshotDir()) == Some(["mkdir", "-p", "-m", "0700", c.snapDir])
  {
    MkdirPrefix();
    SpacedQuote(["mkdir", "-p", "-m", "0700"], "mkdir -p -m 0700 ", c.snapDir);
    assert ["mkdir", "-p", "-m", "0700"] + [c.snapDir] == ["mkdir", "-p", "-m", "0700", c.snapDir];
  }

  lemma ChmodPrefix()
    ensures Spaced(["chmod", "0700"]) == "chmod 0700 " && forall w | w in ["chmod", "0700"] :: w != "" && Ordinary(w)
  {
    Spaced2("chmod", "0700");
    assert "chmod " + "0700 " == "chmod 0700 ";
  }

  lemma ChmodWords(c: Commands)
    ensures Words(c.ChmodSnapshotDir()) == Some(["chmod", "0700", c.snapDir])
  {
    ChmodPrefix();
    SpacedQuote(["chmod", "0700"], "chmod 0700 ", c.snapDir);
    assert ["chmod", "0700"] + [c.snapDir] == ["chmod", "0700", c.snapDir];
  }

  lemma ListPrefix()
    ensures ("btrfs " + "subvolume ") + "list " == "btrfs subvolume list "
  {
    assert "btrfs " + "subvolume " == "btrfs subvolume ";
    assert "btrfs subvolume " + "list " == "btrfs subvolume list ";
  }

  lemma ListSubvolumesPrefix()
    ensures Spaced(["btrfs", "subvolume", "list", "-u", "-R"]) == "btrfs subvolume list -u -R "
            && forall w | w in ["btrfs", "subvolume", "list", "-u", "-R"] :: w != "" && Ordinary(w)
  {
    Spaced5("btrfs", "subvolume", "list", "-u", "-R");
    ListPrefix();
    assert "btrfs subvolume list " + "-u " == "btrfs subvolume list -u ";
    assert "btrfs subvolume list -u " + "-R " == "btrfs subvolume list -u -R ";
  }

  lemma ListSubvolumesWords(c: Commands)
    ensures Words(c.ListSubvolumes()) == Some(["btrfs", "subvolume", "list", "-u", "-R", c.root])
  {
    ListSubvolumesPrefix();
    SpacedQuote(["btrfs", "subvolume", "list", "-u", "-R"], "btrfs subvolume list -u -R ", c.root);
    assert ["btrfs", "subvolume", "list", "-u", "-R"] + [c.root] == ["btrfs", "subvolume", "list", "-u", "-R", c.root];
  }

  lemma ListReadOnlyPrefix()
    ensures Spaced(["btrfs", "subvolume", "list", "-r"]) == "btrfs subvolume list -r "
            && forall w | w in ["btrfs", "subvolume", "list", "-r"] :: w != "" && Ordinary(w)
  {
    Spaced4("btrfs", "subvolume", "list", "-r");
    ListPrefix();
    assert "btrfs subvolume list " + "-r " == "btrfs subvolume list -r ";
  }

  lemma ListReadOnlyWords(c: Commands)
    ensures Words(c.ListReadOnly()) == Some(["btrfs", "subvolume", "list", "-r", c.root])
  {
    ListReadOnlyPrefix();
    SpacedQuote(["btrfs", "subvolume", "list", "-r"], "btrfs subvolume list -r ", c.root);
    assert ["btrfs", "subvolume", "list", "-r"] + [c.root] == ["btrfs", "subvolume", "list", "-r", c.root];
  }

  lemma ReceivePrefix()
    ensures Spaced(["btrfs", "receive", "--chroot"]) == "btrfs receive --chroot "
            && forall w | w in ["btrfs", "receive", "--chroot"] :: w != "" && Ordinary(w)
  {
    Spaced3("btrfs", "receive", "--chroot");
    assert "btrfs " + "receive " == "btrfs receive ";
    assert "btrfs receive " + "--chroot " == "btrfs receive --chroot ";
  }

  lemma ReceiveWords(c: Commands)
    ensures Words(c.Receive()) == Some(["btrfs", "receive", "--chroot", c.snapDir])
  {
    ReceivePrefix();
    SpacedQuote(["btrfs", "receive", "--chroot"], "btrfs receive --chroot ", c.snapDir);
    assert ["btrfs", "receive", "--chroot"] + [c.snapDir] == ["btrfs", "receive", "--chroot", c.snapDir];
  }

  lemma DeletePrefix()
    ensures Spaced(["btrfs", "subvolume", "delete"]) == "btrfs subvolume delete "
            && forall w | w in ["btrfs", "subvolume", "delete"] :: w != "" && Ordinary(w)
  {
    Spaced3("btrfs", "subvolume", "delete");
    assert "btrfs " + "subvolume " == "btrfs subvolume ";
    assert "btrfs subvolume " + "delete " == "btrfs subvolume delete ";
  }

  lemma DeleteWords(c: Commands, name: string)
    ensures Words(c.Delete(name)) == Some(["btrfs", "subvolume", "delete", JoinPath(c.snapDir, name)])
  {
    DeletePrefix();
    SpacedQuote(["btrfs", "subvolume", "delete"], "btrfs subvolume delete ", JoinPath(c.snapDir, name));
    assert ["btrfs", "subvolume", "delete"] + [JoinPath(c.snapDir, name)]
        == ["btrfs", "subvolume", "delete", JoinPath(c.snapDir, name)];
  }

  lemma MountInfoWords(cmd: string, file: string)
    requires cmd == "cat " + file && file == "/proc/self/mountinfo"
    ensures Words(cmd) == Some(["cat", file])
  {
    Spaced1("cat");
    assert Ordinary("cat");
    PlainWord("cat ", ["cat"], file);
    assert ["cat"] + [file] == ["cat", file];
  }

  lemma PlainWord(pre: string, ws: seq<string>, s: string)
    requires pre == Spaced(ws) && (forall w | w in ws :: w != "" && Ordinary(w)) && s != "" && AllSafe(s)
    ensures Words(pre + s) == Some(ws + [s])
  {
    SpacedQuote(ws, pre, s);
  }

  lemma FixedWords(c: Commands, cmd: string)
    requires Fixed(c, cmd).Some?
    ensures Words(cmd) == Fixed(c, cmd)
  {
    if cmd == c.MountInfo() {
      assert "cat /proc/self/mountinfo" == "cat " + "/proc/self/mountinfo";
      MountInfoWords(cmd, "/proc/self/mountinfo");
    } else if cmd == c.MkdirSnapshotDir() {
      MkdirWords(c);
    } else if cmd == c.ChmodSnapshotDir() {
      ChmodWords(c);
    } else if cmd == c.ListSubvolumes() {
      ListSubvolumesWords(c);
    } else if cmd == c.ListReadOnly() {
      ListReadOnlyWords(c);
    } else {
      ReceiveWords(c);
    }
  }

  /* ---- the delete of a snapshot ---- */

  lemma {:induction false} DigitsAreSafe(n: nat, w: nat)
    ensures AllSafe(Digits(n, w)) && '/' !in Digits(n, w)
  {
    if w > 0 {
      DigitsAreSafe(n / 10, w - 1);
    }
  }

  lemma StampIsSafe(t: Moment)
    ensures AllSafe(Stamp(t)) && '/' !in Stamp(t)
  {
    DigitsAreSafe(t.year, 4);
    DigitsAreSafe(t.month, 2);
    DigitsAreSafe(t.day, 2);
    DigitsAreSafe(t.hour, 2);
    DigitsAreSafe(t.minute, 2);
    DigitsAreSafe(t.second, 2);
  }

  lemma SafeAppend(a: string, b: string)
    ensures AllSafe(a + b) <==> AllSafe(a) && AllSafe(b)
  {
    assert forall i | 0 <= i < |a| :: (a + b)[i] == a[i];
    assert forall i | 0 <= i < |b| :: (a + b)[|a| + i] == b[i];
  }

  lemma NameIsSafe(prefix: string, subvol: string, t: Moment)
    ensures AllSafe(SnapshotName(prefix, subvol, Stamp(t))) <==> AllSafe(prefix) && AllSafe(subvol)
    ensures '/' in SnapshotName(prefix, subvol, Stamp(t)) <==> '/' in prefix || '/' in subvol
  {
    var name, v, ts := SnapshotName(prefix, subvol, Stamp(t)), StripAt(subvol), Stamp(t);
    StampIsSafe(t);
    SafeAppend(prefix, v);
    SafeAppend(prefix + v, "_");
    SafeAppend(prefix + v + "_", ts);
    SafeAppend(['@'], v);
    assert subvol == v || subvol == ['@'] + v;
  }

  lemma DifferAt(i: nat, a: string, b: string, s: string, t: string)
    requires i < |a| && i < |b| && a[i] != b[i]
    ensures a + s != b + t
  {
    assert (a + s)[i] == a[i] && (b + t)[i] == b[i];
  }

  lemma DeleteIsNotListOrReceive(c: Commands, name: string)
    ensures c.Delete(name) !in {c.ListSubvolumes(), c.ListReadOnly(), c.Receive()}
  {
    var path := Quote(JoinPath(c.snapDir, name));
    DifferAt(16, DELETE_PREFIX, "btrfs subvolume list -u -R ", path, Quote(c.root));
    DifferAt(16, DELETE_PREFIX, "btrfs subvolume list -r ", path, Quote(c.root));
    DifferAt(6, DELETE_PREFIX, "btrfs receive --chroot ", path, Quote(c.snapDir));
  }

  /** No fixed command starts as a delete does. */
  lemma DeleteIsNotFixed(c: Commands, name: string)
    ensures c.Delete(name) !in {c.MountInfo(), c.MkdirSnapshotDir(), c.ChmodSnapshotDir(), c.ListSubvolumes(),
                                c.ListReadOnly(), c.Receive()}
  {
    DeleteIsNotListOrReceive(c, name);
    assert c.Delete(name)[0] == 'b';
  }

  lemma DeletesOnlyValid(c: Commands, name: string)
    requires WellFormed(c) && name != "" && name != "." && name != ".." && '/' !in name
    ensures IsDelete(c, c.Delete(name)) <==> AllSafe(name)
  {
    if IsDelete(c, c.Delete(name)) {
      var n :| ValidName(n) && c.Delete(name) == c.Delete(n);
      assert c.Delete(name)[|DELETE_PREFIX|..] == Quote(JoinPath(c.snapDir, name));
      assert c.Delete(n)[|DELETE_PREFIX|..] == Quote(JoinPath(c.snapDir, n));
      QuoteInjective(JoinPath(c.snapDir, n), JoinPath(c.snapDir, name));
      JoinThenSplit(c.snapDir, n);
      JoinThenSplit(c.snapDir, name);
    } else {
      assert !ValidName(name);
    }
  }

  /**
    A slave's filter lets the delete of a snapshot through, with the name btrepl gives a snapshot, exactly if
    the configured prefix and the subvolume use only safe characters.
   */
  lemma SnapshotDeletePasses(c: Commands, prefix: string, subvol: string, t: Moment)
    requires WellFormed(c) && '/' !in prefix && '/' !in subvol
    ensures IsCommand(c, c.Delete(SnapshotName(prefix, subvol, Stamp(t)))) <==> AllSafe(prefix) && AllSafe(subvol)
  {
    var name := SnapshotName(prefix, subvol, Stamp(t));
    assert |name| >= 16;
    NameIsSafe(prefix, subvol, t);
    DeleteIsNotFixed(c, name);
    DeletesOnlyValid(c, name);
  }
}
