/**
  Snapshot names: prefix + subvolume without its "@" + "_" + time stamp. Names are unambiguous because
  no accepted time stamp has an underscore in it, and they sort by time because a stamp has fixed width.
 */
module Naming {
  import opened Wrappers
  import opened Text

  /** `time.ParseInLocation` with the snapshot layout: the time, or None where it returns an error. */
  type Parse = string -> Option<int>

  /** All that is used of it: a text with an underscore is not a time. */
  ghost predicate Sound(parse: Parse) {
    forall ts | parse(ts).Some? :: Free(ts, {'_'})
  }

  function StripAt(subvol: string): string {
    if subvol != "" && subvol[0] == '@' then subvol[1..] else subvol
  }

  function SnapshotName(prefix: string, subvol: string, ts: string): string {
    prefix + StripAt(subvol) + "_" + ts
  }

  /** The time of a snapshot of `subvol`, None if the name is not one. */
  function TimeIn(parse: Parse, prefix: string, subvol: string, name: string): Option<int> {
    var start := SnapshotName(prefix, subvol, "");
    if start <= name then parse(name[|start|..]) else None
  }

  /**
    A name belongs to one subvolume, whatever underscores the subvolumes have in their names: two that
    differ after stripping "@" have no snapshot in common.
   */
  lemma NameDetermines(parse: Parse, prefix: string, a: string, b: string, name: string)
    requires Sound(parse) && TimeIn(parse, prefix, a, name).Some? && TimeIn(parse, prefix, b, name).Some?
    ensures StripAt(a) == StripAt(b) && TimeIn(parse, prefix, a, name) == TimeIn(parse, prefix, b, name)
  {
    var p, q := SnapshotName(prefix, a, ""), SnapshotName(prefix, b, "");
    if |p| < |q| {
      UnderscoreLeft(name, p, q);
    } else if |q| < |p| {
      UnderscoreLeft(name, q, p);
    } else {
      assert p == q;
      assert StripAt(a) == p[|prefix|..|p| - 1] == q[|prefix|..|q| - 1] == StripAt(b);
    }
  }

  lemma UnderscoreLeft(name: string, p: string, q: string)
    requires p <= name && q <= name && |p| < |q| && q[|q| - 1] == '_'
    ensures !Free(name[|p|..], {'_'})
  {
    assert name[|p|..][|q| - 1 - |p|] == q[|q| - 1];
  }

  /* ---- the subvolumes a snapshot directory tells of ---- */

  /** The place after the last underscore, 0 if there is none. */
  function AfterLast(s: string): (i: nat)
    ensures i <= |s| && (forall k | i <= k < |s| :: s[k] != '_') && (i > 0 ==> s[i - 1] == '_')
  {
    if s == "" then 0 else if s[|s| - 1] == '_' then |s| else AfterLast(s[..|s| - 1])
  }

  /** The subvolume that an entry of the snapshot directory is taken to be a snapshot of. */
  function Owner(parse: Parse, prefix: string, entry: string): Option<string> {
    if !(prefix <= entry) then None
    else
      var rest := entry[|prefix|..];
      var i := AfterLast(rest);
      if i == 0 || parse(rest[i..]).None? then None else Some("@" + rest[..i - 1])
  }

  lemma AfterLastOf(a: string, ts: string)
    requires Free(ts, {'_'})
    ensures AfterLast(a + "_" + ts) == |a| + 1
  {
    var s := a + "_" + ts;
    assert s[|a|] == '_' && forall k | |a| < k < |s| :: s[k] != '_';
  }

  /** An entry's owner is the one subvolume with an "@" that has it in its list. */
  lemma OwnerExact(parse: Parse, prefix: string, entry: string, subvol: string)
    requires Sound(parse)
    ensures Owner(parse, prefix, entry) == Some(subvol)
            <==> subvol != "" && subvol[0] == '@' && TimeIn(parse, prefix, subvol, entry).Some?
  {
    OwnerHasIt(parse, prefix, entry);
    if subvol != "" && subvol[0] == '@' && TimeIn(parse, prefix, subvol, entry).Some? {
      var ts := StampOf(parse, prefix, subvol, entry);
      OwnerOf(parse, prefix, StripAt(subvol), ts);
      assert subvol == "@" + StripAt(subvol);
    }
  }

  lemma StampOf(parse: Parse, prefix: string, subvol: string, entry: string) returns (ts: string)
    requires TimeIn(parse, prefix, subvol, entry).Some?
    ensures parse(ts).Some? && entry == prefix + StripAt(subvol) + "_" + ts
  {
    var start := SnapshotName(prefix, subvol, "");
    ts := entry[|start|..];
    assert start == prefix + StripAt(subvol) + "_";
  }

  lemma OwnerOf(parse: Parse, prefix: string, name: string, ts: string)
    requires Free(ts, {'_'}) && parse(ts).Some?
    ensures Owner(parse, prefix, prefix + name + "_" + ts) == Some("@" + name)
  {
    AfterLastOf(name, ts);
    var rest := name + "_" + ts;
    assert prefix + name + "_" + ts == prefix + rest && (prefix + rest)[|prefix|..] == rest;
    assert rest[..|name|] == name && rest[|name| + 1..] == ts;
  }

  lemma OwnerHasIt(parse: Parse, prefix: string, entry: string)
    ensures var owner := Owner(parse, prefix, entry);
            owner.Some? ==>
                owner.value != "" && owner.value[0] == '@' && TimeIn(parse, prefix, owner.value, entry).Some?
  {
    if Owner(parse, prefix, entry).Some? {
      var rest := entry[|prefix|..];
      var i := AfterLast(rest);
      var start := prefix + rest[..i - 1] + "_";
      assert rest == rest[..i - 1] + "_" + rest[i..];
      assert entry == start + rest[i..];
      assert SnapshotName(prefix, "@" + rest[..i - 1], "") == start;
    }
  }

  /** Exactly the subvolumes with an "@" that have a snapshot in the directory, each once. */
  method ListAllSubvolumes(parse: Parse, prefix: string, entries: seq<string>) returns (subvols: seq<string>)
    requires Sound(parse)
    ensures forall i, j | 0 <= i < j < |subvols| :: subvols[i] != subvols[j]
    ensures forall v :: v in subvols <==>
              v != "" && v[0] == '@' && exists e | e in entries :: TimeIn(parse, prefix, v, e).Some?
  {
    var seen: map<string, bool> := map[];
    subvols := [];
    for k := 0 to |entries|
      invariant forall v :: v in seen <==> v in subvols
      invariant forall i, j | 0 <= i < j < |subvols| :: subvols[i] != subvols[j]
      invariant forall v :: v in subvols <==> exists j | 0 <= j < k :: Owner(parse, prefix, entries[j]) == Some(v)
    {
      var owner := Owner(parse, prefix, entries[k]);
      if owner.Some? && owner.value !in seen {
        seen := seen[owner.value := true];
        subvols := subvols + [owner.value];
      }
    }
    forall v ensures v in subvols <==>
        v != "" && v[0] == '@' && exists e | e in entries :: TimeIn(parse, prefix, v, e).Some?
    {
      forall e | e in entries {
        OwnerExact(parse, prefix, e, v);
      }
      if e :| e in entries && v != "" && v[0] == '@' && TimeIn(parse, prefix, v, e).Some? {
        var j :| 0 <= j < |entries| && entries[j] == e;
      }
    }
  }

  /* ---- time stamps ---- */

  datatype Moment = Moment(year: nat, month: nat, day: nat, hour: nat, minute: nat, second: nat)

  predicate Leap(y: nat) {
    y % 4 == 0 && (y % 100 != 0 || y % 400 == 0)
  }

  function DaysIn(y: nat, m: nat): (n: nat)
    ensures 28 <= n <= 31
  {
    if m == 2 then (if Leap(y) then 29 else 28) else if m in {4, 6, 9, 11} then 30 else 31
  }

  predicate Real(t: Moment) {
    && t.year <= 9999 && 1 <= t.month <= 12 && 1 <= t.day <= DaysIn(t.year, t.month)
    && t.hour <= 23 && t.minute <= 59 && t.second <= 59
  }

  /** Days from the start of the year to the start of the month. */
  function MonthStart(y: nat, m: nat): nat {
    if m <= 1 then 0 else MonthStart(y, m - 1) + DaysIn(y, m - 1)
  }

  /** Days from the start of year 0 to the start of the year. */
  function YearStart(y: nat): nat {
    if y == 0 then 0 else YearStart(y - 1) + MonthStart(y - 1, 13)
  }

  /** Seconds since the start of year 0, in UTC. */
  function Seconds(t: Moment): int {
    86400 * (YearStart(t.year) + MonthStart(t.year, t.month) + t.day) + 3600 * t.hour + 60 * t.minute + t.second
  }

  function Digits(n: nat, width: nat): (s: string)
    ensures |s| == width && Free(s, {'_'})
  {
    if width == 0 then "" else Digits(n / 10, width - 1) + [('0' as int + n % 10) as char]
  }

  /** The layout 20060102T150405. */
  function Stamp(t: Moment): (s: string)
    ensures |s| == 15 && Free(s, {'_'})
  {
    Digits(t.year, 4) + (Digits(t.month, 2) + (Digits(t.day,
        2) + ("T" + (Digits(t.hour, 2) + (Digits(t.minute, 2) + Digits(t.second, 2))))))
  }

  /** The reference time of the layout is printed as the layout itself. */
  lemma StampOfLayout()
    ensures Stamp(Moment(2006, 1, 2, 15, 4, 5)) == "20060102T150405"
  {
    FourDigits();
    TwoDigits(1);
    TwoDigits(2);
    TwoDigits(4);
    TwoDigits(5);
    TwoDigits(15);
    assert "15" + ("04" + "05") == "150405";
    assert "01" + ("02" + ("T" + "150405")) == "0102T150405";
  }

  lemma FourDigits()
    ensures Digits(2006, 4) == "2006"
  {
    TwoDigits(20);
    assert Digits(2006, 4) == (Digits(20, 2) + ['0']) + ['6'];
  }

  lemma TwoDigits(n: nat)
    requires n < 100
    ensures Digits(n, 2) == [(48 + n / 10) as char, (48 + n % 10) as char]
  {
    assert Digits(n / 10, 1) == Digits(n / 10 / 10, 0) + [(48 + n / 10 % 10) as char];
  }

  /** Lexicographic order. */
  predicate Before(a: string, b: string) {
    b != "" && (a == "" || a[0] < b[0] || (a[0] == b[0] && Before(a[1..], b[1..])))
  }

  lemma {:induction false} BeforeAppend(a: string, b: string, c: string, d: string)
    requires |a| == |b|
    ensures Before(a + c, b + d) <==> Before(a, b) || (a == b && Before(c, d))
  {
    if a == "" {
      assert a + c == c && b + d == d;
    } else {
      assert (a + c)[1..] == a[1..] + c && (b + d)[1..] == b[1..] + d;
      BeforeAppend(a[1..], b[1..], c, d);
      assert a == [a[0]] + a[1..] && b == [b[0]] + b[1..];
    }
  }

  function Pow10(w: nat): nat {
    if w == 0 then 1 else 10 * Pow10(w - 1)
  }

  /** Numbers of one width sort as numbers. */
  lemma {:induction false} DigitsOrder(n: nat, m: nat, w: nat)
    requires n < Pow10(w) && m < Pow10(w)
    ensures Before(Digits(n, w), Digits(m, w)) <==> n < m
    ensures Digits(n, w) == Digits(m, w) <==> n == m
  {
    if w > 0 {
      var x, y := ('0' as int + n % 10) as char, ('0' as int + m % 10) as char;
      DigitsOrder(n / 10, m / 10, w - 1);
      BeforeAppend(Digits(n / 10, w - 1), Digits(m / 10, w - 1), [x], [y]);
      var a, b := Digits(n, w), Digits(m, w);
      assert a[..w - 1] == Digits(n / 10, w - 1) && b[..w - 1] == Digits(m / 10, w - 1);
      assert a[w - 1] == x && b[w - 1] == y;
    }
  }

  lemma FieldOrder(n: nat, m: nat, w: nat, c: string, d: string)
    requires n < Pow10(w) && m < Pow10(w)
    ensures Before(Digits(n, w) + c, Digits(m, w) + d) <==> n < m || (n == m && Before(c, d))
  {
    DigitsOrder(n, m, w);
    BeforeAppend(Digits(n, w), Digits(m, w), c, d);
  }

  /** Earlier, field by field. */
  predicate Earlier(a: Moment, b: Moment) {
    a.year < b.year || (a.year == b.year && (a.month < b.month
        || (a.month == b.month && (a.day < b.day || (a.day == b.day && Clock(a) < Clock(b))))))
  }

  function Clock(t: Moment): int {
    3600 * t.hour + 60 * t.minute + t.second
  }

  lemma StampIsEarlier(a: Moment, b: Moment)
    requires Real(a) && Real(b)
    ensures Before(Stamp(a), Stamp(b)) <==> Earlier(a, b)
  {
    assert Pow10(2) == 100 && Pow10(4) == 10000 by {
      assert Pow10(1) == 10;
      assert Pow10(3) == 10 * Pow10(2);
    }
    var s, s' := Digits(a.second, 2), Digits(b.second, 2);
    DigitsOrder(a.second, b.second, 2);
    var m, m' := Digits(a.minute, 2) + s, Digits(b.minute, 2) + s';
    FieldOrder(a.minute, b.minute, 2, s, s');
    var h, h' := Digits(a.hour, 2) + m, Digits(b.hour, 2) + m';
    FieldOrder(a.hour, b.hour, 2, m, m');
    BeforeAppend("T", "T", h, h');
    var d, d' := Digits(a.day, 2) + ("T" + h), Digits(b.day, 2) + ("T" + h');
    FieldOrder(a.day, b.day, 2, "T" + h, "T" + h');
    FieldOrder(a.month, b.month, 2, d, d');
    FieldOrder(a.year, b.year, 4, Digits(a.month, 2) + d, Digits(b.month, 2) + d');
    assert !Before("T", "T");
  }

  lemma {:induction false} MonthsGrow(y: nat, m: nat, n: nat)
    requires 1 <= m < n
    ensures MonthStart(y, m) + DaysIn(y, m) <= MonthStart(y, n)
    decreases n
  {
    if m + 1 < n {
      MonthsGrow(y, m, n - 1);
    }
  }

  lemma {:induction false} YearsGrow(y: nat, z: nat)
    requires y < z
    ensures YearStart(y) + MonthStart(y, 13) <= YearStart(z)
    decreases z
  {
    if y + 1 < z {
      YearsGrow(y, z - 1);
    }
  }

  lemma EarlierIsLess(a: Moment, b: Moment)
    requires Real(a) && Real(b) && Earlier(a, b)
    ensures Seconds(a) < Seconds(b)
  {
    if a.year < b.year {
      YearsGrow(a.year, b.year);
      MonthsGrow(a.year, a.month, 13);
    } else if a.month < b.month {
      MonthsGrow(a.year, a.month, b.month);
    }
  }

  lemma ClockExact(a: Moment, b: Moment)
    requires Real(a) && Real(b) && Clock(a) == Clock(b)
    ensures a.hour == b.hour && a.minute == b.minute && a.second == b.second
  {
  }

  lemma EarlierOrSame(a: Moment, b: Moment)
    requires Real(a) && Real(b)
    ensures Earlier(a, b) || Earlier(b, a) || a == b
  {
    if Clock(a) == Clock(b) {
      ClockExact(a, b);
    }
  }

  lemma EarlierExactly(a: Moment, b: Moment)
    requires Real(a) && Real(b)
    ensures Earlier(a, b) <==> Seconds(a) < Seconds(b)
  {
    EarlierOrSame(a, b);
    if Earlier(a, b) {
      EarlierIsLess(a, b);
    }
    if Earlier(b, a) {
      EarlierIsLess(b, a);
    }
  }

  lemma StampDetermines(a: Moment, b: Moment)
    requires Real(a) && Real(b) && Stamp(a) == Stamp(b)
    ensures a == b
  {
    StampIsEarlier(a, b);
    StampIsEarlier(b, a);
    NotBeforeItself(Stamp(a));
    EarlierOrSame(a, b);
  }

  lemma SamePrefix(p: string, s: string, t: string)
    ensures (Before(p + s, p + t) <==> Before(s, t)) && (p + s == p + t <==> s == t)
  {
    NotBeforeItself(p);
    BeforeAppend(p, p, s, t);
    assert (p + s)[|p|..] == s && (p + t)[|p|..] == t;
  }

  /** The names of one subvolume's snapshots sort as their times do. */
  lemma NamesSortByTime(prefix: string, subvol: string, a: Moment, b: Moment)
    requires Real(a) && Real(b)
    ensures Before(SnapshotName(prefix, subvol, Stamp(a)), SnapshotName(prefix, subvol, Stamp(b)))
            <==> Seconds(a) < Seconds(b)
    ensures SnapshotName(prefix, subvol, Stamp(a)) == SnapshotName(prefix, subvol, Stamp(b)) <==> a == b
  {
    SamePrefix(prefix + StripAt(subvol) + "_", Stamp(a), Stamp(b));
    StampIsEarlier(a, b);
    EarlierExactly(a, b);
    if Stamp(a) == Stamp(b) {
      StampDetermines(a, b);
    }
  }

  lemma {:induction false} NotBeforeItself(s: string)
    ensures !Before(s, s)
  {
    if s != "" {
      NotBeforeItself(s[1..]);
    }
  }
}
