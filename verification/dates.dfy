/**
 Calendar dates: the `YYYY-MM-DD` date embedded in a chart file's name
 (`extract_date_from_filename`), calendar validity, the proleptic Gregorian
 day number, and stepping back by whole days (`date - timedelta(days=k)`).
 */
module Dates {
  import opened Wrappers
  import opened Text
  import opened Numbers

  datatype Date = Date(year: int, month: int, day: int)

  predicate IsLeap(y: int) {
    y % 4 == 0 && (y % 100 != 0 || y % 400 == 0)
  }

  function DaysInMonth(y: int, m: int): (n: int)
    requires 1 <= m <= 12
    ensures 28 <= n <= 31
  {
    if m == 2 then (if IsLeap(y) then 29 else 28)
    else if m == 4 || m == 6 || m == 9 || m == 11 then 30
    else 31
  }

  /** A real calendar date from year 1 on. */
  predicate IsValidDate(d: Date) {
    1 <= d.year && 1 <= d.month <= 12 && 1 <= d.day <= DaysInMonth(d.year, d.month)
  }

  /** Calendar order: by year, then month, then day. */
  predicate DateLe(a: Date, b: Date) {
    a.year < b.year || (a.year == b.year && (a.month < b.month || (a.month == b.month && a.day <= b.day)))
  }

  predicate DateLt(a: Date, b: Date) {
    DateLe(a, b) && a != b
  }

  // ---------------------------------------------------------------------
  // Finding the date in a file name
  // ---------------------------------------------------------------------

  /** Index just past the last `/` of `path` (0 when there is none). */
  function BaseStart(path: string): (i: nat)
    ensures i <= |path|
    ensures i > 0 ==> path[i - 1] == '/'
    ensures forall j :: i <= j < |path| ==> path[j] != '/'
  {
    if |path| == 0 || path[|path| - 1] == '/' then |path|
    else BaseStart(path[..|path| - 1])
  }

  /** `os.path.basename`: the text after the last `/`. */
  function Basename(path: string): (r: string)
    ensures '/' !in r
    ensures |r| <= |path| && r == path[|path| - |r|..]
    ensures |r| < |path| ==> path[|path| - |r| - 1] == '/'
  {
    path[BaseStart(path)..]
  }

  /** The pattern `\d{4}-\d{2}-\d{2}` matches at index `i` of `s`. */
  predicate PatternAt(s: string, i: int) {
    && 0 <= i && i + 10 <= |s|
    && IsDigit(s[i]) && IsDigit(s[i + 1]) && IsDigit(s[i + 2]) && IsDigit(s[i + 3])
    && s[i + 4] == '-'
    && IsDigit(s[i + 5]) && IsDigit(s[i + 6])
    && s[i + 7] == '-'
    && IsDigit(s[i + 8]) && IsDigit(s[i + 9])
  }

  /** The pattern matches at `i` and nowhere before it. */
  predicate LeftmostAt(s: string, i: int) {
    PatternAt(s, i) && forall j :: 0 <= j < i ==> !PatternAt(s, j)
  }

  /** The leftmost match of `name` spells `d`. */
  ghost predicate NamedDate(name: string, d: Date) {
    exists i :: LeftmostAt(name, i) && DateAt(name, i) == d
  }

  /** `name` has no match, or its leftmost match is not a calendar date. */
  ghost predicate NoUsableDate(name: string) {
    || (forall i :: !PatternAt(name, i))
    || (exists i :: LeftmostAt(name, i) && !IsValidDate(DateAt(name, i)))
  }

  /** `re.search`: the leftmost match at or after `from`. */
  function FindPattern(s: string, from: nat): (r: Option<nat>)
    ensures r.Some? ==> from <= r.value && PatternAt(s, r.value)
    ensures r.Some? ==> forall j :: from <= j < r.value ==> !PatternAt(s, j)
    ensures r.None? ==> forall j :: from <= j ==> !PatternAt(s, j)
    decreases |s| - from
  {
    if from + 10 > |s| then None
    else if PatternAt(s, from) then Some(from)
    else FindPattern(s, from + 1)
  }

  /** The date spelled by the match at `i`, before any validity check. */
  function DateAt(s: string, i: int): Date
    requires PatternAt(s, i)
  {
    assert AllDigits(s[i..i + 4]) && AllDigits(s[i + 5..i + 7]) && AllDigits(s[i + 8..i + 10]);
    Date(DigitsValue(s[i..i + 4]), DigitsValue(s[i + 5..i + 7]), DigitsValue(s[i + 8..i + 10]))
  }

  /**
   The date of a chart file: only the leftmost `YYYY-MM-DD` of the base name
   counts, and a file whose leftmost match is not a real date has none.
   */
  function ExtractDate(path: string): (r: Option<Date>)
    ensures r.Some? ==> IsValidDate(r.value) && NamedDate(Basename(path), r.value)
    ensures r.None? ==> NoUsableDate(Basename(path))
  {
    var name := Basename(path);
    match FindPattern(name, 0)
    case None => None
    case Some(i) =>
      assert LeftmostAt(name, i);
      var d := DateAt(name, i);
      if IsValidDate(d) then Some(d) else None
  }

  /** `YYYY-MM-DD`, zero-padded. */
  function FormatDate(d: Date): (r: string)
    requires IsValidDate(d) && d.year < 10000
    ensures |r| == 10
  {
    Pad(d.year, 4) + "-" + Pad(d.month, 2) + "-" + Pad(d.day, 2)
  }

  /**
   A file named with a digit-free prefix followed by a formatted date is
   dated by that date, whatever directory it sits in and whatever follows.
   */
  lemma ExtractFormattedDate(dir: string, prefix: string, d: Date, suffix: string)
    requires IsValidDate(d) && d.year < 10000
    requires '/' !in prefix && '/' !in suffix
    requires forall i :: 0 <= i < |prefix| ==> !IsDigit(prefix[i])
    ensures ExtractDate(dir + "/" + prefix + FormatDate(d) + suffix) == Some(d)
  {
    var f := FormatDate(d);
    var name := prefix + f + suffix;
    var path := dir + "/" + prefix + f + suffix;
    assert path == (dir + "/") + name;
    assert '/' !in f by { FormattedPattern(d); }
    assert '/' !in name;
    BasenameOfJoin(dir + "/", name);
    EmbeddedDate(prefix, d, suffix);
    FindLeftmost(name, |prefix|);
    assert Basename(path) == name;
  }

  lemma FindLeftmost(s: string, i: nat)
    requires LeftmostAt(s, i)
    ensures FindPattern(s, 0) == Some(i)
  {
  }

  /** The formatted date matches the pattern at its start and reads back as itself. */
  lemma FormattedPattern(d: Date)
    requires IsValidDate(d) && d.year < 10000
    ensures PatternAt(FormatDate(d), 0) && DateAt(FormatDate(d), 0) == d
    ensures '/' !in FormatDate(d)
  {
    var f := FormatDate(d);
    assert f[..4] == Pad(d.year, 4) && f[5..7] == Pad(d.month, 2) && f[8..10] == Pad(d.day, 2);
    PadReadBack(d.year, 4);
    PadReadBack(d.month, 2);
    PadReadBack(d.day, 2);
    forall k | 0 <= k < 10 ensures f[k] != '/' {
      if k < 4 { assert f[k] == f[..4][k]; }
      else if 5 <= k < 7 { assert f[k] == f[5..7][k - 5]; }
      else if 8 <= k { assert f[k] == f[8..10][k - 8]; }
    }
  }

  lemma PadReadBack(n: nat, w: nat)
    requires w == 2 || w == 4
    requires n < (if w == 2 then 100 else 10000)
    ensures DigitsValue(Pad(n, w)) == n
  {
    PadValue(n, w);
    Pow10Small();
    SmallMod(n, Pow10(w));
  }

  lemma Pow10Small()
    ensures Pow10(2) == 100 && Pow10(4) == 10000
  {
    assert Pow10(1) == 10;
    assert Pow10(3) == 1000;
  }

  lemma SmallMod(n: nat, m: nat)
    requires n < m
    ensures n % m == n
  {
  }

  lemma EmbeddedDate(prefix: string, d: Date, suffix: string)
    requires IsValidDate(d) && d.year < 10000
    requires forall i :: 0 <= i < |prefix| ==> !IsDigit(prefix[i])
    ensures var name := prefix + FormatDate(d) + suffix;
      LeftmostAt(name, |prefix|) && DateAt(name, |prefix|) == d
  {
    var f := FormatDate(d);
    var name := prefix + f + suffix;
    var i := |prefix|;
    FormattedPattern(d);
    assert name[i..i + 10] == f;
    assert name[i..i + 4] == f[..4] && name[i + 5..i + 7] == f[5..7] && name[i + 8..i + 10] == f[8..10];
    assert f[4] == name[i + 4] && f[7] == name[i + 7];
    forall j | 0 <= j < i ensures !PatternAt(name, j) {
      assert !IsDigit(name[j]);
      if j + 4 <= |name| {
        assert name[j..j + 4][0] == name[j];
      }
    }
  }

  lemma BasenameOfJoin(dir: string, name: string)
    requires |dir| > 0 && dir[|dir| - 1] == '/'
    requires '/' !in name
    ensures Basename(dir + name) == name
  {
    var p := dir + name;
    var b := Basename(p);
    assert p[|dir| - 1] == '/';
    assert forall j :: |dir| <= j < |p| ==> p[j] != '/';
    assert BaseStart(p) == |dir|;
  }

  // ---------------------------------------------------------------------
  // Day numbers
  // ---------------------------------------------------------------------

  function DaysInYear(y: int): int {
    if IsLeap(y) then 366 else 365
  }

  function DaysBeforeYear(y: int): nat
    requires y >= 1
  {
    if y == 1 then 0 else DaysBeforeYear(y - 1) + DaysInYear(y - 1)
  }

  function DaysBeforeMonth(y: int, m: int): nat
    requires 1 <= m <= 13
  {
    if m == 1 then 0 else DaysBeforeMonth(y, m - 1) + DaysInMonth(y, m - 1)
  }

  /** Day number with 0001-01-01 as day 1 (Python's `date.toordinal`). */
  function Ordinal(d: Date): int
    requires IsValidDate(d)
  {
    DaysBeforeYear(d.year) + DaysBeforeMonth(d.year, d.month) + d.day
  }

  lemma MonthsFillYear(y: int)
    ensures DaysBeforeMonth(y, 13) == DaysInYear(y)
  {
    var feb := DaysInMonth(y, 2);
    assert DaysBeforeMonth(y, 2) == 31;
    assert DaysBeforeMonth(y, 3) == 31 + feb;
    assert DaysBeforeMonth(y, 4) == 62 + feb;
    assert DaysBeforeMonth(y, 5) == 92 + feb;
    assert DaysBeforeMonth(y, 6) == 123 + feb;
    assert DaysBeforeMonth(y, 7) == 153 + feb;
    assert DaysBeforeMonth(y, 8) == 184 + feb;
    assert DaysBeforeMonth(y, 9) == 215 + feb;
    assert DaysBeforeMonth(y, 10) == 245 + feb;
    assert DaysBeforeMonth(y, 11) == 276 + feb;
    assert DaysBeforeMonth(y, 12) == 306 + feb;
  }

  lemma {:induction false} MonthsBefore(y: int, m1: int, m2: int)
    requires 1 <= m1 < m2 <= 13
    ensures DaysBeforeMonth(y, m1) + DaysInMonth(y, m1) <= DaysBeforeMonth(y, m2)
    decreases m2 - m1
  {
    if m1 + 1 < m2 {
      MonthsBefore(y, m1 + 1, m2);
    }
  }

  lemma {:induction false} YearsBefore(y1: int, y2: int)
    requires 1 <= y1 < y2
    ensures DaysBeforeYear(y1) + DaysInYear(y1) <= DaysBeforeYear(y2)
    decreases y2 - y1
  {
    if y1 + 1 < y2 {
      YearsBefore(y1 + 1, y2);
    }
  }

  /** A valid date's day of the year lies within its year. */
  lemma DayOfYearBounds(d: Date)
    requires IsValidDate(d)
    ensures 1 <= DaysBeforeMonth(d.year, d.month) + d.day <= DaysInYear(d.year)
  {
    MonthsFillYear(d.year);
    if d.month < 12 {
      MonthsBefore(d.year, d.month, 13);
    }
  }

  /** Calendar order and day-number order agree on valid dates. */
  lemma OrdinalOrder(a: Date, b: Date)
    requires IsValidDate(a) && IsValidDate(b)
    ensures DateLe(a, b) <==> Ordinal(a) <= Ordinal(b)
    ensures a == b <==> Ordinal(a) == Ordinal(b)
  {
    if a.year != b.year {
      var (x, y) := if a.year < b.year then (a, b) else (b, a);
      DayOfYearBounds(x);
      DayOfYearBounds(y);
      YearsBefore(x.year, y.year);
    } else if a.month != b.month {
      var (x, y) := if a.month < b.month then (a, b) else (b, a);
      MonthsBefore(x.year, x.month, y.month);
    }
  }

  /** The calendar day before `d`. */
  function PrevDay(d: Date): (r: Date)
    requires IsValidDate(d) && Ordinal(d) > 1
    ensures IsValidDate(r) && Ordinal(r) == Ordinal(d) - 1
  {
    if d.day > 1 then Date(d.year, d.month, d.day - 1)
    else if d.month > 1 then Date(d.year, d.month - 1, DaysInMonth(d.year, d.month - 1))
    else
      MonthsFillYear(d.year - 1);
      Date(d.year - 1, 12, 31)
  }

  /** `d - timedelta(days=k)`. */
  function SubDays(d: Date, k: nat): (r: Date)
    requires IsValidDate(d) && Ordinal(d) > k
    ensures IsValidDate(r) && Ordinal(r) == Ordinal(d) - k
    decreases k
  {
    if k == 0 then d else SubDays(PrevDay(d), k - 1)
  }
}
