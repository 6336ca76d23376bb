/**
 * The date helpers of src/dateFormatter.ts: finding the first date written in
 * a filename, formatting a date as `YYYY-MM-DD` or `YYYYMMDD`, and appending
 * it to a title. "Now" is a parameter. JavaScript's `new Date(y, m, d)` is
 * modelled with its normalisation: two-digit years mean 19xx, and months and
 * days out of range roll over into the neighbouring ones.
 */
module Dates {
  import opened Strings
  import opened Config

  /** A calendar date in the proleptic Gregorian calendar, as the local-time getters report it. */
  datatype Date = Date(year: nat, month: nat, day: nat)

  predicate IsLeap(y: nat)
  {
    (y % 4 == 0 && y % 100 != 0) || y % 400 == 0
  }

  function DaysIn(y: nat, m: nat): (n: nat)
    requires 1 <= m <= 12
    ensures 28 <= n <= 31
  {
    if m == 2 then (if IsLeap(y) then 29 else 28)
    else if m == 4 || m == 6 || m == 9 || m == 11 then 30
    else 31
  }

  predicate ValidDate(d: Date)
  {
    1 <= d.month <= 12 && 1 <= d.day <= DaysIn(d.year, d.month)
  }

  /** Days in the months of year `y` before month `m`. */
  function DaysBeforeMonth(y: nat, m: nat): nat
    requires 1 <= m <= 13
  {
    if m == 1 then 0 else DaysBeforeMonth(y, m - 1) + DaysIn(y, m - 1)
  }

  /** Days in the years before year `y`, counted from year 0. */
  function DaysBeforeYear(y: nat): nat
  {
    if y == 0 then 0 else DaysBeforeYear(y - 1) + DaysBeforeMonth(y - 1, 13)
  }

  /** The number of the day: consecutive dates get consecutive numbers. */
  function DayNumber(d: Date): int
    requires 1 <= d.month <= 12
  {
    DaysBeforeYear(d.year) + DaysBeforeMonth(d.year, d.month) + d.day - 1
  }

  /** The first day of the month after the month of `d`. */
  function NextMonth(d: Date): (r: Date)
    requires ValidDate(d)
    ensures ValidDate(r) && r.day == 1
  {
    if d.month == 12 then Date(d.year + 1, 1, 1) else Date(d.year, d.month + 1, 1)
  }

  /** The date `n` days after `d`. */
  function Forward(d: Date, n: nat): (r: Date)
    requires ValidDate(d)
    ensures ValidDate(r)
    decreases n
  {
    if d.day + n <= DaysIn(d.year, d.month) then Date(d.year, d.month, d.day + n)
    else Forward(NextMonth(d), n - (DaysIn(d.year, d.month) - d.day + 1))
  }

  /** The first of the next month comes a month's length after the first of this one. */
  lemma {:induction false} NextMonthCounts(d: Date)
    requires ValidDate(d)
    ensures DayNumber(NextMonth(d)) == DayNumber(Date(d.year, d.month, 1)) + DaysIn(d.year, d.month)
  {
    if d.month == 12 {
      assert DaysBeforeYear(d.year + 1) == DaysBeforeYear(d.year) + DaysBeforeMonth(d.year, 13);
    }
  }

  /** `Forward` moves exactly `n` days. */
  lemma {:induction false} ForwardCounts(d: Date, n: nat)
    requires ValidDate(d)
    ensures DayNumber(Forward(d, n)) == DayNumber(d) + n
    decreases n
  {
    if d.day + n > DaysIn(d.year, d.month) {
      NextMonthCounts(d);
      ForwardCounts(NextMonth(d), n - (DaysIn(d.year, d.month) - d.day + 1));
    }
  }

  /** The day before the first of a month. */
  function DayBefore(d: Date): (r: Date)
    requires ValidDate(d) && d.day == 1 && (d.year > 0 || d.month > 1)
    ensures ValidDate(r)
  {
    if d.month == 1 then Date(d.year - 1, 12, 31)
    else Date(d.year, d.month - 1, DaysIn(d.year, d.month - 1))
  }

  /** `DayBefore` moves back exactly one day. */
  lemma {:induction false} DayBeforeCounts(d: Date)
    requires ValidDate(d) && d.day == 1 && (d.year > 0 || d.month > 1)
    ensures DayNumber(DayBefore(d)) + 1 == DayNumber(d)
  {
    if d.month == 1 {
      assert DaysBeforeYear(d.year) == DaysBeforeYear(d.year - 1) + DaysBeforeMonth(d.year - 1, 13);
    }
  }

  /** The year `new Date(y, …)` uses: 0 to 99 mean 1900 to 1999. */
  function FullYear(y: nat): (r: nat)
    ensures r >= 100
    ensures y >= 100 ==> r == y
  {
    if y <= 99 then 1900 + y else y
  }

  /**
   * `new Date(y, m0, d)` for a zero-based month `m0` and a day `d` as the two
   * date patterns can produce them: the month is carried into the year, and
   * the date is day 1 of that month moved by `d - 1` days.
   */
  function MakeDate(y: nat, m0: int, d: nat): (r: Date)
    requires m0 >= -1
    ensures ValidDate(r)
  {
    var months := FullYear(y) * 12 + m0;
    var first := Date(months / 12, months % 12 + 1, 1);
    if d == 0 then DayBefore(first) else Forward(first, d - 1)
  }

  /**
   * The day `MakeDate` lands on is the one the ECMAScript MakeDay operation
   * names: `d - 1` days after the first of the carried-over month.
   */
  lemma {:induction false} MakeDateCounts(y: nat, m0: int, d: nat)
    requires m0 >= -1
    ensures var months := FullYear(y) * 12 + m0;
            DayNumber(MakeDate(y, m0, d)) == DayNumber(Date(months / 12, months % 12 + 1, 1)) + d - 1
  {
    var months := FullYear(y) * 12 + m0;
    var first := Date(months / 12, months % 12 + 1, 1);
    if d == 0 {
      DayBeforeCounts(first);
    } else {
      ForwardCounts(first, d - 1);
    }
  }

  /** Within its month, a date's fields come back unchanged (years from 100 on). */
  lemma {:induction false} MakeDateOfValid(dt: Date)
    requires ValidDate(dt) && dt.year >= 100
    ensures MakeDate(dt.year, dt.month - 1, dt.day) == dt
  {
    var months := FullYear(dt.year) * 12 + (dt.month - 1);
    MonthsSplit(dt.year, dt.month - 1);
    assert Date(months / 12, months % 12 + 1, 1) == Date(dt.year, dt.month, 1);
    ForwardWithin(dt);
  }

  lemma {:induction false} ForwardWithin(dt: Date)
    requires ValidDate(dt)
    ensures Forward(Date(dt.year, dt.month, 1), dt.day - 1) == dt
  {
  }

  lemma {:induction false} MonthsSplit(y: nat, m: nat)
    requires m < 12
    ensures (y * 12 + m) / 12 == y && (y * 12 + m) % 12 == m
  {
  }

  /** The two patterns the extractor tries, in order. */
  datatype Pattern = DashForm | CompactForm  // (\d{4})-(\d{2})-(\d{2}) | (\d{4})(\d{2})(\d{2})

  predicate Digits2(s: string, i: nat)
  {
    i + 2 <= |s| && IsDigit(s[i]) && IsDigit(s[i + 1])
  }

  predicate Digits4(s: string, i: nat)
  {
    Digits2(s, i) && Digits2(s, i + 2)
  }

  /** The pattern matches at index `i` of `s`. */
  predicate At(p: Pattern, s: string, i: nat)
  {
    match p
    case DashForm =>
      Digits4(s, i) && i + 10 <= |s| && s[i + 4] == '-' && Digits2(s, i + 5) &&
      s[i + 7] == '-' && Digits2(s, i + 8)
    case CompactForm => Digits4(s, i) && Digits2(s, i + 4) && Digits2(s, i + 6)
  }

  function Width(p: Pattern): nat
  {
    match p
    case DashForm => 10
    case CompactForm => 8
  }

  /** The leftmost index from `i` on where the pattern matches, as `String.prototype.match` finds it. */
  function FindFrom(p: Pattern, s: string, i: nat): (r: Option<nat>)
    requires i <= |s|
    ensures r.Some? ==> i <= r.value && At(p, s, r.value) && r.value + Width(p) <= |s|
    ensures r.Some? ==> forall j :: i <= j < r.value ==> !At(p, s, j)
    ensures r.None? ==> forall j :: i <= j <= |s| ==> !At(p, s, j)
    decreases |s| - i
  {
    if At(p, s, i) then Some(i)
    else if i == |s| then None
    else FindFrom(p, s, i + 1)
  }

  function Value2(s: string, i: nat): nat
    requires Digits2(s, i)
  {
    DigitValue(s[i]) * 10 + DigitValue(s[i + 1])
  }

  /** The three captured groups at a match, read with `parseInt(…, 10)`. */
  function Fields(p: Pattern, s: string, i: nat): (r: (nat, nat, nat))
    requires At(p, s, i)
    ensures r.0 < 10000 && r.1 < 100 && r.2 < 100
  {
    var year := Value2(s, i) * 100 + Value2(s, i + 2);
    match p
    case DashForm => (year, Value2(s, i + 5), Value2(s, i + 8))
    case CompactForm => (year, Value2(s, i + 4), Value2(s, i + 6))
  }

  /** The date the match at `i` names, through `new Date(year, month - 1, day)`. */
  function DateAt(p: Pattern, s: string, i: nat): Date
    requires At(p, s, i)
  {
    var f := Fields(p, s, i);
    MakeDate(f.0, f.1 - 1, f.2)
  }

  /** `extractDateFromFilename`: the first dash-form date, else the first compact one, else none. */
  function ExtractDate(s: string): (r: Option<Date>)
    ensures r.Some? ==> ValidDate(r.value)
  {
    match FindFrom(DashForm, s, 0)
    case Some(k) => Some(DateAt(DashForm, s, k))
    case None =>
      match FindFrom(CompactForm, s, 0)
      case Some(k) => Some(DateAt(CompactForm, s, k))
      case None => None
  }

  /** What the extractor returns, in terms of the leftmost matches of the two patterns. */
  lemma {:induction false} ExtractDateSpec(s: string)
    ensures (exists k :: 0 <= k <= |s| && At(DashForm, s, k)) ==>
              var k := FindFrom(DashForm, s, 0).value;
              (forall j :: 0 <= j < k ==> !At(DashForm, s, j)) && ExtractDate(s) == Some(DateAt(DashForm, s, k))
    ensures (forall k :: 0 <= k <= |s| ==> !At(DashForm, s, k)) &&
            (exists k :: 0 <= k <= |s| && At(CompactForm, s, k)) ==>
              var k := FindFrom(CompactForm, s, 0).value;
              (forall j :: 0 <= j < k ==> !At(CompactForm, s, j)) && ExtractDate(s) == Some(DateAt(CompactForm, s, k))
    ensures ExtractDate(s).None? <==>
            forall k :: 0 <= k <= |s| ==> !At(DashForm, s, k) && !At(CompactForm, s, k)
  {
  }

  /** `String(n).padStart(2, '0')` for a month or day. */
  function Two(n: nat): string
  {
    PadTwo(NatToString(n))
  }

  /** `formatDate`: `year-mm-dd` for the dashed mode, `yearmmdd` otherwise. The year is not padded. */
  function FormatDate(fmt: DateFormat, d: Date): (r: string)
    ensures d.month < 100 && d.day < 100 ==>
              |r| == |NatToString(d.year)| + (if fmt == Dashed then 6 else 4)
  {
    if fmt == Dashed then NatToString(d.year) + "-" + Two(d.month) + "-" + Two(d.day)
    else NatToString(d.year) + Two(d.month) + Two(d.day)
  }

  /**
   * `appendDateToFilename`: the title, a space, and the formatted date of the
   * reference filename when it is non-empty and holds one, else of `now`.
   */
  function AppendDate(filename: string, fmt: DateFormat, current: string, now: Date): (r: string)
    ensures StartsWith(r, filename + " ")
    ensures current != [] && ExtractDate(current).Some? ==>
              r == filename + " " + FormatDate(fmt, ExtractDate(current).value)
    ensures current == [] || ExtractDate(current).None? ==> r == filename + " " + FormatDate(fmt, now)
  {
    var source := if current != [] then ExtractDate(current) else None;
    var date := if source.Some? then source.value else now;
    filename + " " + FormatDate(fmt, date)
  }

  /** The written form of a date: the pattern the formatter's mode stands for. */
  function PatternOf(fmt: DateFormat): Pattern
  {
    if fmt == Dashed then DashForm else CompactForm
  }

  lemma {:induction false} DigitRoundTrip(c: char)
    requires IsDigit(c)
    ensures DigitValue(c) < 10 && DigitChar(DigitValue(c)) == c
  {
  }

  /** A year from 1000 to 9999 is written with four digits. */
  lemma {:induction false} FourDigits(y: nat)
    requires 1000 <= y <= 9999
    ensures NatToString(y) == [DigitChar(y / 1000), DigitChar(y / 100 % 10), DigitChar(y / 10 % 10), DigitChar(y % 10)]
  {
    assert y / 10 / 10 == y / 100 && y / 100 / 10 == y / 1000;
    assert NatToString(y / 1000) == [DigitChar(y / 1000)];
    assert NatToString(y / 100) == [DigitChar(y / 1000), DigitChar(y / 100 % 10)];
  }

  /** A month or day below 100 is written with exactly two digits. */
  lemma {:induction false} TwoDigits(n: nat)
    requires n < 100
    ensures Two(n) == [DigitChar(n / 10), DigitChar(n % 10)]
  {
    if n >= 10 {
      assert NatToString(n) == NatToString(n / 10) + [DigitChar(n % 10)];
    }
  }

  lemma {:induction false} Value2Of(a: nat, b: nat)
    requires a < 10 && b < 10
    ensures var s := [DigitChar(a), DigitChar(b)]; Digits2(s, 0) && Value2(s, 0) == a * 10 + b
  {
  }

  /** A four-digit year, written out, reads back as itself. */
  lemma {:induction false} YearReads(y: nat)
    requires 1000 <= y <= 9999
    ensures var ys := NatToString(y); |ys| == 4 && Digits4(ys, 0) && Value2(ys, 0) * 100 + Value2(ys, 2) == y
  {
    FourDigits(y);
    var ys := NatToString(y);
    var a, b, c, d := y / 1000, y / 100 % 10, y / 10 % 10, y % 10;
    Value2Of(a, b);
    Value2Of(c, d);
    assert ys[..2] == [DigitChar(a), DigitChar(b)];
    assert Value2(ys, 2) == Value2(ys[2..], 0);
    DigitSum(y);
  }

  lemma {:induction false} DigitSum(y: nat)
    requires y <= 9999
    ensures (y / 1000 * 10 + y / 100 % 10) * 100 + (y / 10 % 10 * 10 + y % 10) == y
  {
    assert y / 100 == y / 1000 * 10 + y / 100 % 10;
    assert y == y / 100 * 100 + y % 100;
    assert y % 100 == y / 10 % 10 * 10 + y % 10;
  }

  /** A month or day below 100, written out, reads back as itself. */
  lemma {:induction false} TwoReads(n: nat)
    requires n < 100
    ensures |Two(n)| == 2 && Digits2(Two(n), 0) && Value2(Two(n), 0) == n
  {
    TwoDigits(n);
    Value2Of(n / 10, n % 10);
  }

  /** Joined with dashes (or without), three digit groups form one match of the pattern. */
  lemma {:induction false} GroupsMatch(p: Pattern, ys: string, ms: string, ds: string)
    requires |ys| == 4 && Digits4(ys, 0) && |ms| == 2 && Digits2(ms, 0) && |ds| == 2 && Digits2(ds, 0)
    ensures var r := if p == DashForm then ys + "-" + ms + "-" + ds else ys + ms + ds;
            |r| == Width(p) && At(p, r, 0) &&
            Fields(p, r, 0) == (Value2(ys, 0) * 100 + Value2(ys, 2), Value2(ms, 0), Value2(ds, 0))
  {
  }

  /** A formatted date is one match of its mode's pattern, whose fields are the date's. */
  lemma {:induction false} FormatShape(fmt: DateFormat, dt: Date)
    requires ValidDate(dt) && 1000 <= dt.year <= 9999
    ensures var r := FormatDate(fmt, dt);
            |r| == Width(PatternOf(fmt)) && At(PatternOf(fmt), r, 0) &&
            Fields(PatternOf(fmt), r, 0) == (dt.year, dt.month, dt.day)
  {
    YearReads(dt.year);
    TwoReads(dt.month);
    TwoReads(dt.day);
    GroupsMatch(PatternOf(fmt), NatToString(dt.year), Two(dt.month), Two(dt.day));
  }

  /** Extracting from a formatted date gives the date back, in either mode. */
  lemma {:induction false} ExtractFormatted(fmt: DateFormat, dt: Date)
    requires ValidDate(dt) && 1000 <= dt.year <= 9999
    ensures ExtractDate(FormatDate(fmt, dt)) == Some(dt)
  {
    var r := FormatDate(fmt, dt);
    FormatShape(fmt, dt);
    MakeDateOfValid(dt);
    if fmt != Dashed {
      assert !At(DashForm, r, 0);
      assert FindFrom(DashForm, r, 0).None?;
    }
  }

  /** The match at `k` names a real date with a four-digit year. */
  predicate NamesDate(p: Pattern, s: string, k: nat)
    requires At(p, s, k)
  {
    var f := Fields(p, s, k);
    f.0 >= 1000 && ValidDate(Date(f.0, f.1, f.2))
  }

  /** The mode that writes a pattern's form. */
  function ModeOf(p: Pattern): (fmt: DateFormat)
    ensures PatternOf(fmt) == p
  {
    match p
    case DashForm => Dashed
    case CompactForm => Compact
  }

  /** A match that names a real date formats back to the very text matched. */
  lemma {:induction false} FormatMatched(p: Pattern, s: string, k: nat)
    requires At(p, s, k) && NamesDate(p, s, k)
    ensures k + Width(p) <= |s| && FormatDate(ModeOf(p), DateAt(p, s, k)) == s[k..k + Width(p)]
  {
    var t := s[k..k + Width(p)];
    SliceMatch(p, s, k);
    var f := Fields(p, s, k);
    var dt := Date(f.0, f.1, f.2);
    MakeDateOfValid(dt);
    assert DateAt(p, s, k) == dt;
    FormatShape(ModeOf(p), dt);
    FieldsDetermine(p, FormatDate(ModeOf(p), dt), t);
  }

  lemma {:induction false} SliceMatch(p: Pattern, s: string, k: nat)
    requires At(p, s, k)
    ensures k + Width(p) <= |s|
    ensures var t := s[k..k + Width(p)]; At(p, t, 0) && Fields(p, t, 0) == Fields(p, s, k)
  {
    var t := s[k..k + Width(p)];
    forall j | 0 <= j < Width(p) ensures t[j] == s[k + j] {
    }
    assert Value2(t, 0) == Value2(s, k) && Value2(t, 2) == Value2(s, k + 2);
    if p == DashForm {
      assert Value2(t, 5) == Value2(s, k + 5) && Value2(t, 8) == Value2(s, k + 8);
    } else {
      assert Value2(t, 4) == Value2(s, k + 4) && Value2(t, 6) == Value2(s, k + 6);
    }
  }

  /** Two digits are determined by the number they make. */
  lemma {:induction false} Value2Determines(a: string, i: nat, b: string, j: nat)
    requires Digits2(a, i) && Digits2(b, j) && Value2(a, i) == Value2(b, j)
    ensures a[i] == b[j] && a[i + 1] == b[j + 1]
  {
    DigitRoundTrip(a[i]);
    DigitRoundTrip(a[i + 1]);
    DigitRoundTrip(b[j]);
    DigitRoundTrip(b[j + 1]);
  }

  /** Two whole matches with the same fields are the same text. */
  lemma {:induction false} FieldsDetermine(p: Pattern, a: string, b: string)
    requires |a| == Width(p) && |b| == Width(p) && At(p, a, 0) && At(p, b, 0)
    requires Fields(p, a, 0) == Fields(p, b, 0)
    ensures a == b
  {
    assert Value2(a, 0) == Value2(b, 0) && Value2(a, 2) == Value2(b, 2);
    Value2Determines(a, 0, b, 0);
    Value2Determines(a, 2, b, 2);
    if p == DashForm {
      Value2Determines(a, 5, b, 5);
      Value2Determines(a, 8, b, 8);
    } else {
      Value2Determines(a, 4, b, 4);
      Value2Determines(a, 6, b, 6);
    }
    forall j | 0 <= j < |a| ensures a[j] == b[j] {
    }
  }

  /**
   * The round trip through a reference filename: when the first date found
   * names a real date with a four-digit year, formatting what was extracted
   * in the same form reproduces the matched text.
   */
  lemma {:induction false} ExtractThenFormat(s: string)
    ensures FindFrom(DashForm, s, 0).Some? && NamesDate(DashForm, s, FindFrom(DashForm, s, 0).value) ==>
              var k := FindFrom(DashForm, s, 0).value;
              FormatDate(Dashed, ExtractDate(s).value) == s[k..k + 10]
    ensures FindFrom(DashForm, s, 0).None? && FindFrom(CompactForm, s, 0).Some? &&
            NamesDate(CompactForm, s, FindFrom(CompactForm, s, 0).value) ==>
              var k := FindFrom(CompactForm, s, 0).value;
              FormatDate(Compact, ExtractDate(s).value) == s[k..k + 8]
  {
    match FindFrom(DashForm, s, 0)
    case Some(k) =>
      if NamesDate(DashForm, s, k) {
        FormatMatched(DashForm, s, k);
      }
    case None =>
      match FindFrom(CompactForm, s, 0)
      case Some(k) =>
        if NamesDate(CompactForm, s, k) {
          FormatMatched(CompactForm, s, k);
        }
      case None =>
  }


  /** A day past the end of February rolls into March. */
  lemma {:induction false} RolloverExample()
    ensures ExtractDate("2026-02-30") == Some(Date(2026, 3, 2))
  {
    var s := "2026-02-30";
    RolloverFields(s);
    FoundAt(DashForm, s, 0);
    FebruaryThirtieth();
  }

  lemma {:induction false} RolloverFields(s: string)
    requires s == "2026-02-30"
    ensures At(DashForm, s, 0) && Fields(DashForm, s, 0) == (2026, 2, 30)
  {
  }

  lemma {:induction false} FebruaryThirtieth()
    ensures MakeDate(2026, 1, 30) == Date(2026, 3, 2)
  {
    var first := Date(2026, 2, 1);
    assert (2026 * 12 + 1) / 12 == 2026 && (2026 * 12 + 1) % 12 == 1;
    assert MakeDate(2026, 1, 30) == Forward(first, 29);
    assert !IsLeap(2026) && DaysIn(2026, 2) == 28;
    assert Forward(first, 29) == Forward(Date(2026, 3, 1), 1);
  }

  /** A year written `0099` is read as 1999. */
  lemma {:induction false} SmallYearExample()
    ensures ExtractDate("0099-01-01") == Some(Date(1999, 1, 1))
  {
    FoundAt(DashForm, "0099-01-01", 0);
    assert Fields(DashForm, "0099-01-01", 0) == (99, 1, 1);
    assert MakeDate(99, 0, 1) == Date(1999, 1, 1);
  }

  /** Month zero is December of the year before, and day zero the last day of the month before. */
  lemma {:induction false} ZeroFieldsExample()
    ensures ExtractDate("2026-00-00") == Some(Date(2025, 11, 30))
  {
    FoundAt(DashForm, "2026-00-00", 0);
    assert Fields(DashForm, "2026-00-00", 0) == (2026, 0, 0);
    assert MakeDate(2026, -1, 0) == Date(2025, 11, 30);
  }

  /** The year is not padded: a three-digit year formats with three digits. */
  lemma {:induction false} UnpaddedYearExample()
    ensures FormatDate(Dashed, Date(500, 1, 1)) == "500-01-01"
    ensures FormatDate(Compact, Date(2026, 2, 18)) == "20260218"
  {
    assert NatToString(500) == "500";
    assert NatToString(2026) == "2026";
  }

  /** Without a dash-form date, the first eight digits in a row are taken. */
  lemma {:induction false} CompactExample()
    ensures ExtractDate("x20260218") == Some(Date(2026, 2, 18))
  {
    var s := "x20260218";
    assert FindFrom(DashForm, s, 0) == None;
    assert !At(CompactForm, s, 0);
    FoundAt(CompactForm, s, 1);
    assert Fields(CompactForm, s, 1) == (2026, 2, 18);
    assert MakeDate(2026, 1, 18) == Date(2026, 2, 18);
  }

  /** A dash-form date wins over a compact one that starts earlier. */
  lemma {:induction false} DashFirstExample()
    ensures ExtractDate("20260218-01-02") == Some(Date(218, 1, 2))
  {
    var s := "20260218-01-02";
    assert s[4] != '-' && s[5] != '-' && s[6] != '-' && s[7] != '-';
    FoundAt(DashForm, s, 4);
    assert Fields(DashForm, s, 4) == (218, 1, 2);
    assert MakeDate(218, 0, 2) == Date(218, 1, 2);
  }

  /** The leftmost match is found where the pattern holds and held nowhere earlier. */
  lemma {:induction false} FoundAt(p: Pattern, s: string, k: nat)
    requires k <= |s| && At(p, s, k) && forall j :: 0 <= j < k ==> !At(p, s, j)
    ensures FindFrom(p, s, 0) == Some(k)
  {
  }
}
