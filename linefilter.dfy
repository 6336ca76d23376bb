/**
 * `shouldSkipLine` (src/main.ts): the noise lines of a pasted agenda that
 * produce no note link. A line is judged after trimming: it is skipped when
 * it is blank, says "all day", mentions a headset, is a time range, is a
 * "City, ST" location or holds a URL.
 */
module LineFilter {
  import opened Strings
  import opened Regex

  /** `\d{1,2}` */
  const Hour := Chars(Digit, 1, AtMost(2), false)

  /** `(:\d{2})?` */
  const Minutes := Opt([Lit(":"), Chars(Digit, 2, AtMost(2), false)])

  /** `(am|pm)?` */
  const Meridiem := Opt([Alt([Lit("am")], [Lit("pm")])])

  /** `\s*` */
  const AnySpace := Chars(Space, 0, Unbounded, false)

  /** `[–\-]`: an en dash or a hyphen. */
  const RangeDash := Chars(OneOf(['–', '-']), 1, AtMost(1), false)

  /**
   * `^\d{1,2}(:\d{2})?\s*(am|pm)?\s*[–\-]\s*\d{1,2}(:\d{2})?\s*(am|pm)?$`,
   * tested under the `i` flag.
   */
  const TimeRange: seq<Piece> := RangeStart + RangeEnd

  /** `\d{1,2}(:\d{2})?\s*(am|pm)?\s*[–\-]`: the start time and the dash. */
  const RangeStart: seq<Piece> := [Hour, Minutes, AnySpace, Meridiem, AnySpace, RangeDash]

  /** `\s*\d{1,2}(:\d{2})?\s*(am|pm)?$`: the end time. */
  const RangeEnd: seq<Piece> := [AnySpace, Hour, Minutes, AnySpace, Meridiem, End]

  /** `^[\w\s]+,\s+[A-Z]{2}$`, tested case-sensitively. */
  const Location: seq<Piece> :=
    [Chars(WordOrSpace, 1, Unbounded, false), Lit(","), Chars(Space, 1, Unbounded, false),
     Chars(UpperLetter, 2, AtMost(2), false), End]

  /** `/https?:\/\//.test(t)`: either scheme prefix occurs somewhere. */
  predicate HasUrl(t: string)
  {
    Contains(t, "http://") || Contains(t, "https://")
  }

  /** `shouldSkipLine`: the tests in the order the source makes them. */
  predicate ShouldSkipLine(line: string)
  {
    var t := Trim(line);
    |t| == 0 ||
    Lower(t) == "all day" ||
    Contains(Lower(t), "headset") ||
    Test(TimeRange, t, true) ||
    Test(Location, t, false) ||
    HasUrl(t)
  }

  // ---------------------------------------------------------------------
  // What the two patterns accept

  /** A location: a run of word characters and spaces, a comma, spaces, and two capitals. */
  predicate IsLocation(t: string)
  {
    |t| >= 5 && IsUpper(t[|t| - 2]) && IsUpper(t[|t| - 1]) &&
    exists c :: 1 <= c <= |t| - 4 && t[c] == ',' && WordsBefore(t, c) && SpacesBetween(t, c + 1, |t| - 2)
  }

  predicate WordsBefore(t: string, c: nat)
    requires c <= |t|
  {
    forall k :: 0 <= k < c ==> IsWordChar(t[k]) || IsSpace(t[k])
  }

  predicate SpacesBetween(t: string, a: nat, b: nat)
    requires a <= b <= |t|
  {
    forall k :: a <= k < b ==> IsSpace(t[k])
  }

  /** The location test succeeds exactly on locations. */
  lemma {:induction false} LocationMeaning(t: string)
    ensures Test(Location, t, false) <==> IsLocation(t)
  {
    if Test(Location, t, false) {
      LocationFound(t);
    }
    if IsLocation(t) {
      var c :| 1 <= c <= |t| - 4 && t[c] == ',' && WordsBefore(t, c) && SpacesBetween(t, c + 1, |t| - 2);
      LocationParse(t, c);
    }
  }

  lemma {:induction false} LocationFound(t: string)
    requires Test(Location, t, false)
    ensures IsLocation(t)
  {
    var e := ParseOfTest(Location, t, false);
    ParseOKAt(Location, t, 0, e, 0, false);
    ParseOKAt(Location, t, 0, e, 1, false);
    ParseOKAt(Location, t, 0, e, 2, false);
    ParseOKAt(Location, t, 0, e, 3, false);
    ParseOKAt(Location, t, 0, e, 4, false);
    var c := e[0];
    assert t[c] == ',' by {
      assert CharMatches(t[c + 0], ","[0], false);
    }
    assert WordsBefore(t, c);
    assert SpacesBetween(t, c + 1, |t| - 2);
  }

  lemma {:induction false} LocationParse(t: string, c: nat)
    requires 1 <= c <= |t| - 4 && t[c] == ',' && WordsBefore(t, c) && SpacesBetween(t, c + 1, |t| - 2)
    requires IsUpper(t[|t| - 2]) && IsUpper(t[|t| - 1])
    ensures Test(Location, t, false)
  {
    var n := |t|;
    LocationMiddle(t, c);
    assert PieceMatches(Location[0], t, 0, c, false);
    ParseOKCons(Location[0], Location[1..], t, 0, c, [c + 1, n - 2, n, n], false);
    assert [Location[0]] + Location[1..] == Location;
    TestOfParse(Location, t, [c, c + 1, n - 2, n, n], false);
  }

  /** From the comma on, a location is the last four pieces of the pattern. */
  lemma {:induction false} LocationMiddle(t: string, c: nat)
    requires 1 <= c <= |t| - 4 && t[c] == ',' && SpacesBetween(t, c + 1, |t| - 2)
    requires IsUpper(t[|t| - 2]) && IsUpper(t[|t| - 1])
    ensures ParseOK(Location[1..], t, c, [c + 1, |t| - 2, |t|, |t|], false)
  {
    var n := |t|;
    LocationTail(t);
    assert PieceMatches(Location[2], t, c + 1, n - 2, false);
    assert Location[2..] == [Location[2]] + Location[3..];
    ParseOKCons(Location[2], Location[3..], t, c + 1, n - 2, [n, n], false);
    assert PieceMatches(Location[1], t, c, c + 1, false) by {
      assert forall m :: 0 <= m < 1 ==> t[c + m] == ","[m];
    }
    assert Location[1..] == [Location[1]] + Location[2..];
    ParseOKCons(Location[1], Location[2..], t, c, c + 1, [n - 2, n, n], false);
  }

  /** Two capitals at the very end are the last two pieces of a location. */
  lemma {:induction false} LocationTail(t: string)
    requires |t| >= 2 && IsUpper(t[|t| - 2]) && IsUpper(t[|t| - 1])
    ensures ParseOK(Location[3..], t, |t| - 2, [|t|, |t|], false)
  {
    var n := |t|;
    ParseOKCons(End, [], t, n, n, [], false);
    assert Location[3..] == [Location[3]] + [End];
    ParseOKCons(Location[3], [End], t, n - 2, n, [n], false);
  }

  /** A time range starts with a digit, so a line that does not is never one. */
  lemma {:induction false} TimeRangeStartsWithDigit(t: string)
    requires Test(TimeRange, t, true)
    ensures t != [] && IsDigit(t[0])
  {
    var e := ParseOfTest(TimeRange, t, true);
    ParseOKAt(TimeRange, t, 0, e, 0, true);
  }

  /** The time-range test passes only when the pattern matches the whole trimmed line. */
  lemma {:induction false} TimeRangeWhole(t: string)
    ensures Test(TimeRange, t, true) <==> SeqMatches(TimeRange, t, 0, |t|, true)
  {
    TestMeaning(TimeRange, t, true);
    if Test(TimeRange, t, true) {
      var j: nat :| j <= |t| && SeqMatches(TimeRange, t, 0, j, true);
      SeqMatchesEnd(TimeRange, t, 0, j, true);
    }
  }

  /** `:` and two digits match the optional minutes group. */
  lemma {:induction false} MinutesAt(s: string, i: nat)
    requires i + 3 <= |s| && s[i] == ':' && IsDigit(s[i + 1]) && IsDigit(s[i + 2])
    ensures PieceMatches(Minutes, s, i, i + 3, true)
  {
    assert PieceMatches(Lit(":"), s, i, i + 1, true) by {
      assert forall m :: 0 <= m < 1 ==> CharMatches(s[i + m], ":"[m], true);
    }
    SeqMatchesTwo(Lit(":"), Chars(Digit, 2, AtMost(2), false), s, i, i + 1, i + 3, true);
  }

  /** `am` or `pm`, in either case, matches the optional meridiem group. */
  lemma {:induction false} MeridiemAt(s: string, i: nat)
    requires i + 2 <= |s| && (SameFolded(s[i], 'a') || SameFolded(s[i], 'p')) && SameFolded(s[i + 1], 'm')
    ensures PieceMatches(Meridiem, s, i, i + 2, true)
  {
    var word := if SameFolded(s[i], 'a') then "am" else "pm";
    assert PieceMatches(Lit(word), s, i, i + 2, true) by {
      assert forall m :: 0 <= m < 2 ==> CharMatches(s[i + m], word[m], true);
    }
    SeqMatchesOne(Lit(word), s, i, i + 2, true);
    SeqMatchesOne(Alt([Lit("am")], [Lit("pm")]), s, i, i + 2, true);
  }

  /** "7 – 8:05am", with an en dash, is a time range. */
  lemma {:induction false} ShortRangeSkipped()
    ensures ShouldSkipLine("7 – 8:05am")
  {
    var t := "7 – 8:05am";
    TrimOfTrimmed(t);
    ShortRangeStart(t);
    ShortRangeEnd(t);
    ParseOKAppend(RangeStart, RangeEnd, t, 0, [1, 1, 2, 2, 2, 3], [4, 5, 8, 8, 10, 10], true);
    TestOfParse(TimeRange, t, [1, 1, 2, 2, 2, 3] + [4, 5, 8, 8, 10, 10], true);
  }

  lemma {:induction false} ShortRangeStart(t: string)
    requires t == "7 – 8:05am"
    ensures ParseOK(RangeStart, t, 0, [1, 1, 2, 2, 2, 3], true)
  {
    ParseOKOfPieces(RangeStart, t, 0, [1, 1, 2, 2, 2, 3], true);
  }

  lemma {:induction false} ShortRangeEnd(t: string)
    requires t == "7 – 8:05am"
    ensures ParseOK(RangeEnd, t, 3, [4, 5, 8, 8, 10, 10], true)
  {
    MinutesAt(t, 5);
    MeridiemAt(t, 8);
    ParseOKOfPieces(RangeEnd, t, 3, [4, 5, 8, 8, 10, 10], true);
  }

  /** "9:00 - 10:30pm", with a hyphen, is a time range. */
  lemma {:induction false} LongRangeSkipped()
    ensures ShouldSkipLine("9:00 - 10:30pm")
  {
    var t := "9:00 - 10:30pm";
    TrimOfTrimmed(t);
    LongRangeStart(t);
    LongRangeEnd(t);
    ParseOKAppend(RangeStart, RangeEnd, t, 0, [1, 4, 5, 5, 5, 6], [7, 9, 12, 12, 14, 14], true);
    TestOfParse(TimeRange, t, [1, 4, 5, 5, 5, 6] + [7, 9, 12, 12, 14, 14], true);
  }

  lemma {:induction false} LongRangeStart(t: string)
    requires t == "9:00 - 10:30pm"
    ensures ParseOK(RangeStart, t, 0, [1, 4, 5, 5, 5, 6], true)
  {
    MinutesAt(t, 1);
    ParseOKOfPieces(RangeStart, t, 0, [1, 4, 5, 5, 5, 6], true);
  }

  lemma {:induction false} LongRangeEnd(t: string)
    requires t == "9:00 - 10:30pm"
    ensures ParseOK(RangeEnd, t, 6, [7, 9, 12, 12, 14, 14], true)
  {
    MinutesAt(t, 9);
    MeridiemAt(t, 12);
    ParseOKOfPieces(RangeEnd, t, 6, [7, 9, 12, 12, 14, 14], true);
  }

  /** The filter in declarative terms: a time range is a match of the whole trimmed line. */
  lemma {:induction false} SkipMeaning(line: string)
    ensures var t := Trim(line);
            ShouldSkipLine(line) <==>
              (t == [] || Lower(t) == "all day" || Contains(Lower(t), "headset") ||
               SeqMatches(TimeRange, t, 0, |t|, true) || IsLocation(t) || HasUrl(t))
  {
    TimeRangeWhole(Trim(line));
    LocationMeaning(Trim(line));
  }

  /** Empty lines and lines of nothing but whitespace are skipped. */
  lemma {:induction false} BlankSkipped(line: string)
    requires AllSpace(line)
    ensures ShouldSkipLine(line)
  {
    TrimAllSpace(line);
  }

  /** "all day" in any case is skipped, as is any line that mentions a headset. */
  lemma {:induction false} AllDayAndHeadset(line: string)
    requires Lower(Trim(line)) == "all day" || Contains(Lower(Trim(line)), "headset")
    ensures ShouldSkipLine(line)
  {
  }

  lemma {:induction false} AllDaySkipped()
    ensures ShouldSkipLine("All Day")
  {
    TrimOfTrimmed("All Day");
    assert Lower("All Day") == "all day";
  }

  /** A line with `http://` or `https://` anywhere is skipped. */
  lemma {:induction false} UrlSkipped(line: string)
    requires Contains(Trim(line), "http://") || Contains(Trim(line), "https://")
    ensures ShouldSkipLine(line)
  {
  }

  /** No occurrence is possible when one of the needle's characters is missing from the text. */
  lemma {:induction false} Absent(s: string, t: string, k: nat)
    requires k < |t| && forall i :: 0 <= i < |s| ==> s[i] != t[k]
    ensures !Contains(s, t)
  {
    forall i | 0 <= i <= |s| - |t| ensures !OccursAt(s, t, i) {
      if i + |t| <= |s| {
        assert s[i..i + |t|][k] == s[i + k];
      }
    }
  }

  /** The same after lowering, for a lower-case needle character missing in either case. */
  lemma {:induction false} LowerAbsent(s: string, t: string, k: nat)
    requires k < |t| && IsLower(t[k])
    requires forall i :: 0 <= i < |s| ==> s[i] != t[k] && s[i] as int != t[k] as int - 32
    ensures !Contains(Lower(s), t)
  {
    Absent(Lower(s), t, k);
  }

  /** A line with no `:` holds no URL. */
  lemma {:induction false} NoUrl(t: string)
    requires forall i :: 0 <= i < |t| ==> t[i] != ':'
    ensures !HasUrl(t)
  {
    Absent(t, "http://", 4);
    Absent(t, "https://", 5);
  }

  /** A line that does not start with a digit is not a time range. */
  lemma {:induction false} NotTimeRange(t: string)
    requires t == [] || !IsDigit(t[0])
    ensures !Test(TimeRange, t, true)
  {
    if Test(TimeRange, t, true) {
      TimeRangeStartsWithDigit(t);
    }
  }

  /** A line that is none of the noise kinds is kept: the four tests all fail. */
  lemma {:induction false} Kept(t: string, k: nat)
    requires IsTrimmed(t) && t != [] && |t| != 7
    requires k < 7 && IsLower("headset"[k])
    requires forall i :: 0 <= i < |t| ==> t[i] != "headset"[k] && t[i] as int != "headset"[k] as int - 32
    requires !IsDigit(t[0]) && !IsLocation(t)
    requires forall i :: 0 <= i < |t| ==> t[i] != ':'
    ensures !ShouldSkipLine(t)
  {
    TrimOfTrimmed(t);
    LowerAbsent(t, "headset", k);
    NotTimeRange(t);
    LocationMeaning(t);
    NoUrl(t);
  }

  /** A title that only begins with "All day" is kept. */
  lemma {:induction false} AllDayPlanningKept()
    ensures !ShouldSkipLine("All day planning")
  {
    Kept("All day planning", 0);
  }

  /** A time range must be the whole line: text before it keeps the line. */
  lemma {:induction false} LunchKept()
    ensures !ShouldSkipLine("Lunch 12 – 1pm")
  {
    Kept("Lunch 12 – 1pm", 1);
  }

  /** A trimmed line that is a location is skipped. */
  lemma {:induction false} LocationLineSkipped(t: string)
    requires IsTrimmed(t) && IsLocation(t)
    ensures ShouldSkipLine(t)
  {
    TrimOfTrimmed(t);
    LocationMeaning(t);
  }

  /** "Phoenix, AZ" is a location and is skipped. */
  lemma {:induction false} LocationSkipped()
    ensures ShouldSkipLine("Phoenix, AZ")
  {
    var t := "Phoenix, AZ";
    assert 1 <= 7 <= |t| - 4 && t[7] == ',' && WordsBefore(t, 7) && SpacesBetween(t, 8, |t| - 2);
    LocationLineSkipped(t);
  }

  /** The location test is case-sensitive: lower-case state letters keep the line. */
  lemma {:induction false} LowerStateKept()
    ensures !ShouldSkipLine("Phoenix, az")
  {
    Kept("Phoenix, az", 6);
  }

  /** The location test needs a space after the comma. */
  lemma {:induction false} NoSpaceKept()
    ensures !ShouldSkipLine("Phoenix,AZ")
  {
    var t := "Phoenix,AZ";
    assert forall c :: 1 <= c <= |t| - 4 ==> t[c] != ',';
    Kept(t, 6);
  }
}
