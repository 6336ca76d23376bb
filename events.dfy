/**
 * Reading a note link as an event (`parseEventFilename`, src/eventCombiner.ts):
 * the wikilink brackets are removed, a date at the very end is split off,
 * and a leading capitalised name followed by whitespace is taken as the
 * person. Two links for the same person on the same date are what the
 * combiner merges (module Combiner).
 */
module Events {
  import opened Strings
  import opened Regex
  import Dates
  import Sanitizer

  /** A parsed link: the person and date when found, the description, the link itself and its index. */
  datatype Event = Event(
    person: Option<string>,
    description: string,
    date: Option<string>,
    original: string,
    index: nat)

  /** `[A-Z]` */
  const Capital := Chars(UpperLetter, 1, AtMost(1), false)

  /** `[a-z]+` */
  const Lowers := Chars(LowerLetter, 1, Unbounded, false)

  /** `-[A-Z][a-z]+`, the second half of a hyphenated name. */
  const SecondName: seq<Piece> := [Lit("-"), Capital, Lowers]

  /** `\s+` */
  const Gap := Chars(Space, 1, Unbounded, false)

  /** `.+` */
  const Rest := Chars(NotLineBreak, 1, Unbounded, false)

  /**
   * `^([A-Z][a-z]+(?:-[A-Z][a-z]+)?)\s+(.+)$`, case-sensitive. The person is
   * pieces 0 to 2, the description piece 4.
   */
  const PersonPattern: seq<Piece> := [Capital] + ([Lowers] + ([Opt(SecondName)] + ([Gap] + ([Rest] + [End]))))

  /** The person and the description, when the text starts with a name and whitespace. */
  function ParsePerson(w: string): Option<(string, string)>
  {
    match FirstParse(PersonPattern, w, 0, false)
    case Some(e) =>
      EndsOrdered(PersonPattern, w, 0, false, 2, 3);
      EndsOrdered(PersonPattern, w, 0, false, 3, 4);
      Some((w[..e[2]], w[e[3]..e[4]]))
    case None => None
  }

  /**
   * How many characters at the end form the date: 10 for `(\d{4}-\d{2}-\d{2})$`,
   * else 8 for `(\d{8})$`, else none.
   */
  function TrailingDateWidth(c: string): (w: nat)
    ensures w == 0 || w == 10 || w == 8
    ensures w <= |c|
  {
    if |c| >= 10 && Dates.At(Dates.DashForm, c, |c| - 10) then 10
    else if |c| >= 8 && Dates.At(Dates.CompactForm, c, |c| - 8) then 8
    else 0
  }

  /** The link without its wikilink brackets, trimmed. */
  function Cleaned(link: string): string
  {
    Trim(Sanitizer.DropClosing(Sanitizer.DropOpening(link)))
  }

  /** The date at the end of the cleaned text, when there is one. */
  function DateOf(c: string): Option<string>
  {
    var w := TrailingDateWidth(c);
    if w == 0 then None else Some(c[|c| - w..])
  }

  /** The cleaned text before its date, trimmed again; all of it when there is no date. */
  function BeforeDate(c: string): string
  {
    var w := TrailingDateWidth(c);
    if w == 0 then c else Trim(c[..|c| - w])
  }

  /** The event for the text before the date: a person and a description when a name leads it. */
  function Describe(withoutDate: string, date: Option<string>, link: string, index: nat): (e: Event)
    ensures e.date == date && e.original == link && e.index == index
    ensures e.person.None? ==> e.description == withoutDate
  {
    var found := ParsePerson(withoutDate);
    if found.Some? then Event(Some(found.value.0), found.value.1, date, link, index)
    else Event(None, withoutDate, date, link, index)
  }

  /** `parseEventFilename(link, index)`. */
  function ParseEvent(link: string, index: nat): Event
  {
    var c := Cleaned(link);
    Describe(BeforeDate(c), DateOf(c), link, index)
  }

  /** The date of an event is the date at the end of its cleaned link, whether or not a name leads it. */
  lemma {:induction false} EventDate(link: string, index: nat)
    ensures ParseEvent(link, index).date == DateOf(Cleaned(link))
  {
  }

  /** `wikilinks.map((link, index) => parseEventFilename(link, index))`. */
  function ParseAll(links: seq<string>): (ps: seq<Event>)
    ensures |ps| == |links|
    ensures forall i :: 0 <= i < |links| ==> ps[i].original == links[i] && ps[i].index == i
  {
    seq(|links|, i requires 0 <= i < |links| => ParseEvent(links[i], i))
  }

  /** The grouping key `person|date`, for an event whose person and date are both present and non-empty. */
  function KeyOf(e: Event): Option<string>
  {
    if e.person.Some? && e.person.value != [] && e.date.Some? && e.date.value != []
    then Some(e.person.value + "|" + e.date.value)
    else None
  }

  // ---------------------------------------------------------------------
  // What a found person looks like

  /** `p[lo..hi]` is a capital followed by one or more lower-case letters. */
  predicate Word(p: string, lo: nat, hi: nat)
  {
    lo + 2 <= hi <= |p| && IsUpper(p[lo]) && forall k :: lo < k < hi ==> IsLower(p[k])
  }

  /** A name the person pattern accepts: a word, or two words joined by `-`. */
  predicate IsName(p: string)
  {
    Word(p, 0, |p|) || exists h :: 0 < h < |p| && p[h] == '-' && Word(p, 0, h) && Word(p, h + 1, |p|)
  }

  /** A name holds letters and at most a hyphen: never `|`, a space or a line break. */
  lemma {:induction false} NameLetters(p: string)
    requires IsName(p)
    ensures forall k :: 0 <= k < |p| ==> IsUpper(p[k]) || IsLower(p[k]) || p[k] == '-'
  {
  }

  /**
   * `person|date` identifies both parts: a name holds no `|`, so the first
   * `|` of the key is the one after the person.
   */
  lemma {:induction false} KeyInjective(p1: string, d1: string, p2: string, d2: string)
    requires IsName(p1) && IsName(p2)
    ensures p1 + "|" + d1 == p2 + "|" + d2 ==> p1 == p2 && d1 == d2
  {
    if p1 + "|" + d1 == p2 + "|" + d2 {
      NameLetters(p1);
      NameLetters(p2);
      var w := p1 + "|" + d1;
      var v := p2 + "|" + d2;
      assert w[|p1|] == '|' && v[|p2|] == '|';
      assert forall k :: 0 <= k < |p1| ==> w[k] == p1[k];
      assert forall k :: 0 <= k < |p2| ==> v[k] == p2[k];
      assert |p1| == |p2|;
      assert p1 == w[..|p1|] && p2 == v[..|p2|];
      assert d1 == w[|p1| + 1..] && d2 == v[|p2| + 1..];
    }
  }

  /**
   * When a person is found, the text is the name, whitespace, and the
   * description, which is not empty.
   */
  lemma {:induction false} PersonFound(w: string)
    requires ParsePerson(w).Some?
    ensures var p := ParsePerson(w).value.0; var d := ParsePerson(w).value.1;
            IsName(p) && d != [] && |p| + |d| < |w| && w[..|p|] == p && w[|w| - |d|..] == d &&
            AllSpace(w[|p|..|w| - |d|]) && forall k :: 0 <= k < |d| ==> !IsLineTerminator(d[k])
  {
    var e := ParseOfTest(PersonPattern, w, false);
    PersonPieces(w, e);
    var p := w[..e[2]];
    assert IsName(p) by {
      NameShape(w, e[0], e[1], e[2]);
    }
    assert AllSpace(w[e[2]..e[3]]);
  }

  /** The six pieces of a way through the person pattern, each on its own part of the text. */
  lemma {:induction false} PersonPieces(w: string, e: seq<nat>)
    requires ParseOK(PersonPattern, w, 0, e, false)
    ensures |e| == 6
    ensures PieceMatches(Capital, w, 0, e[0], false) && PieceMatches(Lowers, w, e[0], e[1], false)
    ensures PieceMatches(Opt(SecondName), w, e[1], e[2], false) && PieceMatches(Gap, w, e[2], e[3], false)
    ensures PieceMatches(Rest, w, e[3], e[4], false) && PieceMatches(End, w, e[4], e[5], false)
  {
    ParseOKAt(PersonPattern, w, 0, e, 0, false);
    ParseOKAt(PersonPattern, w, 0, e, 1, false);
    ParseOKAt(PersonPattern, w, 0, e, 2, false);
    ParseOKAt(PersonPattern, w, 0, e, 3, false);
    ParseOKAt(PersonPattern, w, 0, e, 4, false);
    ParseOKAt(PersonPattern, w, 0, e, 5, false);
  }

  /** The text matched by the first three pieces is a name. */
  lemma {:induction false} NameShape(w: string, a: nat, b: nat, c: nat)
    requires a <= b <= c <= |w|
    requires PieceMatches(Capital, w, 0, a, false) && PieceMatches(Lowers, w, a, b, false)
    requires PieceMatches(Opt(SecondName), w, b, c, false)
    ensures IsName(w[..c])
  {
    var p := w[..c];
    assert Word(p, 0, b);
    if b != c {
      assert SeqMatches(SecondName, w, b, c, false);
      var k1: nat :| b <= k1 <= c && PieceMatches(SecondName[0], w, b, k1, false) && SeqMatches(SecondName[1..], w, k1, c, false);
      assert SecondName[1..] == [Capital, Lowers];
      SeqMatchesSplit([Capital, Lowers], w, k1, c, false);
      var k2: nat :| k1 <= k2 <= c && PieceMatches(Capital, w, k1, k2, false) && SeqMatches([Capital, Lowers][1..], w, k2, c, false);
      assert [Capital, Lowers][1..] == [Lowers];
      SeqMatchesSplit([Lowers], w, k2, c, false);
      var k3: nat :| k2 <= k3 <= c && PieceMatches(Lowers, w, k2, k3, false) && SeqMatches([Lowers][1..], w, k3, c, false);
      assert [Lowers][1..] == [];
      assert k3 == c;
      assert CharMatches(w[b + 0], "-"[0], false);
      assert p[b] == '-';
      assert Word(p, b + 1, c);
    }
  }

  // ---------------------------------------------------------------------
  // What a keyed event looks like

  /** A date read at the end of a link: `YYYY-MM-DD` or `YYYYMMDD`. */
  predicate DateShaped(d: string)
  {
    (|d| == 10 && Dates.At(Dates.DashForm, d, 0)) || (|d| == 8 && Dates.At(Dates.CompactForm, d, 0))
  }

  /** A description the person pattern yields: not empty, on one line, not ending in whitespace. */
  predicate OneLine(d: string)
  {
    d != [] && !IsSpace(d[|d| - 1]) && forall k :: 0 <= k < |d| ==> !IsLineTerminator(d[k])
  }

  /** The characters the date test accepts at the end are a date on their own. */
  lemma {:induction false} DateAtEnd(c: string)
    requires TrailingDateWidth(c) != 0
    ensures DateShaped(c[|c| - TrailingDateWidth(c)..])
  {
    var w := TrailingDateWidth(c);
    var d := c[|c| - w..];
    assert forall k :: 0 <= k < w ==> d[k] == c[|c| - w + k];
  }

  /**
   * An event with a key has a name-shaped person, a one-line description
   * and a date in one of the two forms.
   */
  lemma {:induction false} KeyedEvent(link: string, index: nat)
    requires KeyOf(ParseEvent(link, index)).Some?
    ensures var e := ParseEvent(link, index);
            IsName(e.person.value) && OneLine(e.description) && DateShaped(e.date.value)
  {
    var c := Cleaned(link);
    assert DateOf(c).Some?;
    DateAtEnd(c);
    TrimSpec(c[..|c| - TrailingDateWidth(c)]);
    assert BeforeDate(c) == Trim(c[..|c| - TrailingDateWidth(c)]);
    KeyedDescription(BeforeDate(c), DateOf(c), link, index);
  }

  /** Two links with the same key name the same person and the same date. */
  lemma {:induction false} SameKeySameParts(l1: string, i1: nat, l2: string, i2: nat)
    requires KeyOf(ParseEvent(l1, i1)).Some? && KeyOf(ParseEvent(l1, i1)) == KeyOf(ParseEvent(l2, i2))
    ensures ParseEvent(l1, i1).person == ParseEvent(l2, i2).person
    ensures ParseEvent(l1, i1).date == ParseEvent(l2, i2).date
  {
    var e1 := ParseEvent(l1, i1);
    var e2 := ParseEvent(l2, i2);
    KeyedEvent(l1, i1);
    KeyedEvent(l2, i2);
    KeyInjective(e1.person.value, e1.date.value, e2.person.value, e2.date.value);
  }

  /** The person and description of a keyed event, from a trimmed text. */
  lemma {:induction false} KeyedDescription(wd: string, date: Option<string>, link: string, index: nat)
    requires KeyOf(Describe(wd, date, link, index)).Some?
    requires wd != [] ==> !IsSpace(wd[|wd| - 1])
    ensures var e := Describe(wd, date, link, index);
            IsName(e.person.value) && OneLine(e.description)
  {
    assert ParsePerson(wd).Some?;
    PersonFound(wd);
    var d := ParsePerson(wd).value.1;
    assert d[|d| - 1] == wd[|wd| - 1];
  }

  // ---------------------------------------------------------------------
  // Reading back a link written from a person, a description and a date

  /** The optional `-Name` group, at a hyphen followed by a word ending at `c`, first offers to end at `c`. */
  lemma {:induction false} SecondNameFirst(s: string, h: nat, c: nat)
    requires h < |s| && s[h] == '-' && Word(s, h + 1, c) && (c == |s| || !IsLower(s[c]))
    ensures Ends(SecondName, s, h, false) != [] && Ends(SecondName, s, h, false)[0] == c
  {
    LitAtMeaning(s, h, "-", false);
    assert Candidates(Lit("-"), s, h, false) == [h + 1];
    assert SecondName[0] == Lit("-") && SecondName[1..] == [Capital, Lowers];
    RunLengthIs(s, h + 1, UpperLetter, 1);
    assert Candidates(Capital, s, h + 1, false) == [h + 2];
    RunLengthIs(s, h + 2, LowerLetter, c - h - 2);
    var cs := Downward(c, h + 3);
    assert Candidates(Lowers, s, h + 2, false) == cs;
    assert [Capital, Lowers][0] == Capital && [Capital, Lowers][1..] == [Lowers];
    assert [Lowers][0] == Lowers && [Lowers][1..] == [];
    assert Ends([], s, c, false) == [c];
    assert EndsFrom([], s, h + 2, cs, false) == [c] + EndsFrom([], s, h + 2, cs[1..], false);
    assert Ends([Lowers], s, h + 2, false)[0] == c;
    assert Ends([Capital, Lowers], s, h + 1, false) == EndsFrom([Lowers], s, h + 1, [h + 2], false);
    assert EndsFrom([Lowers], s, h + 1, [h + 2], false) == Ends([Lowers], s, h + 2, false) + [];
    assert Ends(SecondName, s, h, false) == EndsFrom([Capital, Lowers], s, h, [h + 1], false);
    assert EndsFrom([Capital, Lowers], s, h, [h + 1], false) == Ends([Capital, Lowers], s, h + 1, false) + [];
  }

  /** The whitespace and description after a name: `\s+(.+)$` from `n` succeeds, with the greedy gap. */
  lemma {:induction false} GapAndRest(s: string, n: nat) returns (tail: seq<nat>)
    requires n < |s| && IsSpace(s[n]) && !IsSpace(s[|s| - 1])
    requires forall k :: n < k < |s| ==> !IsLineTerminator(s[k])
    ensures FirstParse([Gap] + ([Rest] + [End]), s, n, false) == Some(tail)
    ensures |tail| == 3 && n < tail[0] <= |s| && tail[1] == |s|
    ensures n + 1 < |s| && !IsSpace(s[n + 1]) ==> tail[0] == n + 1
  {
    var g := RunLength(s, n, Space);
    RunLengthSpec(s, n, Space);
    assert g >= 1;
    assert n + g < |s|;
    var j := n + g;
    RunLengthIs(s, j, NotLineBreak, |s| - j);
    StepEnd(s, false);
    StepGreedyCapped(Rest, [End], s, j, |s|, false, [|s|]);
    StepGreedyCapped(Gap, [Rest] + [End], s, n, j, false, [|s|] + [|s|]);
    tail := [j] + ([|s|] + [|s|]);
  }

  /** A name, a space and a one-line description: the person found is the name. */
  lemma {:induction false} PersonOfName(p: string, d: string)
    requires IsName(p) && OneLine(d)
    ensures ParsePerson(p + " " + d).Some? && ParsePerson(p + " " + d).value.0 == p
    ensures !IsSpace(d[0]) ==> ParsePerson(p + " " + d).value.1 == d
  {
    var s := p + " " + d;
    var n := |p|;
    assert s[n] == ' ';
    assert forall k :: 0 <= k < n ==> s[k] == p[k];
    assert forall k :: n < k < |s| ==> s[k] == d[k - n - 1];
    var afterOpt := GapAndRest(s, n);
    var e: seq<nat>;
    if Word(p, 0, n) {
      e := OneWordName(s, n, afterOpt);
    } else {
      var h :| 0 < h < n && p[h] == '-' && Word(p, 0, h) && Word(p, h + 1, n);
      e := TwoWordName(s, h, n, afterOpt);
    }
    RunLengthIs(s, 0, UpperLetter, 1);
    StepGreedyCapped(Capital, [Lowers] + ([Opt(SecondName)] + ([Gap] + ([Rest] + [End]))), s, 0, 1, false, e);
    assert FirstParse(PersonPattern, s, 0, false) == Some([1] + e);
    assert ([1] + e)[2] == n && ([1] + e)[3] == afterOpt[0] && ([1] + e)[4] == |s|;
    if !IsSpace(d[0]) {
      assert s[n + 1..] == d;
    }
  }

  /** After the capital of a one-word name ending at `n`: the lower-case run, then the group skipped. */
  lemma {:induction false} OneWordName(s: string, n: nat, afterOpt: seq<nat>) returns (e: seq<nat>)
    requires Word(s, 0, n) && n < |s| && s[n] == ' '
    requires FirstParse([Gap] + ([Rest] + [End]), s, n, false) == Some(afterOpt)
    ensures FirstParse([Lowers] + ([Opt(SecondName)] + ([Gap] + ([Rest] + [End]))), s, 1, false) == Some(e)
    ensures |e| == 2 + |afterOpt| && e[1] == n && e[2..] == afterOpt
  {
    var tail := [Gap] + ([Rest] + [End]);
    LitAtMeaning(s, n, "-", false);
    LitHeadFails(SecondName, s, n, false);
    StepOptSkip(SecondName, tail, s, n, false, afterOpt);
    RunLengthIs(s, 1, LowerLetter, n - 1);
    StepGreedyCapped(Lowers, [Opt(SecondName)] + tail, s, 1, n, false, [n] + afterOpt);
    e := [n] + ([n] + afterOpt);
  }

  /** After the capital of a name `A-B` with the hyphen at `h` and the end at `n`: both runs and the group taken. */
  lemma {:induction false} TwoWordName(s: string, h: nat, n: nat, afterOpt: seq<nat>) returns (e: seq<nat>)
    requires 0 < h < n < |s| && s[h] == '-' && Word(s, 0, h) && Word(s, h + 1, n) && s[n] == ' '
    requires FirstParse([Gap] + ([Rest] + [End]), s, n, false) == Some(afterOpt)
    ensures FirstParse([Lowers] + ([Opt(SecondName)] + ([Gap] + ([Rest] + [End]))), s, 1, false) == Some(e)
    ensures |e| == 2 + |afterOpt| && e[1] == n && e[2..] == afterOpt
  {
    var tail := [Gap] + ([Rest] + [End]);
    var q := [Opt(SecondName)] + tail;
    SecondNameFirst(s, h, n);
    assert q[0] == Opt(SecondName) && q[1..] == tail;
    assert Candidates(Opt(SecondName), s, h, false)[0] == n;
    Pick(q, s, h, 0, false);
    RunLengthIs(s, 1, LowerLetter, h - 1);
    StepGreedyCapped(Lowers, q, s, 1, h, false, [n] + afterOpt);
    e := [h] + ([n] + afterOpt);
  }

  /** The text of a link for `person`, `description` and `date`, inside the brackets. */
  function EventText(person: string, description: string, date: string): string
  {
    person + " " + description + " " + date
  }

  /**
   * A link `[[person description date]]` reads back with that person and
   * that date, whichever form the date has.
   */
  lemma {:induction false} ReadBack(p: string, d: string, date: string, index: nat)
    requires IsName(p) && OneLine(d) && DateShaped(date)
    ensures var e := ParseEvent("[[" + EventText(p, d, date) + "]]", index);
            e.person == Some(p) && e.date == Some(date) && (!IsSpace(d[0]) ==> e.description == d)
  {
    var x := EventText(p, d, date);
    CleanedText(x);
    TextParts(p, d, date);
    PersonOfName(p, d);
  }

  /** Brackets around a text that starts and ends with other characters come off whole. */
  lemma {:induction false} CleanedText(x: string)
    requires x != [] && IsTrimmed(x)
    ensures Cleaned("[[" + x + "]]") == x
  {
    Unwrapped(x);
    TrimOfTrimmed(x);
  }

  /** The opening and the closing brackets of a link come off, and what is left is trimmed. */
  lemma {:induction false} Unwrapped(x: string)
    ensures Sanitizer.DropClosing(Sanitizer.DropOpening("[[" + x + "]]")) == x
    ensures Cleaned("[[" + x + "]]") == Trim(x)
  {
    var link := "[[" + x + "]]";
    assert link[..2] == "[[" && link[2..] == x + "]]";
    assert (x + "]]")[|x + "]]"| - 2..] == "]]" && (x + "]]")[..|x + "]]"| - 2] == x;
  }

  /** The date, and the text before it, of an event text. */
  lemma {:induction false} TextParts(p: string, d: string, date: string)
    requires IsName(p) && OneLine(d) && DateShaped(date)
    ensures var x := EventText(p, d, date);
            x != [] && IsTrimmed(x) && DateOf(x) == Some(date) && BeforeDate(x) == p + " " + d
  {
    var x := EventText(p, d, date);
    assert x[0] == p[0] && x[|x| - 1] == date[|date| - 1];
    var w := |date|;
    DateWidthAtEnd(p + " " + d + " ", date);
    assert x[..|x| - w] == (p + " " + d) + " ";
    assert x[|x| - w..] == date;
    assert (p + " " + d)[|p + " " + d| - 1] == d[|d| - 1];
    TrimTrailing(p + " " + d, " ");
  }

  /** A date at the end of a text is found there, at its own width. */
  lemma {:induction false} DateWidthAtEnd(y: string, date: string)
    requires DateShaped(date)
    ensures TrailingDateWidth(y + date) == |date|
  {
    var x := y + date;
    var w := |date|;
    assert forall k :: 0 <= k < w ==> x[|x| - w + k] == date[k];
    if w == 8 && |x| >= 10 {
      assert x[|x| - 10 + 4] == date[2];
    }
  }

  /** A link shorter than eight characters has no room for a date, so it has no key. */
  lemma {:induction false} ShortUnkeyed(link: string, index: nat)
    requires |link| < 8
    ensures KeyOf(ParseEvent(link, index)).None?
  {
    assert |Cleaned(link)| <= |link|;
    assert DateOf(Cleaned(link)).None?;
  }

  /**
   * A five-digit year is not refused: the date pattern takes its last four
   * digits, so `10000-01-01` is read as `0000-01-01`.
   */
  lemma {:induction false} FiveDigitYear(x: string, date: string)
    requires x == "Jacob sync 1" && date == "0000-01-01"
    ensures DateOf(Cleaned("[[" + x + date + "]]")) == Some(date)
  {
    assert "[[" + x + date + "]]" == "[[" + (x + date) + "]]";
    Unwrapped(x + date);
    assert x[0] == 'J' && date[|date| - 1] == '1';
    TrimOfTrimmed(x + date);
    assert Dates.At(Dates.DashForm, date, 0);
    DateWidthAtEnd(x, date);
    assert (x + date)[|x + date| - 10..] == date;
  }
}
