/**
 * The command `splitLinesToNotes` (src/main.ts): the selection is split at
 * line feeds, every line trimmed, the lines `shouldSkipLine` rejects dropped,
 * and every other line rewritten, sanitised, dated and wrapped as a link; the
 * links are then combined and joined back into one text. The editor, the
 * notices and the clock stay outside: the selection, the open file's base name
 * and today's date are parameters, and the outcome holds what the editor and
 * the notice are given.
 */
module Notes {
  import opened Strings
  import opened Config
  import LineFilter
  import OneOnOne
  import Sanitizer
  import Dates
  import Events
  import Combiner

  // ---------------------------------------------------------------------
  // Splitting the selection

  /** `selection.split('\n')`: the pieces between line feeds, empty ones included. */
  function SplitLines(s: string): (r: seq<string>)
    ensures |r| >= 1
    ensures forall i :: 0 <= i < |r| ==> '\n' !in r[i]
    decreases |s|
  {
    if s == [] then [[]]
    else
      var rest := SplitLines(s[1..]);
      if s[0] == '\n' then [[]] + rest else [[s[0]] + rest[0]] + rest[1..]
  }

  /** Joining the pieces with line feeds gives the text back. */
  lemma {:induction false} JoinSplit(s: string)
    ensures Join(SplitLines(s), "\n") == s
    decreases |s|
  {
    if s != [] {
      var rest := SplitLines(s[1..]);
      JoinSplit(s[1..]);
      if s[0] == '\n' {
        var r := [[]] + rest;
        assert r[1..] == rest;
        assert Join(r, "\n") == [] + "\n" + Join(rest, "\n");
      } else {
        var r := [[s[0]] + rest[0]] + rest[1..];
        if |rest| == 1 {
          assert Join(r, "\n") == [s[0]] + rest[0];
        } else {
          assert r[1..] == rest[1..];
          assert Join(r, "\n") == [s[0]] + rest[0] + "\n" + Join(rest[1..], "\n");
        }
      }
      assert s == [s[0]] + s[1..];
    }
  }

  /** Splitting line-free pieces joined by line feeds gives the pieces back. */
  lemma {:induction false} SplitJoin(parts: seq<string>)
    requires |parts| >= 1 && forall i :: 0 <= i < |parts| ==> '\n' !in parts[i]
    ensures SplitLines(Join(parts, "\n")) == parts
    decreases |parts|
  {
    if |parts| == 1 {
      SplitPrefix(parts[0], []);
      assert SplitLines([]) == [[]];
      assert parts[0] + [] == parts[0];
      assert Join(parts, "\n") == parts[0];
    } else {
      var t := Join(parts[1..], "\n");
      SplitJoin(parts[1..]);
      assert Join(parts, "\n") == parts[0] + ("\n" + t);
      SplitPrefix(parts[0], "\n" + t);
      assert ("\n" + t)[1..] == t;
      var r := SplitLines("\n" + t);
      assert r == [[]] + parts[1..];
      assert r[0] == [] && r[1..] == parts[1..];
      assert parts[0] + [] == parts[0];
      assert parts == [parts[0]] + parts[1..];
    }
  }

  /** Text without a line feed becomes the front of the first piece of what follows it. */
  lemma {:induction false} SplitPrefix(x: string, t: string)
    requires '\n' !in x
    ensures SplitLines(x + t) == [x + SplitLines(t)[0]] + SplitLines(t)[1..]
    decreases |x|
  {
    if x == [] {
      assert x + t == t;
      assert [] + SplitLines(t)[0] == SplitLines(t)[0];
      assert SplitLines(t) == [SplitLines(t)[0]] + SplitLines(t)[1..];
    } else {
      SplitPrefix(x[1..], t);
      assert (x + t)[1..] == x[1..] + t;
      assert (x + t)[0] == x[0];
      assert [x[0]] + (x[1..] + SplitLines(t)[0]) == x + SplitLines(t)[0];
    }
  }

  // ---------------------------------------------------------------------
  // The lines that are kept

  /** `lines.map(line => line.trim()).filter(line => !skip(line))` for a line filter `skip`. */
  function KeepTrimmed(lines: seq<string>, skip: string -> bool): (r: seq<string>)
    ensures |r| <= |lines|
  {
    if lines == [] then []
    else
      var t := Trim(lines[0]);
      (if skip(t) then [] else [t]) + KeepTrimmed(lines[1..], skip)
  }

  /** The trimmed lines `shouldSkipLine` lets through, in order. */
  function Survivors(lines: seq<string>): seq<string>
  {
    KeepTrimmed(lines, LineFilter.ShouldSkipLine)
  }

  /** A filter that rejects the empty line and decides on the trimmed line, as `shouldSkipLine` does. */
  ghost predicate TrimsFirst(skip: string -> bool)
  {
    skip([]) && forall x :: skip(Trim(x)) == skip(x)
  }

  lemma {:induction false} ShouldSkipTrimsFirst()
    ensures TrimsFirst(LineFilter.ShouldSkipLine)
  {
    forall x ensures LineFilter.ShouldSkipLine(Trim(x)) == LineFilter.ShouldSkipLine(x) {
      TrimTwice(x);
    }
    LineFilter.BlankSkipped([]);
  }

  /** The kept lines of two runs of lines are those of the first and then those of the second. */
  lemma {:induction false} KeepConcat(a: seq<string>, b: seq<string>, skip: string -> bool)
    ensures KeepTrimmed(a + b, skip) == KeepTrimmed(a, skip) + KeepTrimmed(b, skip)
    decreases |a|
  {
    if a == [] {
      assert a + b == b;
    } else {
      assert (a + b)[0] == a[0] && (a + b)[1..] == a[1..] + b;
      KeepConcat(a[1..], b, skip);
    }
  }

  /** `lines.map(line => line.trim())` */
  function TrimAll(lines: seq<string>): (r: seq<string>)
    ensures |r| == |lines|
  {
    if lines == [] then [] else [Trim(lines[0])] + TrimAll(lines[1..])
  }

  /**
   * Every kept line is one of the trimmed lines, not empty, trimmed, and not
   * one the filter rejects; every line the filter does not reject is kept,
   * trimmed.
   */
  lemma {:induction false} KeepSpec(lines: seq<string>, skip: string -> bool)
    requires TrimsFirst(skip)
    ensures forall x :: x in KeepTrimmed(lines, skip) ==> x != [] && IsTrimmed(x) && !skip(x) && x in TrimAll(lines)
    ensures forall j :: 0 <= j < |lines| && !skip(lines[j]) ==> Trim(lines[j]) in KeepTrimmed(lines, skip)
  {
    KeepSound(lines, skip);
    KeepComplete(lines, skip);
  }

  lemma {:induction false} KeepSound(lines: seq<string>, skip: string -> bool)
    requires TrimsFirst(skip)
    ensures forall x :: x in KeepTrimmed(lines, skip) ==> x != [] && IsTrimmed(x) && !skip(x) && x in TrimAll(lines)
    decreases |lines|
  {
    if lines != [] {
      KeepSound(lines[1..], skip);
      var t := Trim(lines[0]);
      var rest := KeepTrimmed(lines[1..], skip);
      assert TrimAll(lines) == [t] + TrimAll(lines[1..]);
      if skip(t) {
        assert KeepTrimmed(lines, skip) == rest;
      } else {
        assert KeepTrimmed(lines, skip) == [t] + rest;
        TrimSpec(lines[0]);
        assert skip(t) == skip(lines[0]);
        assert t != [];
      }
    }
  }

  lemma {:induction false} KeepComplete(lines: seq<string>, skip: string -> bool)
    requires TrimsFirst(skip)
    ensures forall j :: 0 <= j < |lines| && !skip(lines[j]) ==> Trim(lines[j]) in KeepTrimmed(lines, skip)
    decreases |lines|
  {
    if lines != [] {
      KeepComplete(lines[1..], skip);
      var t := Trim(lines[0]);
      var rest := KeepTrimmed(lines[1..], skip);
      assert skip(Trim(lines[0])) == skip(lines[0]);
      assert KeepTrimmed(lines, skip) == (if skip(t) then [] else [t]) + rest;
      forall j | 0 <= j < |lines| && !skip(lines[j]) ensures Trim(lines[j]) in KeepTrimmed(lines, skip) {
        if j > 0 {
          assert lines[j] == lines[1..][j - 1];
        }
      }
    }
  }

  /** Nothing is kept exactly when the filter rejects every line. */
  lemma {:induction false} KeepNone(lines: seq<string>, skip: string -> bool)
    requires TrimsFirst(skip)
    ensures KeepTrimmed(lines, skip) == [] <==> forall j :: 0 <= j < |lines| ==> skip(lines[j])
    decreases |lines|
  {
    if lines != [] {
      KeepNone(lines[1..], skip);
      assert skip(Trim(lines[0])) == skip(lines[0]);
      assert forall j :: 1 <= j < |lines| ==> lines[j] == lines[1..][j - 1];
    }
  }

  /** Filtering what was already filtered changes nothing. */
  lemma {:induction false} KeepIdempotent(lines: seq<string>, skip: string -> bool)
    requires TrimsFirst(skip)
    ensures KeepTrimmed(KeepTrimmed(lines, skip), skip) == KeepTrimmed(lines, skip)
    decreases |lines|
  {
    if lines != [] {
      var t := Trim(lines[0]);
      var rest := KeepTrimmed(lines[1..], skip);
      KeepIdempotent(lines[1..], skip);
      if !skip(t) {
        assert KeepTrimmed(lines, skip) == [t] + rest;
        KeepConcat([t], rest, skip);
        TrimTwice(lines[0]);
        assert [t][1..] == [];
        assert KeepTrimmed([t], skip) == [t];
      } else {
        assert KeepTrimmed(lines, skip) == rest;
      }
    }
  }

  // ---------------------------------------------------------------------
  // The link of one line

  /** The filename of a kept line: the one-on-one rewrite, then the sanitiser. */
  function Filename(line: string, settings: Settings): string
  {
    Sanitizer.Sanitize(OneOnOne.ProcessOneOnOneLine(line, settings.userName), settings)
  }

  /** The note name: the filename, with the date appended unless the date format is `none`. */
  function NoteName(filename: string, settings: Settings, current: string, now: Dates.Date): string
  {
    if settings.dateFormat != NoDate then Dates.AppendDate(filename, settings.dateFormat, current, now)
    else filename
  }

  /** `` `[[${filename}]]` `` for a kept line. */
  function LinkOf(line: string, settings: Settings, current: string, now: Dates.Date): string
  {
    "[[" + NoteName(Filename(line, settings), settings, current, now) + "]]"
  }

  /** The link of every kept line, in order. */
  function Links(lines: seq<string>, settings: Settings, current: string, now: Dates.Date): (r: seq<string>)
    ensures |r| == |lines|
  {
    seq(|lines|, i requires 0 <= i < |lines| => LinkOf(lines[i], settings, current, now))
  }

  /** The date a link receives: the one in the open file's name when there is one, else today's. */
  function StampDate(current: string, now: Dates.Date): Dates.Date
  {
    if current != [] && Dates.ExtractDate(current).Some? then Dates.ExtractDate(current).value else now
  }

  /** A formatted date is made of digits and dashes. */
  lemma {:induction false} DateCharsLegal(fmt: DateFormat, d: Dates.Date)
    ensures Sanitizer.NoneIllegal(Dates.FormatDate(fmt, d))
    ensures '\n' !in Dates.FormatDate(fmt, d)
  {
    var r := Dates.FormatDate(fmt, d);
    TwoDigitsOnly(d.month);
    TwoDigitsOnly(d.day);
    var y := NatToString(d.year);
    assert forall k :: 0 <= k < |y| ==> IsDigit(y[k]);
    assert forall k :: 0 <= k < |r| ==> IsDigit(r[k]) || r[k] == '-';
  }

  lemma {:induction false} TwoDigitsOnly(n: nat)
    ensures AllDigits(Dates.Two(n))
  {
    var s := NatToString(n);
    assert forall k :: 0 <= k < |s| ==> IsDigit(s[k]);
  }

  /**
   * With a replacement character the settings tab accepts, a filename holds
   * no character illegal in a filename, so in particular no bracket.
   */
  lemma {:induction false} FilenameLegal(line: string, settings: Settings)
    requires ValidReplacement(settings.replacementChar)
    ensures Sanitizer.NoneIllegal(Filename(line, settings))
  {
    Sanitizer.SanitizeClean(OneOnOne.ProcessOneOnOneLine(line, settings.userName), settings);
  }

  /** Appending the date keeps a legal filename legal: the link's only brackets are its own. */
  lemma {:induction false} NoteNameLegal(filename: string, settings: Settings, current: string, now: Dates.Date)
    requires Sanitizer.NoneIllegal(filename)
    ensures Sanitizer.NoneIllegal(NoteName(filename, settings, current, now))
  {
    if settings.dateFormat != NoDate {
      var date := Dates.FormatDate(settings.dateFormat, StampDate(current, now));
      DateCharsLegal(settings.dateFormat, StampDate(current, now));
      var n := NoteName(filename, settings, current, now);
      assert n == filename + " " + date;
      forall k | 0 <= k < |n| ensures !IsIllegal(n[k]) {
        if k < |filename| {
          assert n[k] == filename[k];
        } else if k > |filename| {
          assert n[k] == date[k - |filename| - 1];
        }
      }
    }
  }

  /** A link holds no line feed when its line holds none and the replacement character is not one. */
  lemma {:induction false} LinkLineFree(line: string, settings: Settings, current: string, now: Dates.Date)
    requires '\n' !in line && settings.replacementChar != '\n'
    ensures '\n' !in LinkOf(line, settings, current, now)
  {
    FilenameLineFree(line, settings);
    NoteNameLineFree(Filename(line, settings), settings, current, now);
  }

  lemma {:induction false} FilenameLineFree(line: string, settings: Settings)
    requires '\n' !in line && settings.replacementChar != '\n'
    ensures '\n' !in Filename(line, settings)
  {
    assert '\n' !in " one-on-one";
    OneOnOne.RewriteDrawsOn(line, settings.userName, '\n');
    assert '\n' !in Sanitizer.Fallback;
    Sanitizer.SanitizeDrawsOn(OneOnOne.ProcessOneOnOneLine(line, settings.userName), settings, '\n');
  }

  lemma {:induction false} NoteNameLineFree(filename: string, settings: Settings, current: string, now: Dates.Date)
    requires '\n' !in filename
    ensures '\n' !in NoteName(filename, settings, current, now)
  {
    DateCharsLegal(settings.dateFormat, StampDate(current, now));
  }

  /**
   * When a date format is chosen and the stamped date has a four-digit year,
   * the combiner reads that date back from the link, whatever the filename before it.
   */
  lemma {:induction false} DatedLink(filename: string, settings: Settings, current: string, now: Dates.Date, index: nat)
    requires settings.dateFormat != NoDate
    requires Dates.ValidDate(StampDate(current, now)) && 1000 <= StampDate(current, now).year <= 9999
    ensures Events.ParseEvent("[[" + NoteName(filename, settings, current, now) + "]]", index).date ==
            Some(Dates.FormatDate(settings.dateFormat, StampDate(current, now)))
  {
    var date := Dates.FormatDate(settings.dateFormat, StampDate(current, now));
    var link := "[[" + NoteName(filename, settings, current, now) + "]]";
    assert link == "[[" + filename + " " + date + "]]";
    DatedName(filename, settings.dateFormat, StampDate(current, now));
    Events.EventDate(link, index);
  }

  /** A link of a name, a space and a date with a four-digit year carries that date. */
  lemma {:induction false} DatedName(filename: string, fmt: DateFormat, d: Dates.Date)
    requires Dates.ValidDate(d) && 1000 <= d.year <= 9999
    ensures Events.DateOf(Events.Cleaned("[[" + filename + " " + Dates.FormatDate(fmt, d) + "]]")) ==
            Some(Dates.FormatDate(fmt, d))
  {
    var date := Dates.FormatDate(fmt, d);
    Dates.FormatShape(fmt, d);
    assert Events.DateShaped(date);
    var x := filename + " ";
    assert "[[" + filename + " " + date + "]]" == "[[" + (x + date) + "]]";
    DateAtLinkEnd(x, date);
  }

  /** A date in either form begins and ends with a digit, so no trim cuts into it. */
  lemma {:induction false} DateEdges(date: string)
    requires Events.DateShaped(date)
    ensures date != [] && !IsSpace(date[0]) && !IsSpace(date[|date| - 1])
  {
    assert IsDigit(date[0]) && IsDigit(date[|date| - 1]);
  }

  /** A date at the very end of a link, whatever precedes it, is the link's date. */
  lemma {:induction false} DateAtLinkEnd(x: string, date: string)
    requires Events.DateShaped(date)
    ensures Events.DateOf(Events.Cleaned("[[" + (x + date) + "]]")) == Some(date)
  {
    DateEdges(date);
    Events.Unwrapped(x + date);
    var y := TrimBefore(x, date);
    Events.DateWidthAtEnd(y, date);
    assert (y + date)[|y + date| - |date|..] == date;
  }

  // ---------------------------------------------------------------------
  // The command

  /** What the command does: a notice alone, or the text that replaces the selection and the notice. */
  datatype Outcome = NoSelection | NoValidLines | Replaced(text: string, notice: string)

  /** `` `Created ${n} note link${n === 1 ? '' : 's'}` `` */
  function Notice(n: nat): string
  {
    "Created " + NatToString(n) + " note link" + (if n == 1 then "" else "s")
  }

  /** One link is counted in the singular, any other count in the plural. */
  lemma {:induction false} NoticeExamples()
    ensures Notice(1) == "Created 1 note link"
    ensures Notice(12) == "Created 12 note links"
  {
    assert NatToString(12) == NatToString(1) + [DigitChar(2)];
  }

  /** `splitLinesToNotes` with the selection, the open file's base name and today's date given. */
  function SplitLinesToNotes(selection: string, settings: Settings, current: string, now: Dates.Date): Outcome
  {
    if selection == [] then NoSelection
    else
      var links := Links(Survivors(SplitLines(selection)), settings, current, now);
      if links == [] then NoValidLines
      else
        var combined := Combiner.CombineSpec(links);
        Replaced(Join(combined, "\n"), Notice(|combined|))
  }

  /**
   * An empty selection gives the no-selection notice; a selection whose every
   * line the filter rejects gives the no-valid-lines notice; any other
   * selection is replaced.
   */
  lemma {:induction false} OutcomeKinds(selection: string, settings: Settings, current: string, now: Dates.Date)
    ensures var r := SplitLinesToNotes(selection, settings, current, now);
            var lines := SplitLines(selection);
            (r.NoSelection? <==> selection == []) &&
            (r.NoValidLines? <==> selection != [] && forall j :: 0 <= j < |lines| ==> LineFilter.ShouldSkipLine(lines[j])) &&
            (r.Replaced? <==> selection != [] && exists j :: 0 <= j < |lines| && !LineFilter.ShouldSkipLine(lines[j]))
  {
    var lines := SplitLines(selection);
    OutcomeByKept(selection, settings, current, now);
    SurvivorsNone(lines);
  }

  /** The outcome in terms of the kept lines. */
  lemma {:induction false} OutcomeByKept(selection: string, settings: Settings, current: string, now: Dates.Date)
    ensures var r := SplitLinesToNotes(selection, settings, current, now);
            var kept := Survivors(SplitLines(selection));
            (r.NoSelection? <==> selection == []) &&
            (r.NoValidLines? <==> selection != [] && kept == []) &&
            (r.Replaced? <==> selection != [] && kept != [])
  {
  }

  /** No line survives exactly when `shouldSkipLine` rejects every line. */
  lemma {:induction false} SurvivorsNone(lines: seq<string>)
    ensures Survivors(lines) == [] <==> forall j :: 0 <= j < |lines| ==> LineFilter.ShouldSkipLine(lines[j])
  {
    ShouldSkipTrimsFirst();
    KeepNone(lines, LineFilter.ShouldSkipLine);
  }

  /**
   * A replacement holds one link per kept line after combining: at least one,
   * at most one per line of the selection, fewer only when links were merged,
   * and exactly the links of the kept lines when no two share a person and a
   * date. The notice gives that count.
   */
  lemma {:induction false} ReplacedText(selection: string, settings: Settings, current: string, now: Dates.Date)
    requires SplitLinesToNotes(selection, settings, current, now).Replaced?
    ensures var r := SplitLinesToNotes(selection, settings, current, now);
            var links := Links(Survivors(SplitLines(selection)), settings, current, now);
            var combined := Combiner.CombineSpec(links);
            r.text == Join(combined, "\n") && r.notice == Notice(|combined|) &&
            1 <= |combined| <= |links| <= |SplitLines(selection)| &&
            (Combiner.NoSharedKey(Events.ParseAll(links)) ==> combined == links)
  {
    var links := Links(Survivors(SplitLines(selection)), settings, current, now);
    Combiner.CombineNonEmpty(links);
    Combiner.CombineLength(links);
    if Combiner.NoSharedKey(Events.ParseAll(links)) {
      Combiner.Unchanged(links);
    }
  }

  /**
   * With a replacement character that is not a line feed, the text put in
   * place of the selection has one line per combined link, so the notice
   * counts the lines inserted.
   */
  lemma {:induction false} NoticeCountsLines(selection: string, settings: Settings, current: string, now: Dates.Date)
    requires SplitLinesToNotes(selection, settings, current, now).Replaced?
    requires settings.replacementChar != '\n'
    ensures var r := SplitLinesToNotes(selection, settings, current, now);
            SplitLines(r.text) == Combiner.CombineSpec(Links(Survivors(SplitLines(selection)), settings, current, now)) &&
            r.notice == Notice(|SplitLines(r.text)|)
  {
    var lines := SplitLines(selection);
    var kept := Survivors(lines);
    var links := Links(kept, settings, current, now);
    KeptLineFree(lines);
    forall i | 0 <= i < |links| ensures '\n' !in links[i] {
      LinkLineFree(kept[i], settings, current, now);
    }
    Combiner.CombineLineFree(links);
    Combiner.CombineNonEmpty(links);
    SplitJoin(Combiner.CombineSpec(links));
  }

  /** The kept lines of a split selection hold no line feed. */
  lemma {:induction false} KeptLineFree(lines: seq<string>)
    requires forall j :: 0 <= j < |lines| ==> '\n' !in lines[j]
    ensures forall i :: 0 <= i < |Survivors(lines)| ==> '\n' !in Survivors(lines)[i]
  {
    KeepLineFree(lines, LineFilter.ShouldSkipLine);
  }

  lemma {:induction false} KeepLineFree(lines: seq<string>, skip: string -> bool)
    requires forall j :: 0 <= j < |lines| ==> '\n' !in lines[j]
    ensures forall x :: x in KeepTrimmed(lines, skip) ==> '\n' !in x
    decreases |lines|
  {
    if lines != [] {
      assert forall j :: 0 <= j < |lines| - 1 ==> lines[1..][j] == lines[j + 1];
      KeepLineFree(lines[1..], skip);
      TrimSpec(lines[0]);
      var a, b :| 0 <= a <= b <= |lines[0]| && Trim(lines[0]) == lines[0][a..b];
      Sanitizer.NotInSlice(lines[0], a, b, '\n');
    }
  }
}
