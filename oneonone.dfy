/**
 * One-on-one meeting titles (src/oneOnOneProcessor.ts): a line such as
 * "Jacob / Shawn" or "Jacob <> Shawn Intro", where one side is the user's
 * own name, is rewritten to "{other} one-on-one" or "{other} {suffix}".
 *
 * The two regular expressions are modelled piece by piece with the engine
 * of module Regex, so the lazy and greedy choices are those of JavaScript,
 * including the user-first pattern's habit of taking a single character as
 * the other person.
 */
module OneOnOne {
  import opened Strings
  import opened Regex

  const SeparatorChars: string := "/<>"

  /** A separator is neither a space, a word character nor a line break. */
  lemma {:induction false} SeparatorKind(c: char)
    requires c in SeparatorChars
    ensures !IsSpace(c) && !IsWordChar(c) && !IsLineTerminator(c)
  {
    assert SeparatorChars == ['/', '<', '>'];
  }

  lemma {:induction false} NotSeparator(c: char)
    requires IsSpace(c) || IsWordChar(c)
    ensures c !in SeparatorChars
  {
    assert SeparatorChars == ['/', '<', '>'];
  }

  /** `[/<>]+` */
  const Separator := Chars(OneOf(SeparatorChars), 1, Unbounded, false)

  /** `\s*` */
  const Spaces := Chars(Space, 0, Unbounded, false)

  /** `\s+1:1`, the body of the optional marker group. */
  const MarkerBody: seq<Piece> := [Chars(Space, 1, Unbounded, false), Lit("1:1")]

  /** `(\s+1:1)?\s*(.*)$`, the tail both patterns share. */
  const Tail: seq<Piece> := [Opt(MarkerBody), Spaces, AnyChars, End]

  /** `.*` */
  const AnyChars := Chars(NotLineBreak, 0, Unbounded, false)

  /**
   * `^\s*U\s*([/<>]+)\s*([\w\s]+?)(\s+1:1)?\s*(.*)$` with the user name `U`
   * escaped, so matched literally, under the `i` flag. Group 2 is piece 5,
   * group 4 is piece 8.
   */
  function UserFirstPattern(user: string): seq<Piece>
  {
    UserFirstWith(user, Tail)
  }

  /** The six pieces of the user-first pattern before the shared tail, then `rest`. */
  function UserFirstWith(user: string, rest: seq<Piece>): seq<Piece>
  {
    [Spaces] + ([Lit(user)] + ([Spaces] + ([Separator] + ([Spaces] + ([Chars(WordOrSpace, 1, Unbounded, true)] + rest)))))
  }

  /**
   * `^\s*([\w\s]+?)\s*([/<>]+)\s*U(\s+1:1)?\s*(.*)$` under the `i` flag.
   * Group 1 is piece 1, group 4 is piece 8.
   */
  function UserSecondPattern(user: string): seq<Piece>
  {
    UserSecondWith(user, Tail)
  }

  /** The six pieces of the user-second pattern before the shared tail, then `rest`. */
  function UserSecondWith(user: string, rest: seq<Piece>): seq<Piece>
  {
    [Spaces] + ([Chars(WordOrSpace, 1, Unbounded, true)] + ([Spaces] + ([Separator] + ([Spaces] + ([Lit(user)] + rest)))))
  }

  /** The title built from the captured other person and suffix. */
  function Render(other: string, suffix: string): string
  {
    var o := Trim(other);
    var x := Trim(suffix);
    if x != [] then o + " " + x else o + " one-on-one"
  }

  /** `processOneOnOneLine(line, userName)`. */
  function ProcessOneOnOneLine(line: string, userName: string): string
  {
    if Trim(userName) == [] then line
    else
      match FirstParse(UserFirstPattern(userName), line, 0, true)
      case Some(e) =>
        EndsOrdered(UserFirstPattern(userName), line, 0, true, 4, 5);
        EndsOrdered(UserFirstPattern(userName), line, 0, true, 7, 8);
        Render(line[e[4]..e[5]], line[e[7]..e[8]])
      case None =>
        match FirstParse(UserSecondPattern(userName), line, 0, true)
        case Some(e) =>
          EndsOrdered(UserSecondPattern(userName), line, 0, true, 0, 1);
          EndsOrdered(UserSecondPattern(userName), line, 0, true, 7, 8);
          Render(line[e[0]..e[1]], line[e[7]..e[8]])
        case None => line
  }

  predicate NoLineBreak(s: string)
  {
    forall k :: 0 <= k < |s| ==> !IsLineTerminator(s[k])
  }

  predicate HasSeparator(s: string)
  {
    exists k :: 0 <= k < |s| && s[k] in SeparatorChars
  }

  /** `s` begins with `p`, letters compared without case. */
  predicate StartsWithFolded(s: string, p: string)
  {
    |p| <= |s| && forall k :: 0 <= k < |p| ==> SameFolded(s[k], p[k])
  }

  /**
   * What the shared tail leaves for the suffix group: a leading "1:1"
   * marker preceded by at least one space is dropped.
   */
  function MarkerRest(t: string): string
  {
    var k := RunLength(t, 0, Space);
    if k >= 1 && LitAt(t, k, "1:1", true) then LitAtMeaning(t, k, "1:1", true); t[k + 3..] else t
  }

  /** Where the optional marker group stops: after spaces and "1:1", or where it started. */
  function MarkerEnd(s: string, p: nat): (q: nat)
    requires p <= |s|
    ensures p <= q <= |s|
  {
    var k := RunLength(s, p, Space);
    if k >= 1 && LitAt(s, p + k, "1:1", true) then LitAtMeaning(s, p + k, "1:1", true); p + k + 3 else p
  }

  /** Where the suffix group starts: after the marker and the spaces that follow it. */
  function SuffixStart(s: string, p: nat): (q: nat)
    requires p <= |s|
    ensures p <= q <= |s|
  {
    var m := MarkerEnd(s, p);
    m + RunLength(s, m, Space)
  }

  // ---------------------------------------------------------------------
  // Properties

  /** An empty or blank user name turns the rewriting off. */
  lemma {:induction false} BlankUserUnchanged(line: string, userName: string)
    requires Trim(userName) == []
    ensures ProcessOneOnOneLine(line, userName) == line
  {
  }

  /** The rewrite brings in no character but those of " one-on-one". */
  lemma {:induction false} RewriteDrawsOn(line: string, userName: string, c: char)
    requires c !in line && c !in " one-on-one"
    ensures c !in ProcessOneOnOneLine(line, userName)
  {
    if Trim(userName) != [] {
      var ps1 := UserFirstPattern(userName);
      var ps2 := UserSecondPattern(userName);
      match FirstParse(ps1, line, 0, true)
      case Some(e) =>
        EndsOrdered(ps1, line, 0, true, 4, 5);
        EndsOrdered(ps1, line, 0, true, 7, 8);
        RenderDrawsOn(line[e[4]..e[5]], line[e[7]..e[8]], c);
      case None =>
        match FirstParse(ps2, line, 0, true)
        case Some(e) =>
          EndsOrdered(ps2, line, 0, true, 0, 1);
          EndsOrdered(ps2, line, 0, true, 7, 8);
          RenderDrawsOn(line[e[0]..e[1]], line[e[7]..e[8]], c);
        case None =>
    }
  }

  lemma {:induction false} RenderDrawsOn(other: string, suffix: string, c: char)
    requires c !in other && c !in suffix && c !in " one-on-one"
    ensures c !in Render(other, suffix)
  {
    TrimSpec(other);
    TrimSpec(suffix);
    assert c != ' ' && " " == " one-on-one"[..1];
  }

  /** Both patterns need a separator, so a line without one of `/ < >` is returned as it is. */
  lemma {:induction false} UnchangedWithoutSeparator(line: string, userName: string)
    requires !HasSeparator(line)
    ensures ProcessOneOnOneLine(line, userName) == line
  {
    if Trim(userName) != [] {
      ParseNeedsSeparator(UserFirstPattern(userName), line);
      ParseNeedsSeparator(UserSecondPattern(userName), line);
    }
  }

  /** A pattern whose fourth piece is the separator run cannot match a line without a separator. */
  lemma {:induction false} ParseNeedsSeparator(ps: seq<Piece>, line: string)
    requires 3 < |ps| && ps[3] == Separator
    ensures FirstParse(ps, line, 0, true).Some? ==> HasSeparator(line)
  {
    if FirstParse(ps, line, 0, true).Some? {
      var e := FirstParse(ps, line, 0, true).value;
      FirstParseSound(ps, line, 0, true);
      ParseOKAt(ps, line, 0, e, 3, true);
      assert line[e[2]] in SeparatorChars;
    }
  }

  /**
   * The quirk of the user-first pattern: on a line without line breaks the
   * lazy `([\w\s]+?)` keeps exactly one character, whatever follows, so
   * "Shawn / Jacob" gives "J acob" rather than "Jacob one-on-one".
   */
  lemma {:induction false} UserFirstTakesOneChar(line: string, userName: string)
    requires NoLineBreak(line)
    requires FirstParse(UserFirstPattern(userName), line, 0, true).Some?
    ensures var e := FirstParse(UserFirstPattern(userName), line, 0, true).value;
            e[5] == e[4] + 1
  {
    var ps := UserFirstPattern(userName);
    var e := FirstParse(ps, line, 0, true).value;
    FirstParseSuffix(ps, line, 0, 4, true);
    var lazy := Chars(WordOrSpace, 1, Unbounded, true);
    var rest := [lazy] + Tail;
    assert ps[5..] == rest;
    var n := RunLength(line, e[4], WordOrSpace);
    var cs := Candidates(lazy, line, e[4], true);
    assert cs == Upward(e[4] + 1, e[4] + n);
    assert cs != [] && cs[0] == e[4] + 1;
    RunLengthIs(line, 0, NotLineBreak, |line|);
    RunLengthToEnd(line, 0, e[4] + 1, NotLineBreak);
    TailCapture(line, e[4] + 1);
    assert rest[0] == lazy && rest[1..] == Tail;
    FirstCandidateWins(rest, line, e[4], true);
  }

  /**
   * User-first form: "{user}{spaces}{separators}{spaces}{c}{t}" becomes
   * "{c} {suffix}" or "{c} one-on-one", `c` being one word character.
   */
  lemma {:induction false} UserFirstForm(userName: string, u: string, s1: string, sep: string, s2: string, c: char, t: string)
    requires u != [] && !IsSpace(u[0]) && StartsWithFolded(u, userName) && |u| == |userName|
    requires AllSpace(s1) && AllSpace(s2)
    requires sep != [] && forall k :: 0 <= k < |sep| ==> sep[k] in SeparatorChars
    requires IsWordChar(c) && NoLineBreak(t)
    ensures ProcessOneOnOneLine(u + (s1 + (sep + (s2 + ([c] + t)))), userName) == Render([c], MarkerRest(t))
  {
    var line := u + (s1 + (sep + (s2 + ([c] + t))));
    var e := UserFirstFormMatch(userName, u, s1, sep, s2, c, t);
    ProcessByFirst(line, userName, e);
    RenderTrimmed(line[e[4]..e[5]], line[e[7]..e[8]], [c], MarkerRest(t));
  }

  /** The user-first pattern's match on a line of that form, and the title its groups give. */
  lemma {:induction false} UserFirstFormMatch(userName: string, u: string, s1: string, sep: string, s2: string, c: char, t: string)
    returns (e: seq<nat>)
    requires u != [] && !IsSpace(u[0]) && StartsWithFolded(u, userName) && |u| == |userName|
    requires AllSpace(s1) && AllSpace(s2)
    requires sep != [] && forall k :: 0 <= k < |sep| ==> sep[k] in SeparatorChars
    requires IsWordChar(c) && NoLineBreak(t)
    ensures var line := u + (s1 + (sep + (s2 + ([c] + t))));
            Trim(userName) != [] && FirstParse(UserFirstPattern(userName), line, 0, true) == Some(e) &&
            |e| == 10 && e[4] <= e[5] <= |line| && e[7] <= e[8] <= |line| &&
            line[e[4]..e[5]] == [c] && Trim(line[e[7]..e[8]]) == Trim(MarkerRest(t))
  {
    var line := u + (s1 + (sep + (s2 + ([c] + t))));
    var pre;
    pre, e := UserFirstFormEnds(userName, u, s1, sep, s2, c, t);
    var p4 := |pre|;
    SuffixAt(line, pre, [c], t);
    SliceToEnd(line, e[7], e[8]);
    SuffixTrimAt(line, p4 + 1, t);
  }

  lemma {:induction false} UserFirstFormEnds(userName: string, u: string, s1: string, sep: string, s2: string, c: char, t: string)
    returns (pre: string, e: seq<nat>)
    requires u != [] && !IsSpace(u[0]) && StartsWithFolded(u, userName) && |u| == |userName|
    requires AllSpace(s1) && AllSpace(s2)
    requires sep != [] && forall k :: 0 <= k < |sep| ==> sep[k] in SeparatorChars
    requires IsWordChar(c) && NoLineBreak(t)
    ensures var line := u + (s1 + (sep + (s2 + ([c] + t))));
            line == pre + ([c] + t) && Trim(userName) != [] &&
            FirstParse(UserFirstPattern(userName), line, 0, true) == Some(e) &&
            |e| == 10 && e[4] == |pre| && e[5] == |pre| + 1 && e[7] == SuffixStart(line, |pre| + 1) && e[8] == |line|
  {
    var line := u + (s1 + (sep + (s2 + ([c] + t))));
    pre := UserFirstParts(userName, u, s1, sep, s2, c, t);
    e := UserFirstMatch(line, userName, |u|, |u| + |s1|, |u| + |s1| + |sep|, |pre|);
  }

  /** The runs and the literal the user-first pattern meets on a line of that form. */
  lemma {:induction false} UserFirstParts(userName: string, u: string, s1: string, sep: string, s2: string, c: char, t: string)
    returns (pre: string)
    requires u != [] && !IsSpace(u[0]) && StartsWithFolded(u, userName) && |u| == |userName|
    requires AllSpace(s1) && AllSpace(s2)
    requires sep != [] && forall k :: 0 <= k < |sep| ==> sep[k] in SeparatorChars
    requires IsWordChar(c) && NoLineBreak(t)
    ensures var line := u + (s1 + (sep + (s2 + ([c] + t))));
            line == pre + ([c] + t) && |pre| == |u| + |s1| + |sep| + |s2| &&
            Trim(userName) != [] &&
            LitAt(line, 0, userName, true) && RunLength(line, 0, Space) == 0 &&
            RunLength(line, |u|, Space) == |s1| &&
            RunLength(line, |u| + |s1|, OneOf(SeparatorChars)) == |sep| &&
            RunLength(line, |u| + |s1| + |sep|, Space) == |s2| &&
            RunLength(line, |pre|, WordOrSpace) >= 1 &&
            RunLength(line, |pre| + 1, NotLineBreak) == |line| - (|pre| + 1)
  {
    var r4 := [c] + t;
    var r1 := s1 + (sep + (s2 + r4));
    var line := u + r1;
    NameNotBlank(u, userName);
    LitAtPrefix(u, r1, userName);
    assert line[0] == u[0];
    NotSeparator(c);
    MiddleRuns(u, s1, sep, s2, r4);
    pre := Regroup(u, s1, sep, s2, r4);
    RunLengthConcat(pre, r4, 0, WordOrSpace);
    assert r4[0] == c;
    RunLengthConcat(pre, r4, 1, NotLineBreak);
    RunLengthConcat([c], t, 0, NotLineBreak);
    RunLengthIs(t, 0, NotLineBreak, |t|);
  }

  /** On `pre + (x + t)`, the slices that hold `x` and `t`. */
  lemma {:induction false} SuffixAt(line: string, pre: string, x: string, t: string)
    requires line == pre + (x + t)
    ensures line[|pre|..|pre| + |x|] == x && line[|pre| + |x|..] == t
  {
    DropConcat(pre, x + t, |x|);
    assert (x + t)[|x|..] == t;
  }

  /** The suffix group from `q`, trimmed, where the line continues from `q` with `t`. */
  lemma {:induction false} SuffixTrimAt(line: string, q: nat, t: string)
    requires q <= |line| && line[q..] == t
    ensures Trim(line[SuffixStart(line, q)..]) == Trim(MarkerRest(t))
  {
    SuffixTrim(line, q);
  }

  lemma {:induction false} SliceToEnd(s: string, a: nat, b: nat)
    requires a <= b == |s|
    ensures s[a..b] == s[a..]
  {
  }

  /** The title depends on the other person and the suffix only through their trimmed forms. */
  lemma {:induction false} RenderTrimmed(o1: string, x1: string, o2: string, x2: string)
    requires Trim(o1) == Trim(o2) && Trim(x1) == Trim(x2)
    ensures Render(o1, x1) == Render(o2, x2)
  {
  }

  /**
   * User-second form: "{other}{spaces}{separators}{spaces}{user}{t}" becomes
   * "{other} {suffix}", or "{other} one-on-one" when `t` is empty or only a
   * " 1:1" marker; neither the separator nor the marker reaches the output.
   */
  lemma {:induction false} UserSecondForm(userName: string, o: string, s1: string, sep: string, s2: string, u: string, t: string)
    requires o != [] && IsWordChar(o[0]) && IsWordChar(o[|o| - 1])
    requires forall k :: 0 <= k < |o| ==> IsWordChar(o[k]) || IsSpace(o[k])
    requires AllSpace(s1) && AllSpace(s2)
    requires sep != [] && forall k :: 0 <= k < |sep| ==> sep[k] in SeparatorChars
    requires u != [] && !IsSpace(u[0]) && u[0] !in SeparatorChars
    requires StartsWithFolded(u, userName) && |u| == |userName|
    requires NoLineBreak(t)
    requires !StartsWithFolded(o + (s1 + (sep + (s2 + (u + t)))), userName)
    ensures ProcessOneOnOneLine(o + (s1 + (sep + (s2 + (u + t)))), userName) == Render(o, MarkerRest(t))
  {
    var line := o + (s1 + (sep + (s2 + (u + t))));
    var e := UserSecondFormMatch(userName, o, s1, sep, s2, u, t);
    ProcessBySecond(line, userName, e);
    RenderTrimmed(line[e[0]..e[1]], line[e[7]..e[8]], o, MarkerRest(t));
  }

  /**
   * On a line of that form the user-first pattern fails and the user-second
   * pattern matches, its groups giving the title.
   */
  lemma {:induction false} UserSecondFormMatch(userName: string, o: string, s1: string, sep: string, s2: string, u: string, t: string)
    returns (e: seq<nat>)
    requires o != [] && IsWordChar(o[0]) && IsWordChar(o[|o| - 1])
    requires forall k :: 0 <= k < |o| ==> IsWordChar(o[k]) || IsSpace(o[k])
    requires AllSpace(s1) && AllSpace(s2)
    requires sep != [] && forall k :: 0 <= k < |sep| ==> sep[k] in SeparatorChars
    requires u != [] && !IsSpace(u[0]) && u[0] !in SeparatorChars
    requires StartsWithFolded(u, userName) && |u| == |userName|
    requires NoLineBreak(t)
    requires !StartsWithFolded(o + (s1 + (sep + (s2 + (u + t)))), userName)
    ensures var line := o + (s1 + (sep + (s2 + (u + t))));
            Trim(userName) != [] && FirstParse(UserFirstPattern(userName), line, 0, true).None? &&
            FirstParse(UserSecondPattern(userName), line, 0, true) == Some(e) &&
            |e| == 10 && e[0] <= e[1] <= |line| && e[7] <= e[8] <= |line| &&
            line[e[0]..e[1]] == o && Trim(line[e[7]..e[8]]) == Trim(MarkerRest(t))
  {
    var line := o + (s1 + (sep + (s2 + (u + t))));
    var pre;
    pre, e := UserSecondFormEnds(userName, o, s1, sep, s2, u, t);
    var p5 := |pre| + |u|;
    SuffixAt(line, pre, u, t);
    SliceToEnd(line, e[7], e[8]);
    SuffixTrimAt(line, p5, t);
  }

  lemma {:induction false} UserSecondFormEnds(userName: string, o: string, s1: string, sep: string, s2: string, u: string, t: string)
    returns (pre: string, e: seq<nat>)
    requires o != [] && IsWordChar(o[0]) && IsWordChar(o[|o| - 1])
    requires forall k :: 0 <= k < |o| ==> IsWordChar(o[k]) || IsSpace(o[k])
    requires AllSpace(s1) && AllSpace(s2)
    requires sep != [] && forall k :: 0 <= k < |sep| ==> sep[k] in SeparatorChars
    requires u != [] && !IsSpace(u[0]) && u[0] !in SeparatorChars
    requires StartsWithFolded(u, userName) && |u| == |userName|
    requires NoLineBreak(t)
    requires !StartsWithFolded(o + (s1 + (sep + (s2 + (u + t)))), userName)
    ensures var line := o + (s1 + (sep + (s2 + (u + t))));
            line == pre + (u + t) && line[0..|o|] == o && Trim(userName) != [] &&
            FirstParse(UserFirstPattern(userName), line, 0, true).None? &&
            FirstParse(UserSecondPattern(userName), line, 0, true) == Some(e) &&
            |e| == 10 && e[0] == 0 && e[1] == |o| && e[7] == SuffixStart(line, |pre| + |u|) && e[8] == |line|
  {
    var line := o + (s1 + (sep + (s2 + (u + t))));
    pre := UserSecondParts(userName, o, s1, sep, s2, u, t);
    e := UserSecondOn(line, userName, |o|, |o| + |s1|, |o| + |s1| + |sep|, pre, u, t);
  }

  /** The user-second pattern on `pre + (u + t)`, where the user-first pattern fails. */
  lemma {:induction false} UserSecondOn(line: string, userName: string, p1: nat, p2: nat, p3: nat, pre: string, u: string, t: string)
    returns (e: seq<nat>)
    requires line == pre + (u + t) && |u| == |userName|
    requires 0 < p1 <= p2 < p3 <= |pre|
    requires IsWordChar(line[0]) && !StartsWithFolded(line, userName)
    requires RunLength(line, 0, WordOrSpace) == p2 && IsWordChar(line[p1 - 1])
    requires RunLength(line, p1, Space) == p2 - p1
    requires RunLength(line, p2, OneOf(SeparatorChars)) == p3 - p2
    requires RunLength(line, p3, Space) == |pre| - p3
    requires LitAt(line, |pre|, userName, true)
    requires RunLength(line, |pre| + |u|, NotLineBreak) == |line| - (|pre| + |u|)
    ensures FirstParse(UserFirstPattern(userName), line, 0, true).None?
    ensures FirstParse(UserSecondPattern(userName), line, 0, true) == Some(e)
    ensures |e| == 10 && e[0] == 0 && e[1] == p1 && e[7] == SuffixStart(line, |pre| + |u|) && e[8] == |line|
  {
    UserFirstFailsOnOther(line, userName);
    e := UserSecondMatch(line, userName, p1, p2, p3, |pre|, |pre| + |u|);
  }

  /** The runs and the literal the user-second pattern meets on a line of that form. */
  lemma {:induction false} UserSecondParts(userName: string, o: string, s1: string, sep: string, s2: string, u: string, t: string)
    returns (pre: string)
    requires o != [] && IsWordChar(o[0]) && IsWordChar(o[|o| - 1])
    requires forall k :: 0 <= k < |o| ==> IsWordChar(o[k]) || IsSpace(o[k])
    requires AllSpace(s1) && AllSpace(s2)
    requires sep != [] && forall k :: 0 <= k < |sep| ==> sep[k] in SeparatorChars
    requires u != [] && !IsSpace(u[0]) && u[0] !in SeparatorChars
    requires StartsWithFolded(u, userName) && |u| == |userName|
    requires NoLineBreak(t)
    ensures var line := o + (s1 + (sep + (s2 + (u + t))));
            line == pre + (u + t) && |pre| == |o| + |s1| + |sep| + |s2| &&
            line[0..|o|] == o && Trim(userName) != [] &&
            IsWordChar(line[0]) && IsWordChar(line[|o| - 1]) &&
            RunLength(line, 0, WordOrSpace) == |o| + |s1| &&
            RunLength(line, |o|, Space) == |s1| &&
            RunLength(line, |o| + |s1|, OneOf(SeparatorChars)) == |sep| &&
            RunLength(line, |o| + |s1| + |sep|, Space) == |s2| &&
            LitAt(line, |pre|, userName, true) &&
            RunLength(line, |pre| + |u|, NotLineBreak) == |line| - (|pre| + |u|)
  {
    NameNotBlank(u, userName);
    SecondHead(o, s1, sep, s2, u + t);
    pre := Regroup(o, s1, sep, s2, u + t);
    SecondTail(pre, u, t, userName);
  }

  /** The other person and the runs after it, up to where the user's name starts. */
  lemma {:induction false} SecondHead(o: string, s1: string, sep: string, s2: string, r4: string)
    requires o != [] && IsWordChar(o[0]) && IsWordChar(o[|o| - 1])
    requires forall k :: 0 <= k < |o| ==> IsWordChar(o[k]) || IsSpace(o[k])
    requires AllSpace(s1) && AllSpace(s2)
    requires sep != [] && forall k :: 0 <= k < |sep| ==> sep[k] in SeparatorChars
    requires r4 != [] && !IsSpace(r4[0]) && r4[0] !in SeparatorChars
    ensures var line := o + (s1 + (sep + (s2 + r4)));
            line[0..|o|] == o && IsWordChar(line[0]) && IsWordChar(line[|o| - 1]) &&
            RunLength(line, 0, WordOrSpace) == |o| + |s1| &&
            RunLength(line, |o|, Space) == |s1| &&
            RunLength(line, |o| + |s1|, OneOf(SeparatorChars)) == |sep| &&
            RunLength(line, |o| + |s1| + |sep|, Space) == |s2|
  {
    var r2 := sep + (s2 + r4);
    var line := o + (s1 + r2);
    assert line[0] == o[0] && line[|o| - 1] == o[|o| - 1];
    assert r2[0] == sep[0];
    OtherRun(o, s1, r2);
    MiddleRuns(o, s1, sep, s2, r4);
    assert line[0..|o|] == o;
  }

  /** The user's name at the end of `pre`, then the rest of the line without line breaks. */
  lemma {:induction false} SecondTail(pre: string, u: string, t: string, userName: string)
    requires StartsWithFolded(u, userName) && |u| == |userName| && NoLineBreak(t)
    ensures LitAt(pre + (u + t), |pre|, userName, true)
    ensures RunLength(pre + (u + t), |pre| + |u|, NotLineBreak) == |t|
  {
    var r4 := u + t;
    LitAtPrefix(u, t, userName);
    LitAtConcat(pre, r4, 0, userName, true);
    RunLengthConcat(pre, r4, |u|, NotLineBreak);
    RunLengthConcat(u, t, 0, NotLineBreak);
    RunLengthIs(t, 0, NotLineBreak, |t|);
  }

  /**
   * The three runs in the middle of a one-on-one line: spaces, separators,
   * spaces, each stopped by what follows it.
   */
  lemma {:induction false} MiddleRuns(x: string, s1: string, sep: string, s2: string, r4: string)
    requires AllSpace(s1) && AllSpace(s2)
    requires sep != [] && forall k :: 0 <= k < |sep| ==> sep[k] in SeparatorChars
    requires r4 != [] && !IsSpace(r4[0]) && r4[0] !in SeparatorChars
    ensures var line := x + (s1 + (sep + (s2 + r4)));
            RunLength(line, |x|, Space) == |s1| &&
            RunLength(line, |x| + |s1|, OneOf(SeparatorChars)) == |sep| &&
            RunLength(line, |x| + |s1| + |sep|, Space) == |s2|
  {
    var r3 := s2 + r4;
    var r2 := sep + r3;
    var r1 := s1 + r2;
    SeparatorKind(sep[0]);
    assert r2[0] == sep[0];
    RunLengthConcat(x, r1, 0, Space);
    RunLengthAppend(s1, r2, Space);
    if s2 != [] {
      NotSeparator(s2[0]);
      assert r3[0] == s2[0];
    } else {
      assert r3[0] == r4[0];
    }
    RunLengthConcat(x, r1, |s1|, OneOf(SeparatorChars));
    RunLengthConcat(s1, r2, 0, OneOf(SeparatorChars));
    RunLengthAppend(sep, r3, OneOf(SeparatorChars));
    RunLengthConcat(x, r1, |s1| + |sep|, Space);
    RunLengthConcat(s1, r2, |sep|, Space);
    RunLengthConcat(sep, r3, 0, Space);
    RunLengthAppend(s2, r4, Space);
  }

  /** The four parts before `r4`, as one prefix. */
  lemma {:induction false} Regroup(x: string, s1: string, sep: string, s2: string, r4: string) returns (pre: string)
    ensures |pre| == |x| + |s1| + |sep| + |s2|
    ensures x + (s1 + (sep + (s2 + r4))) == pre + r4
  {
    pre := x + s1 + sep + s2;
  }

  /** The ends the engine finds for the user-first pattern on a line whose parts are given by the runs that end at them. */
  lemma {:induction false} UserFirstMatch(line: string, userName: string, p1: nat, p2: nat, p3: nat, p4: nat) returns (e: seq<nat>)
    requires p1 == |userName| && p1 <= p2 < p3 <= p4 < |line|
    requires LitAt(line, 0, userName, true) && RunLength(line, 0, Space) == 0
    requires RunLength(line, p1, Space) == p2 - p1
    requires RunLength(line, p2, OneOf(SeparatorChars)) == p3 - p2
    requires RunLength(line, p3, Space) == p4 - p3
    requires RunLength(line, p4, WordOrSpace) >= 1
    requires RunLength(line, p4 + 1, NotLineBreak) == |line| - (p4 + 1)
    ensures FirstParse(UserFirstPattern(userName), line, 0, true) == Some(e)
    ensures |e| == 10 && e[4] == p4 && e[5] == p4 + 1 && e[7] == SuffixStart(line, p4 + 1) && e[8] == |line|
  {
    TailCapture(line, p4 + 1);
    var tl := [MarkerEnd(line, p4 + 1), SuffixStart(line, p4 + 1), |line|, |line|];
    UserFirstSteps(line, userName, p1, p2, p3, p4, Tail, tl);
    e := GroupEnds(0, p1, p2, p3, p4, p4 + 1, tl);
  }

  /** The ends of six pieces followed by those of the shared tail. */
  lemma {:induction false} GroupEnds(a: nat, b: nat, c: nat, d: nat, f: nat, g: nat, tl: seq<nat>) returns (e: seq<nat>)
    requires |tl| == 4
    ensures e == [a] + ([b] + ([c] + ([d] + ([f] + ([g] + tl)))))
    ensures |e| == 10 && e[0] == a && e[1] == b && e[4] == f && e[5] == g && e[7] == tl[1] && e[8] == tl[2]
  {
    e := [a] + ([b] + ([c] + ([d] + ([f] + ([g] + tl)))));
  }

  /** When the user-first pattern matches, the title comes from its groups 2 and 4. */
  lemma {:induction false} ProcessByFirst(line: string, userName: string, e: seq<nat>)
    requires Trim(userName) != [] && FirstParse(UserFirstPattern(userName), line, 0, true) == Some(e)
    requires |e| == 10 && e[4] <= e[5] <= |line| && e[7] <= e[8] <= |line|
    ensures ProcessOneOnOneLine(line, userName) == Render(line[e[4]..e[5]], line[e[7]..e[8]])
  {
  }

  /** When only the user-second pattern matches, the title comes from its groups 1 and 4. */
  lemma {:induction false} ProcessBySecond(line: string, userName: string, e: seq<nat>)
    requires Trim(userName) != [] && FirstParse(UserFirstPattern(userName), line, 0, true).None?
    requires FirstParse(UserSecondPattern(userName), line, 0, true) == Some(e)
    requires |e| == 10 && e[0] <= e[1] <= |line| && e[7] <= e[8] <= |line|
    ensures ProcessOneOnOneLine(line, userName) == Render(line[e[0]..e[1]], line[e[7]..e[8]])
  {
  }

  /** The engine's steps through the six pieces before the shared tail of the user-first pattern. */
  lemma {:induction false} UserFirstSteps(line: string, userName: string, p1: nat, p2: nat, p3: nat, p4: nat, rest: seq<Piece>, tl: seq<nat>)
    requires p1 == |userName| && p1 <= p2 < p3 <= p4 < |line|
    requires LitAt(line, 0, userName, true) && RunLength(line, 0, Space) == 0
    requires RunLength(line, p1, Space) == p2 - p1
    requires RunLength(line, p2, OneOf(SeparatorChars)) == p3 - p2
    requires RunLength(line, p3, Space) == p4 - p3
    requires RunLength(line, p4, WordOrSpace) >= 1
    requires FirstParse(rest, line, p4 + 1, true) == Some(tl)
    ensures FirstParse(UserFirstWith(userName, rest), line, 0, true) == Some([0] + ([p1] + ([p2] + ([p3] + ([p4] + ([p4 + 1] + tl))))))
  {
    var t5 := [Chars(WordOrSpace, 1, Unbounded, true)] + rest;
    StepLazy(t5[0], rest, line, p4, p4 + 1, true, tl);
    var r5 := [p4 + 1] + tl;
    var t4 := [Spaces] + t5;
    StepGreedy(Spaces, t5, line, p3, p4, true, r5);
    var r4 := [p4] + r5;
    var t3 := [Separator] + t4;
    StepGreedy(Separator, t4, line, p2, p3, true, r4);
    var r3 := [p3] + r4;
    var t2 := [Spaces] + t3;
    StepGreedy(Spaces, t3, line, p1, p2, true, r3);
    var r2 := [p2] + r3;
    var t1 := [Lit(userName)] + t2;
    StepLit(Lit(userName), t2, line, 0, p1, true, r2);
    var r1 := [p1] + r2;
    StepGreedy(Spaces, t1, line, 0, 0, true, r1);
  }

  /** The ends the engine finds for the user-second pattern on such a line. */
  lemma {:induction false} UserSecondMatch(line: string, userName: string, p1: nat, p2: nat, p3: nat, p4: nat, p5: nat) returns (e: seq<nat>)
    requires 0 < p1 <= p2 < p3 <= p4 && p5 == p4 + |userName| <= |line|
    requires !IsSpace(line[0])
    requires RunLength(line, 0, WordOrSpace) == p2 && IsWordChar(line[p1 - 1])
    requires RunLength(line, p1, Space) == p2 - p1
    requires RunLength(line, p2, OneOf(SeparatorChars)) == p3 - p2
    requires RunLength(line, p3, Space) == p4 - p3
    requires LitAt(line, p4, userName, true)
    requires RunLength(line, p5, NotLineBreak) == |line| - p5
    ensures FirstParse(UserSecondPattern(userName), line, 0, true) == Some(e)
    ensures |e| == 10 && e[0] == 0 && e[1] == p1 && e[7] == SuffixStart(line, p5) && e[8] == |line|
  {
    TailCapture(line, p5);
    var tl := [MarkerEnd(line, p5), SuffixStart(line, p5), |line|, |line|];
    UserSecondSteps(line, userName, p1, p2, p3, p4, p5, Tail, tl);
    e := GroupEnds(0, p1, p2, p3, p4, p5, tl);
  }

  /** The engine's steps through the six pieces before the shared tail of the user-second pattern. */
  lemma {:induction false} UserSecondSteps(line: string, userName: string, p1: nat, p2: nat, p3: nat, p4: nat, p5: nat, rest: seq<Piece>, tl: seq<nat>)
    requires 0 < p1 <= p2 < p3 <= p4 && p5 == p4 + |userName| <= |line|
    requires !IsSpace(line[0])
    requires RunLength(line, 0, WordOrSpace) == p2 && IsWordChar(line[p1 - 1])
    requires RunLength(line, p1, Space) == p2 - p1
    requires RunLength(line, p2, OneOf(SeparatorChars)) == p3 - p2
    requires RunLength(line, p3, Space) == p4 - p3
    requires LitAt(line, p4, userName, true)
    requires FirstParse(rest, line, p5, true) == Some(tl)
    ensures FirstParse(UserSecondWith(userName, rest), line, 0, true) == Some([0] + ([p1] + ([p2] + ([p3] + ([p4] + ([p5] + tl))))))
  {
    var t5 := [Lit(userName)] + rest;
    StepLit(Lit(userName), rest, line, p4, p5, true, tl);
    var r5 := [p5] + tl;
    var t4 := [Spaces] + t5;
    StepGreedy(Spaces, t5, line, p3, p4, true, r5);
    var r4 := [p4] + r5;
    var t3 := [Separator] + t4;
    StepGreedy(Separator, t4, line, p2, p3, true, r4);
    var r3 := [p3] + r4;
    var t2 := [Spaces] + t3;
    StepGreedy(Spaces, t3, line, p1, p2, true, r3);
    var r2 := [p2] + r3;
    var t1 := [Chars(WordOrSpace, 1, Unbounded, true)] + t2;
    OtherStopsEarly(line, t4, p1, p2);
    StepLazy(t1[0], t2, line, 0, p1, true, r2);
    var r1 := [p1] + r2;
    StepGreedy(Spaces, t1, line, 0, 0, true, r1);
  }

  /**
   * The lazy other-person group cannot stop before the end of the other
   * person's name: from there the separator run finds no separator.
   */
  lemma {:induction false} OtherStopsEarly(line: string, tail: seq<Piece>, p1: nat, p2: nat)
    requires 0 < p1 <= p2 == RunLength(line, 0, WordOrSpace) && IsWordChar(line[p1 - 1])
    ensures forall j: nat {:trigger FirstParse([Spaces] + ([Separator] + tail), line, j, true)} ::
              1 <= j < p1 ==> FirstParse([Spaces] + ([Separator] + tail), line, j, true).None?
  {
    RunLengthSpec(line, 0, WordOrSpace);
    forall j: nat | 1 <= j < p1 ensures FirstParse([Spaces] + ([Separator] + tail), line, j, true).None? {
      InsideOtherFails(line, tail, p1, j);
    }
  }

  /**
   * In the user-second pattern, stopping the other-person group inside
   * `line[..n]` (all word characters and spaces, ending in a word character)
   * leaves no separator to match.
   */
  lemma {:induction false} InsideOtherFails(line: string, tail: seq<Piece>, n: nat, c: nat)
    requires 0 < c < n <= |line| && IsWordChar(line[n - 1])
    requires forall k :: 0 <= k < n ==> InClass(line[k], WordOrSpace)
    ensures FirstParse([Spaces] + ([Separator] + tail), line, c, true).None?
  {
    var ps := [Spaces] + ([Separator] + tail);
    var r := RunLength(line, c, Space);
    RunLengthSpec(line, c, Space);
    GreedyFirst(Space, 0, line, c, r, true);
    assert ps[0] == Spaces && ps[1..] == [Separator] + tail;
    forall m | 0 <= m < |Candidates(Spaces, line, c, true)|
      ensures FirstParse([Separator] + tail, line, Candidates(Spaces, line, c, true)[m], true).None?
    {
      var d := Candidates(Spaces, line, c, true)[m];
      assert d < n;
      NotSeparator(line[d]);
      SeparatorRun(line, d, 0);
      var q := [Separator] + tail;
      assert q[0] == Separator;
      assert Candidates(Separator, line, d, true) == [];
      NoPick(q, line, d, true);
    }
    NoPick(ps, line, c, true);
  }

  /** When the line does not begin with the user's name, the user-first pattern fails. */
  lemma {:induction false} UserFirstFailsOnOther(line: string, userName: string)
    requires line != [] && !IsSpace(line[0]) && !StartsWithFolded(line, userName)
    ensures FirstParse(UserFirstPattern(userName), line, 0, true).None?
  {
    var ps := UserFirstPattern(userName);
    var t1 := [Lit(userName)] + ([Spaces] + ([Separator] + ([Spaces] + ([Chars(WordOrSpace, 1, Unbounded, true)] + Tail))));
    assert ps == [Spaces] + t1;
    assert ps[0] == Spaces && ps[1..] == t1;
    GreedyFirst(Space, 0, line, 0, 0, true);
    LitAtMeaning(line, 0, userName, true);
    assert t1[0] == Lit(userName);
    assert Candidates(t1[0], line, 0, true) == [];
    NoPick(t1, line, 0, true);
    NoPick(ps, line, 0, true);
  }

  // ---------------------------------------------------------------------
  // The shared tail

  /** The tail's pieces after the optional marker: spaces, then the rest of the line, then the end. */
  lemma {:induction false} RestOfTail(s: string, q: nat)
    requires q <= |s| && RunLength(s, q, NotLineBreak) == |s| - q
    ensures FirstParse(Tail[1..], s, q, true) == Some([q + RunLength(s, q, Space), |s|, |s|])
  {
    var n: nat := |s|;
    var r: nat := q + RunLength(s, q, Space);
    var t1: seq<Piece>, t2: seq<Piece>, t3: seq<Piece> := [Spaces, AnyChars, End], [AnyChars, End], [End];
    assert Tail[1..] == t1;
    assert t1[1..] == t2 && t2[1..] == t3 && t3[1..] == [];
    assert Candidates(t3[0], s, n, true) == [n];
    Pick(t3, s, n, 0, true);
    var f3 := FirstParse(t3, s, n, true);
    assert f3.value == [n] + [];
    assert f3.value == [n];
    RunLengthToEnd(s, q, r, NotLineBreak);
    GreedyFirst(NotLineBreak, 0, s, r, n - r, true);
    assert Candidates(t2[0], s, r, true)[0] == n;
    Pick(t2, s, r, 0, true);
    assert FirstParse(t2, s, r, true).value == [n] + f3.value == [n, n];
    GreedyFirst(Space, 0, s, q, r - q, true);
    assert Candidates(t1[0], s, q, true)[0] == r;
    Pick(t1, s, q, 0, true);
    assert FirstParse(t1, s, q, true).value == [r] + [n, n] == [r, n, n];
  }

  /** The ends the engine finds for the shared tail from `p`, when no line break follows. */
  lemma {:induction false} TailCapture(s: string, p: nat)
    requires p <= |s| && RunLength(s, p, NotLineBreak) == |s| - p
    ensures FirstParse(Tail, s, p, true) == Some([MarkerEnd(s, p), SuffixStart(s, p), |s|, |s|])
  {
    assert Tail[0] == Opt(MarkerBody);
    MarkerChoice(s, p);
    var m := MarkerEnd(s, p);
    RunLengthToEnd(s, p, m, NotLineBreak);
    RestOfTail(s, m);
    Pick(Tail, s, p, 0, true);
    assert FirstParse(Tail, s, p, true).value == [m] + [SuffixStart(s, p), |s|, |s|];
    assert FirstParse(Tail, s, p, true).value == [m, SuffixStart(s, p), |s|, |s|];
  }

  /** The optional marker is taken exactly when spaces and "1:1" follow. */
  lemma {:induction false} MarkerChoice(s: string, p: nat)
    requires p <= |s|
    ensures Candidates(Opt(MarkerBody), s, p, true) != []
    ensures Candidates(Opt(MarkerBody), s, p, true)[0] == MarkerEnd(s, p)
  {
    var k := RunLength(s, p, Space);
    var ends := Ends(MarkerBody, s, p, true);
    assert Candidates(Opt(MarkerBody), s, p, true) == ends + [p];
    if k >= 1 && LitAt(s, p + k, "1:1", true) {
      MarkerEndsFound(s, p);
    } else {
      MarkerEndsNone(s, p);
    }
  }

  /** With spaces and "1:1" ahead, the marker body's first end is just past them. */
  lemma {:induction false} MarkerEndsFound(s: string, p: nat)
    requires p <= |s|
    requires RunLength(s, p, Space) >= 1 && LitAt(s, p + RunLength(s, p, Space), "1:1", true)
    ensures var ends := Ends(MarkerBody, s, p, true);
            ends != [] && ends[0] == p + RunLength(s, p, Space) + 3
  {
    var k := RunLength(s, p, Space);
    var ends := Ends(MarkerBody, s, p, true);
    MarkerBodyFound(s, p, k);
    EndsExact(MarkerBody, s, p, p + k + 3, true);
    EndsExact(MarkerBody, s, p, ends[0], true);
    MarkerBodyOnly(s, p, ends[0]);
  }

  /** Without spaces and "1:1" ahead, the marker body has no end. */
  lemma {:induction false} MarkerEndsNone(s: string, p: nat)
    requires p <= |s|
    requires !(RunLength(s, p, Space) >= 1 && LitAt(s, p + RunLength(s, p, Space), "1:1", true))
    ensures Ends(MarkerBody, s, p, true) == []
  {
    var ends := Ends(MarkerBody, s, p, true);
    if ends != [] {
      EndsExact(MarkerBody, s, p, ends[0], true);
      MarkerBodyOnly(s, p, ends[0]);
    }
  }

  lemma {:induction false} MarkerBodyMatches(s: string, p: nat, j: nat)
    requires p <= |s|
    ensures var k := RunLength(s, p, Space);
            SeqMatches(MarkerBody, s, p, j, true) <==> (k >= 1 && LitAt(s, p + k, "1:1", true) && j == p + k + 3)
  {
    if SeqMatches(MarkerBody, s, p, j, true) {
      MarkerBodyOnly(s, p, j);
    }
    var k := RunLength(s, p, Space);
    if k >= 1 && LitAt(s, p + k, "1:1", true) && j == p + k + 3 {
      MarkerBodyFound(s, p, k);
    }
  }

  lemma {:induction false} MarkerBodyOnly(s: string, p: nat, j: nat)
    requires p <= |s| && SeqMatches(MarkerBody, s, p, j, true)
    ensures var k := RunLength(s, p, Space);
            k >= 1 && LitAt(s, p + k, "1:1", true) && j == p + k + 3
  {
    var head := Chars(Space, 1, Unbounded, false);
    var rest: seq<Piece> := [Lit("1:1")];
    assert MarkerBody[0] == head && MarkerBody[1..] == rest;
    SeqMatchesSplit(MarkerBody, s, p, j, true);
    var mid: nat :| p <= mid <= j && PieceMatches(head, s, p, mid, true) && SeqMatches(rest, s, mid, j, true);
    OneOneOnly(s, mid, j);
    RunLengthIs(s, p, Space, mid - p);
  }

  /** Where the literal "1:1" matches, and where it ends. */
  lemma {:induction false} OneOneOnly(s: string, mid: nat, j: nat)
    requires mid <= |s| && SeqMatches([Lit("1:1")], s, mid, j, true)
    ensures LitAt(s, mid, "1:1", true) && j == mid + 3 && s[mid] == '1'
  {
    var rest: seq<Piece> := [Lit("1:1")];
    SeqMatchesSplit(rest, s, mid, j, true);
    assert rest[1..] == [];
    var x: nat :| mid <= x <= j && PieceMatches(Lit("1:1"), s, mid, x, true) && SeqMatches([], s, x, j, true);
    assert CharMatches(s[mid + 0], "1:1"[0], true);
    LitAtMeaning(s, mid, "1:1", true);
  }

  lemma {:induction false} MarkerBodyFound(s: string, p: nat, k: nat)
    requires p <= |s| && k == RunLength(s, p, Space)
    requires k >= 1 && LitAt(s, p + k, "1:1", true)
    ensures SeqMatches(MarkerBody, s, p, p + k + 3, true)
  {
    var j := p + k + 3;
    RunLengthSpec(s, p, Space);
    LitAtMeaning(s, p + k, "1:1", true);
    var head := Chars(Space, 1, Unbounded, false);
    var rest: seq<Piece> := [Lit("1:1")];
    assert MarkerBody[0] == head && MarkerBody[1..] == rest;
    assert PieceMatches(head, s, p, p + k, true);
    assert PieceMatches(Lit("1:1"), s, p + k, j, true);
    assert rest[1..] == [];
    assert SeqMatches(rest[1..], s, j, j, true);
    assert PieceMatches(rest[0], s, p + k, j, true) && SeqMatches(rest[1..], s, j, j, true);
    assert SeqMatches(rest, s, p + k, j, true);
    assert PieceMatches(MarkerBody[0], s, p, p + k, true) && SeqMatches(MarkerBody[1..], s, p + k, j, true);
  }

  /** The suffix group, trimmed, is the marker-free rest of the line, trimmed. */
  lemma {:induction false} SuffixTrim(s: string, p: nat)
    requires p <= |s|
    ensures Trim(s[SuffixStart(s, p)..]) == Trim(MarkerRest(s[p..]))
  {
    MarkerRestAt(s, p);
    var m := MarkerEnd(s, p);
    RunLengthSpec(s, m, Space);
    TrimAfterSpaces(s, m, SuffixStart(s, p));
  }

  /** `MarkerRest` of a suffix of the line is the suffix after the marker. */
  lemma {:induction false} MarkerRestAt(s: string, p: nat)
    requires p <= |s|
    ensures MarkerRest(s[p..]) == s[MarkerEnd(s, p)..]
  {
    var t := s[p..];
    RunLengthShift(s, p, 0, Space);
    var k := RunLength(s, p, Space);
    LitAtShift(s, p, k, "1:1", true);
    if k >= 1 && LitAt(s, p + k, "1:1", true) {
      LitAtMeaning(s, p + k, "1:1", true);
      assert t[k + 3..] == s[p + k + 3..];
    }
  }

  // ---------------------------------------------------------------------
  // Helpers

  lemma {:induction false} NameNotBlank(u: string, userName: string)
    requires u != [] && !IsSpace(u[0]) && StartsWithFolded(u, userName) && |u| == |userName|
    ensures Trim(userName) != []
  {
    assert SameFolded(u[0], userName[0]);
    assert !IsSpace(userName[0]);
    TrimEndSpec(userName);
  }

  /** A line that starts with `u` holds the user's name at index 0. */
  lemma {:induction false} LitAtPrefix(u: string, r: string, userName: string)
    requires StartsWithFolded(u, userName) && |u| == |userName|
    ensures LitAt(u + r, 0, userName, true)
  {
    LitAtMeaning(u + r, 0, userName, true);
    forall m | 0 <= m < |userName| ensures CharMatches((u + r)[0 + m], userName[m], true) {
      assert (u + r)[m] == u[m];
    }
  }

  /** The run of `cls` from `p`, where the line continues with `x` (all `cls`) and then `y`. */
  lemma {:induction false} RunAt(line: string, p: nat, x: string, y: string, cls: CharClass)
    requires p <= |line| && line[p..] == x + y
    requires forall k :: 0 <= k < |x| ==> InClass(x[k], cls)
    requires y == [] || !InClass(y[0], cls)
    ensures RunLength(line, p, cls) == |x|
  {
    RunLengthShift(line, p, 0, cls);
    RunLengthAppend(x, y, cls);
  }

  /** The line from `p + |x|` on, where it continues from `p` with `x` and then `y`. */
  lemma {:induction false} DropTwice(line: string, r: string, p: nat, x: string, y: string)
    requires p <= |line| && line[p..] == r && r == x + y
    ensures line[p + |x|..] == y
  {
    assert line[p..][|x|..] == y;
  }

  lemma {:induction false} SeparatorRun(s: string, i: nat, n: nat)
    requires i + n <= |s| && forall k :: i <= k < i + n ==> InClass(s[k], OneOf(SeparatorChars))
    requires i + n == |s| || s[i + n] !in SeparatorChars
    ensures RunLength(s, i, OneOf(SeparatorChars)) == n
  {
    RunLengthIs(s, i, OneOf(SeparatorChars), n);
  }

  /** The other person and the spaces after it form one run of word characters and spaces. */
  lemma {:induction false} OtherRun(o: string, s1: string, r2: string)
    requires forall k :: 0 <= k < |o| ==> IsWordChar(o[k]) || IsSpace(o[k])
    requires AllSpace(s1) && r2 != [] && r2[0] in SeparatorChars
    ensures RunLength(o + (s1 + r2), 0, WordOrSpace) == |o| + |s1|
  {
    RunLengthAppend(o, s1 + r2, WordOrSpace);
    RunLengthAppend(s1, r2, WordOrSpace);
    SeparatorKind(r2[0]);
  }

  lemma {:induction false} TrimStartSkipsSpaces(a: string, b: string)
    requires AllSpace(a)
    ensures TrimStart(a + b) == TrimStart(b)
    decreases |a|
  {
    if a != [] {
      var ab := a + b;
      assert ab[0] == a[0];
      assert ab[1..] == a[1..] + b;
      assert AllSpace(a[1..]);
      TrimStartSkipsSpaces(a[1..], b);
      assert TrimStart(ab) == TrimStart(ab[1..]);
    } else {
      assert a + b == b;
    }
  }

  lemma {:induction false} TrimAfterSpaces(s: string, c: nat, r: nat)
    requires c <= r <= |s| && forall k :: c <= k < r ==> IsSpace(s[k])
    ensures Trim(s[c..]) == Trim(s[r..])
  {
    var sp := s[c..r];
    assert AllSpace(sp) by {
      forall k | 0 <= k < |sp| ensures IsSpace(sp[k]) {
        assert sp[k] == s[c + k];
      }
    }
    assert s[c..] == sp + s[r..];
    TrimSkipsSpaces(sp, s[r..]);
  }

  lemma {:induction false} TrimSkipsSpaces(a: string, b: string)
    requires AllSpace(a)
    ensures Trim(a + b) == Trim(b)
  {
    TrimStartSkipsSpaces(a, b);
  }
  // ---------------------------------------------------------------------
  // Examples

  /** "Jacob / Shawn", for the user Shawn, is Jacob's one-on-one. */
  lemma {:induction false} SecondPlainExample(line: string)
    requires line == "Jacob / Shawn"
    ensures ProcessOneOnOneLine(line, "Shawn") == "Jacob one-on-one"
  {
    assert line == "Jacob" + (" " + ("/" + (" " + ("Shawn" + ""))));
    SecondPlainParts(line, "Jacob", " ", "/", " ", "Shawn", "", "Shawn");
  }

  lemma {:induction false} SecondPlainParts(line: string, o: string, s1: string, sep: string, s2: string, u: string, t: string, userName: string)
    requires o == "Jacob" && s1 == " " && sep == "/" && s2 == " " && u == "Shawn" && t == "" && userName == "Shawn"
    requires line == o + (s1 + (sep + (s2 + (u + t))))
    ensures ProcessOneOnOneLine(line, userName) == "Jacob one-on-one"
  {
    ExampleSides(o, sep, u, userName);
    assert line[0] == 'J';
    UserSecondForm(userName, o, s1, sep, s2, u, t);
    assert MarkerRest(t) == t;
    TrimOfTrimmed(o);
  }

  /** "Jacob <> Shawn Intro", for the user Shawn, keeps the suffix: "Jacob Intro". */
  lemma {:induction false} SecondSuffixExample(line: string)
    requires line == "Jacob <> Shawn Intro"
    ensures ProcessOneOnOneLine(line, "Shawn") == "Jacob Intro"
  {
    assert line == "Jacob" + (" " + ("<>" + (" " + ("Shawn" + " Intro"))));
    SecondSuffixParts(line, "Jacob", " ", "<>", " ", "Shawn", " Intro", "Shawn");
  }

  lemma {:induction false} SecondSuffixParts(line: string, o: string, s1: string, sep: string, s2: string, u: string, t: string, userName: string)
    requires o == "Jacob" && s1 == " " && sep == "<>" && s2 == " " && u == "Shawn" && t == " Intro" && userName == "Shawn"
    requires line == o + (s1 + (sep + (s2 + (u + t))))
    ensures ProcessOneOnOneLine(line, userName) == "Jacob Intro"
  {
    ExampleSides(o, sep, u, userName);
    assert line[0] == 'J';
    assert NoLineBreak(t);
    UserSecondForm(userName, o, s1, sep, s2, u, t);
    IntroRest(t);
    TrimOfTrimmed(o);
  }

  /** The quirk on "Shawn / Jacob": the other person is "J" and the suffix "acob". */
  lemma {:induction false} FirstQuirkExample(line: string)
    requires line == "Shawn / Jacob"
    ensures ProcessOneOnOneLine(line, "Shawn") == "J acob"
  {
    assert line == "Shawn" + (" " + ("/" + (" " + (['J'] + "acob"))));
    FirstQuirkParts(line, "Shawn", " ", "/", " ", 'J', "acob", "Shawn");
  }

  lemma {:induction false} FirstQuirkParts(line: string, u: string, s1: string, sep: string, s2: string, c: char, t: string, userName: string)
    requires u == "Shawn" && s1 == " " && sep == "/" && s2 == " " && c == 'J' && t == "acob" && userName == "Shawn"
    requires line == u + (s1 + (sep + (s2 + ([c] + t))))
    ensures ProcessOneOnOneLine(line, userName) == "J acob"
  {
    ExampleSides("Jacob", sep, u, userName);
    assert NoLineBreak(t);
    UserFirstForm(userName, u, s1, sep, s2, c, t);
    assert RunLength(t, 0, Space) == 0;
    assert MarkerRest(t) == t;
    TrimOfTrimmed([c]);
    TrimOfTrimmed(t);
  }

  lemma {:induction false} ExampleSides(o: string, sep: string, u: string, userName: string)
    requires o == "Jacob" && u == "Shawn" && userName == "Shawn" && (sep == "/" || sep == "<>")
    ensures o != [] && IsWordChar(o[0]) && IsWordChar(o[|o| - 1])
    ensures forall k :: 0 <= k < |o| ==> IsWordChar(o[k]) || IsSpace(o[k])
    ensures sep != [] && forall k :: 0 <= k < |sep| ==> sep[k] in SeparatorChars
    ensures u != [] && !IsSpace(u[0]) && u[0] !in SeparatorChars
    ensures StartsWithFolded(u, userName) && |u| == |userName|
  {
    assert SeparatorChars == ['/', '<', '>'];
  }

  lemma {:induction false} IntroRest(t: string)
    requires t == " Intro"
    ensures MarkerRest(t) == t && Trim(t) == "Intro"
  {
    assert RunLength(t, 1, Space) == 0;
    assert RunLength(t, 0, Space) == 1;
    assert !LitAt(t, 1, "1:1", true) by {
      LitAtMeaning(t, 1, "1:1", true);
      assert !SameFolded(t[1], '1');
    }
    assert t == " " + "Intro";
    TrimSkipsSpaces(" ", "Intro");
    TrimOfTrimmed("Intro");
  }
}
