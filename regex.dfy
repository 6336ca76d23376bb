/**
 * A small backtracking matcher for the regular expressions the plug-in uses
 * where the engine's choices matter (greedy and lazy runs, optional groups,
 * alternation, the end anchor).
 *
 * A pattern is a sequence of pieces. A match assigns to each top-level piece
 * the index where it stops, so a capture group that is a top-level piece,
 * or a range of them, is a substring between two of those ends.
 *
 * `FirstParse` follows the ECMAScript backtracking order: each piece offers
 * its possible ends in priority order (a greedy run longest first, a lazy run
 * shortest first, an optional group its body before skipping it, an
 * alternation its left branch first), and the first combination with which
 * the whole rest of the pattern succeeds is the match. `PieceMatches` and
 * `SeqMatches` say declaratively which substrings a pattern can match;
 * the lemmas below show `FirstParse` returns one such parse and finds one
 * whenever one exists.
 */
module Regex {
  import opened Strings

  datatype CharClass =
    | Digit                    // \d
    | Space                    // \s
    | WordOrSpace              // [\w\s]
    | UpperLetter              // [A-Z]
    | LowerLetter              // [a-z]
    | NotLineBreak             // .
    | OneOf(chars: seq<char>)  // a bracket class of literal characters

  predicate InClass(c: char, cls: CharClass)
  {
    match cls
    case Digit => IsDigit(c)
    case Space => IsSpace(c)
    case WordOrSpace => IsWordChar(c) || IsSpace(c)
    case UpperLetter => IsUpper(c)
    case LowerLetter => IsLower(c)
    case NotLineBreak => !IsLineTerminator(c)
    case OneOf(cs) => c in cs
  }

  datatype Bound = Unbounded | AtMost(n: nat)

  datatype Piece =
    | Chars(cls: CharClass, min: nat, max: Bound, lazy: bool)  // cls{min,max} or cls{min,max}?
    | Lit(text: string)                                          // a literal, folded under the i flag
    | Opt(body: seq<Piece>)                                      // (body)?
    | Alt(left: seq<Piece>, right: seq<Piece>)                   // (left|right)
    | End                                                        // $

  function PieceSize(p: Piece): nat
  {
    match p
    case Opt(b) => 1 + PatternSize(b)
    case Alt(l, r) => 1 + PatternSize(l) + PatternSize(r)
    case _ => 1
  }

  function PatternSize(ps: seq<Piece>): nat
  {
    if ps == [] then 0 else PieceSize(ps[0]) + PatternSize(ps[1..])
  }

  lemma {:induction false} HeadSmaller(ps: seq<Piece>)
    requires ps != []
    ensures PieceSize(ps[0]) <= PatternSize(ps) && PatternSize(ps[1..]) < PatternSize(ps)
  {
  }

  predicate CharMatches(c: char, d: char, ci: bool)
  {
    if ci then SameFolded(c, d) else c == d
  }

  /** The literal `t` occurs at index `i` of `s` (from its `k`-th character on). */
  predicate LitFrom(s: string, i: nat, t: string, k: nat)
    requires k <= |t|
    decreases |t| - k
  {
    if k == |t| then i + k <= |s| else i + k < |s| && CharMatches(s[i + k], t[k], false) && LitFrom(s, i, t, k + 1)
  }

  predicate LitFromFolded(s: string, i: nat, t: string, k: nat)
    requires k <= |t|
    decreases |t| - k
  {
    if k == |t| then i + k <= |s| else i + k < |s| && CharMatches(s[i + k], t[k], true) && LitFromFolded(s, i, t, k + 1)
  }

  predicate LitAt(s: string, i: nat, t: string, ci: bool)
  {
    if ci then LitFromFolded(s, i, t, 0) else LitFrom(s, i, t, 0)
  }

  lemma {:induction false} LitFromMeaning(s: string, i: nat, t: string, k: nat, ci: bool)
    requires k <= |t|
    ensures (if ci then LitFromFolded(s, i, t, k) else LitFrom(s, i, t, k)) <==>
            (i + |t| <= |s| && forall m :: k <= m < |t| ==> CharMatches(s[i + m], t[m], ci))
    decreases |t| - k
  {
    if k < |t| {
      LitFromMeaning(s, i, t, k + 1, ci);
    }
  }

  /** The literal `t` matches `s` at `i`, character by character. */
  lemma {:induction false} LitAtMeaning(s: string, i: nat, t: string, ci: bool)
    ensures LitAt(s, i, t, ci) <==> (i + |t| <= |s| && forall m :: 0 <= m < |t| ==> CharMatches(s[i + m], t[m], ci))
  {
    LitFromMeaning(s, i, t, 0, ci);
  }

  /** Whether a literal occurs does not depend on the characters before the start. */
  lemma {:induction false} LitAtShift(s: string, p: nat, i: nat, t: string, ci: bool)
    requires p <= |s|
    ensures LitAt(s[p..], i, t, ci) == LitAt(s, p + i, t, ci)
  {
    LitAtMeaning(s[p..], i, t, ci);
    LitAtMeaning(s, p + i, t, ci);
    if p + i + |t| <= |s| {
      forall m | 0 <= m < |t|
        ensures CharMatches(s[p..][i + m], t[m], ci) == CharMatches(s[p + i + m], t[m], ci)
      {
      }
    }
  }

  /** A literal that starts inside `y` occurs in `x + y` exactly when it occurs in `y`. */
  lemma {:induction false} LitAtConcat(x: string, y: string, i: nat, t: string, ci: bool)
    ensures LitAt(x + y, |x| + i, t, ci) == LitAt(y, i, t, ci)
  {
    LitAtMeaning(x + y, |x| + i, t, ci);
    LitAtMeaning(y, i, t, ci);
    if i + |t| <= |y| {
      forall m | 0 <= m < |t|
        ensures CharMatches((x + y)[|x| + i + m], t[m], ci) == CharMatches(y[i + m], t[m], ci)
      {
        assert (x + y)[|x| + i + m] == y[i + m];
      }
    }
  }

  /** The length of the longest run of `cls` characters starting at `i`. */
  function RunLength(s: string, i: nat, cls: CharClass): (n: nat)
    requires i <= |s|
    ensures i + n <= |s|
    decreases |s| - i
  {
    if i < |s| && InClass(s[i], cls) then 1 + RunLength(s, i + 1, cls) else 0
  }

  /** The run is made of `cls` characters and cannot be extended. */
  lemma {:induction false} RunLengthSpec(s: string, i: nat, cls: CharClass)
    requires i <= |s|
    ensures forall k :: i <= k < i + RunLength(s, i, cls) ==> InClass(s[k], cls)
    ensures i + RunLength(s, i, cls) < |s| ==> !InClass(s[i + RunLength(s, i, cls)], cls)
    decreases |s| - i
  {
    if i < |s| && InClass(s[i], cls) {
      RunLengthSpec(s, i + 1, cls);
    }
  }

  predicate WithinBound(n: nat, max: Bound)
  {
    match max
    case Unbounded => true
    case AtMost(m) => n <= m
  }

  function Cap(n: nat, max: Bound): (r: nat)
    ensures r <= n && WithinBound(r, max)
    ensures forall k: nat :: k <= n && WithinBound(k, max) ==> k <= r
  {
    match max
    case Unbounded => n
    case AtMost(m) => if n <= m then n else m
  }

  /** Every index in `cs` lies between `lo` and `hi`. */
  predicate Between(cs: seq<nat>, lo: nat, hi: nat)
  {
    forall k :: 0 <= k < |cs| ==> lo <= cs[k] <= hi
  }

  /** lo, lo + 1, ..., hi */
  function Upward(lo: nat, hi: nat): (r: seq<nat>)
    ensures |r| == if lo > hi then 0 else hi - lo + 1
    ensures forall m :: 0 <= m < |r| ==> r[m] == lo + m
    decreases hi - lo
  {
    if lo > hi then [] else [lo] + Upward(lo + 1, hi)
  }

  /** hi, hi - 1, ..., lo */
  function Downward(hi: nat, lo: nat): (r: seq<nat>)
    ensures |r| == if lo > hi then 0 else hi - lo + 1
    ensures forall m :: 0 <= m < |r| ==> r[m] == hi - m
    decreases hi
  {
    if lo > hi then [] else if hi == lo then [hi] else [hi] + Downward(hi - 1, lo)
  }

  /** The two runs list exactly the indices between their bounds. */
  lemma {:induction false} RunsHold(lo: nat, hi: nat, j: nat)
    ensures j in Upward(lo, hi) <==> lo <= j <= hi
    ensures j in Downward(hi, lo) <==> lo <= j <= hi
  {
    if lo <= j <= hi {
      assert Upward(lo, hi)[j - lo] == j;
      assert Downward(hi, lo)[hi - j] == j;
    }
  }

  /** The ends piece `p` can reach from `i`, in the order the engine tries them. */
  function Candidates(p: Piece, s: string, i: nat, ci: bool): (r: seq<nat>)
    requires i <= |s|
    ensures Between(r, i, |s|)
    decreases PieceSize(p), 0
  {
    match p
    case Chars(cls, min, max, lazy) =>
      var n := Cap(RunLength(s, i, cls), max);
      if n < min then [] else if lazy then Upward(i + min, i + n) else Downward(i + n, i + min)
    case Lit(t) => if LitAt(s, i, t, ci) then (LitAtMeaning(s, i, t, ci); [i + |t|]) else []
    case Opt(b) => Ends(b, s, i, ci) + [i]
    case Alt(l, r) => Ends(l, s, i, ci) + Ends(r, s, i, ci)
    case End => if i == |s| then [i] else []
  }

  /** Every end a whole pattern can reach from `i`, in the order the engine tries them. */
  function Ends(ps: seq<Piece>, s: string, i: nat, ci: bool): (r: seq<nat>)
    requires i <= |s|
    ensures Between(r, i, |s|)
    decreases PatternSize(ps), 1
  {
    if ps == [] then [i]
    else
      HeadSmaller(ps);
      EndsFrom(ps[1..], s, i, Candidates(ps[0], s, i, ci), ci)
  }

  function EndsFrom(ps: seq<Piece>, s: string, i: nat, cs: seq<nat>, ci: bool): (r: seq<nat>)
    requires Between(cs, i, |s|)
    ensures Between(r, i, |s|)
    decreases PatternSize(ps), 2, |cs|
  {
    if cs == [] then []
    else
      Ends(ps, s, cs[0], ci) + EndsFrom(ps, s, i, cs[1..], ci)
  }

  /** `e` is a list of ends that never go back, from `i` up to at most `n`. */
  predicate Ascending(i: nat, e: seq<nat>, n: nat)
  {
    (forall k :: 0 <= k < |e| ==> i <= e[k] <= n) &&
    (forall a, b :: 0 <= a <= b < |e| ==> e[a] <= e[b])
  }

  /**
   * The match the engine finds when it starts at `i`: the end of every
   * top-level piece, or None when no way through the pattern exists.
   */
  function FirstParse(ps: seq<Piece>, s: string, i: nat, ci: bool): (r: Option<seq<nat>>)
    requires i <= |s|
    ensures r.Some? ==> |r.value| == |ps|
    decreases PatternSize(ps), 0
  {
    if ps == [] then Some([])
    else
      HeadSmaller(ps);
      FirstOf(ps, s, i, Candidates(ps[0], s, i, ci), ci)
  }

  function FirstOf(ps: seq<Piece>, s: string, i: nat, cs: seq<nat>, ci: bool): (r: Option<seq<nat>>)
    requires ps != []
    requires Between(cs, i, |s|)
    ensures r.Some? ==> |r.value| == |ps|
    decreases PatternSize(ps[1..]), 1, |cs|
  {
    if cs == [] then None
    else
      HeadSmaller(ps);
      match FirstParse(ps[1..], s, cs[0], ci)
      case Some(e) => Some([cs[0]] + e)
      case None => FirstOf(ps, s, i, cs[1..], ci)
  }

  /** The ends the engine returns never go back and stay within the input. */
  lemma {:induction false} FirstParseAscending(ps: seq<Piece>, s: string, i: nat, ci: bool)
    requires i <= |s| && FirstParse(ps, s, i, ci).Some?
    ensures Ascending(i, FirstParse(ps, s, i, ci).value, |s|)
    decreases PatternSize(ps), 0
  {
    if ps != [] {
      HeadSmaller(ps);
      FirstOfAscending(ps, s, i, Candidates(ps[0], s, i, ci), ci);
    }
  }

  /** Two of the ends the engine returns, in order and within the input. */
  lemma {:induction false} EndsOrdered(ps: seq<Piece>, s: string, i: nat, ci: bool, a: nat, b: nat)
    requires i <= |s| && FirstParse(ps, s, i, ci).Some? && a <= b < |ps|
    ensures FirstParse(ps, s, i, ci).value[a] <= FirstParse(ps, s, i, ci).value[b] <= |s|
  {
    FirstParseAscending(ps, s, i, ci);
  }

  lemma {:induction false} FirstOfAscending(ps: seq<Piece>, s: string, i: nat, cs: seq<nat>, ci: bool)
    requires ps != [] && Between(cs, i, |s|) && FirstOf(ps, s, i, cs, ci).Some?
    ensures Ascending(i, FirstOf(ps, s, i, cs, ci).value, |s|)
    decreases PatternSize(ps[1..]), 1, |cs|
  {
    HeadSmaller(ps);
    match FirstParse(ps[1..], s, cs[0], ci)
    case Some(e) =>
      FirstParseAscending(ps[1..], s, cs[0], ci);
      var r := [cs[0]] + e;
      assert forall k :: 1 <= k < |r| ==> r[k] == e[k - 1];
    case None =>
      FirstOfAscending(ps, s, i, cs[1..], ci);
  }

  // ---------------------------------------------------------------------
  // Declarative meaning

  /** Piece `p` can match exactly `s[i..j]`. */
  ghost predicate PieceMatches(p: Piece, s: string, i: nat, j: nat, ci: bool)
    decreases PieceSize(p), 0
  {
    i <= j <= |s| &&
    match p
    case Chars(cls, min, max, _) =>
      min <= j - i && WithinBound(j - i, max) && forall k :: i <= k < j ==> InClass(s[k], cls)
    case Lit(t) => j == i + |t| && forall m :: 0 <= m < |t| ==> CharMatches(s[i + m], t[m], ci)
    case Opt(b) => j == i || SeqMatches(b, s, i, j, ci)
    case Alt(l, r) => SeqMatches(l, s, i, j, ci) || SeqMatches(r, s, i, j, ci)
    case End => i == j == |s|
  }

  /** Pattern `ps` can match exactly `s[i..j]`. */
  ghost predicate SeqMatches(ps: seq<Piece>, s: string, i: nat, j: nat, ci: bool)
    decreases PatternSize(ps), 1
  {
    i <= j <= |s| &&
    if ps == [] then i == j
    else
      exists k: nat :: i <= k <= j && PieceMatches(ps[0], s, i, k, ci) && SeqMatches(ps[1..], s, k, j, ci)
  }

  lemma {:induction false} SeqMatchesSplit(ps: seq<Piece>, s: string, i: nat, j: nat, ci: bool)
    requires ps != [] && SeqMatches(ps, s, i, j, ci)
    ensures exists k: nat :: i <= k <= j && PieceMatches(ps[0], s, i, k, ci) && SeqMatches(ps[1..], s, k, j, ci)
  {
  }

  /** `e` lists the ends of a way through `ps` from `i`, each piece matching its part. */
  ghost predicate ParseOK(ps: seq<Piece>, s: string, i: nat, e: seq<nat>, ci: bool)
  {
    |e| == |ps| &&
    (ps != [] ==> PieceMatches(ps[0], s, i, e[0], ci) && ParseOK(ps[1..], s, e[0], e[1..], ci))
  }

  function LastEnd(i: nat, e: seq<nat>): nat
  {
    if e == [] then i else e[|e| - 1]
  }

  // ---------------------------------------------------------------------
  // The engine agrees with the meaning

  lemma {:induction false} CandidatesExact(p: Piece, s: string, i: nat, j: nat, ci: bool)
    requires i <= |s|
    ensures j in Candidates(p, s, i, ci) <==> PieceMatches(p, s, i, j, ci)
    decreases PieceSize(p), 0
  {
    match p
    case Chars(cls, min, max, lazy) =>
      RunLengthSpec(s, i, cls);
      RunsHold(i + min, i + Cap(RunLength(s, i, cls), max), j);
    case Lit(t) =>
      LitAtMeaning(s, i, t, ci);
    case Opt(b) =>
      EndsExact(b, s, i, j, ci);
    case Alt(l, r) =>
      EndsExact(l, s, i, j, ci);
      EndsExact(r, s, i, j, ci);
    case End =>
  }

  lemma {:induction false} EndsExact(ps: seq<Piece>, s: string, i: nat, j: nat, ci: bool)
    requires i <= |s|
    ensures j in Ends(ps, s, i, ci) <==> SeqMatches(ps, s, i, j, ci)
    decreases PatternSize(ps), 1
  {
    if ps != [] {
      HeadSmaller(ps);
      var cs := Candidates(ps[0], s, i, ci);
      EndsFromExact(ps[1..], s, i, cs, j, ci);
      if j in Ends(ps, s, i, ci) {
        var k :| k in cs && j in Ends(ps[1..], s, k, ci);
        CandidatesExact(ps[0], s, i, k, ci);
        EndsExact(ps[1..], s, k, j, ci);
      }
      if SeqMatches(ps, s, i, j, ci) {
        SeqMatchesSplit(ps, s, i, j, ci);
        var k: nat :| i <= k <= j && PieceMatches(ps[0], s, i, k, ci) && SeqMatches(ps[1..], s, k, j, ci);
        CandidatesExact(ps[0], s, i, k, ci);
        EndsExact(ps[1..], s, k, j, ci);
      }
    }
  }

  lemma {:induction false} EndsFromExact(ps: seq<Piece>, s: string, i: nat, cs: seq<nat>, j: nat, ci: bool)
    requires Between(cs, i, |s|)
    ensures j in EndsFrom(ps, s, i, cs, ci) <==> exists k :: k in cs && j in Ends(ps, s, k, ci)
    decreases |cs|
  {
    if cs != [] {
      EndsFromExact(ps, s, i, cs[1..], j, ci);
      if j in EndsFrom(ps, s, i, cs[1..], ci) {
        var k :| k in cs[1..] && j in Ends(ps, s, k, ci);
        assert k in cs;
      }
      if exists k :: k in cs && j in Ends(ps, s, k, ci) {
        var k :| k in cs && j in Ends(ps, s, k, ci);
        if k != cs[0] {
          assert k in cs[1..];
        }
      }
    }
  }

  /** What the engine returns is a way through the pattern. */
  lemma {:induction false} FirstParseSound(ps: seq<Piece>, s: string, i: nat, ci: bool)
    requires i <= |s|
    requires FirstParse(ps, s, i, ci).Some?
    ensures ParseOK(ps, s, i, FirstParse(ps, s, i, ci).value, ci)
    decreases PatternSize(ps), 0
  {
    if ps != [] {
      HeadSmaller(ps);
      FirstOfSound(ps, s, i, Candidates(ps[0], s, i, ci), ci);
    }
  }

  lemma {:induction false} FirstOfSound(ps: seq<Piece>, s: string, i: nat, cs: seq<nat>, ci: bool)
    requires ps != []
    requires i <= |s|
    requires forall c :: c in cs ==> c in Candidates(ps[0], s, i, ci)
    requires Between(cs, i, |s|)
    requires FirstOf(ps, s, i, cs, ci).Some?
    ensures ParseOK(ps, s, i, FirstOf(ps, s, i, cs, ci).value, ci)
    decreases PatternSize(ps[1..]), 1, |cs|
  {
    HeadSmaller(ps);
    match FirstParse(ps[1..], s, cs[0], ci)
    case Some(e) =>
      CandidatesExact(ps[0], s, i, cs[0], ci);
      FirstParseSound(ps[1..], s, cs[0], ci);
      var r := [cs[0]] + e;
      assert r[1..] == e;
    case None =>
      FirstOfSound(ps, s, i, cs[1..], ci);
  }

  /** The engine finds a match whenever the pattern can match from `i` at all. */
  lemma {:induction false} FirstParseComplete(ps: seq<Piece>, s: string, i: nat, j: nat, ci: bool)
    requires i <= |s|
    requires SeqMatches(ps, s, i, j, ci)
    ensures FirstParse(ps, s, i, ci).Some?
    decreases PatternSize(ps), 0
  {
    if ps != [] {
      HeadSmaller(ps);
      var k: nat :| i <= k <= j && PieceMatches(ps[0], s, i, k, ci) && SeqMatches(ps[1..], s, k, j, ci);
      CandidatesExact(ps[0], s, i, k, ci);
      FirstParseComplete(ps[1..], s, k, j, ci);
      FirstOfFinds(ps, s, i, Candidates(ps[0], s, i, ci), k, ci);
    }
  }

  lemma {:induction false} FirstOfFinds(ps: seq<Piece>, s: string, i: nat, cs: seq<nat>, k: nat, ci: bool)
    requires ps != []
    requires Between(cs, i, |s|)
    requires k in cs && FirstParse(ps[1..], s, k, ci).Some?
    ensures FirstOf(ps, s, i, cs, ci).Some?
    decreases |cs|
  {
    if cs[0] != k && FirstParse(ps[1..], s, cs[0], ci).None? {
      FirstOfFinds(ps, s, i, cs[1..], k, ci);
    }
  }

  /** A way through the pattern is a match of the substring up to its last end. */
  lemma {:induction false} ParseOKMatches(ps: seq<Piece>, s: string, i: nat, e: seq<nat>, ci: bool)
    requires i <= |s|
    requires ParseOK(ps, s, i, e, ci)
    ensures SeqMatches(ps, s, i, LastEnd(i, e), ci)
    decreases |ps|
  {
    if ps != [] {
      HeadSmaller(ps);
      ParseOKMatches(ps[1..], s, e[0], e[1..], ci);
      assert LastEnd(e[0], e[1..]) == LastEnd(i, e);
      assert PieceMatches(ps[0], s, i, e[0], ci);
    }
  }

  /**
   * The engine's result restricted to the pieces after the `k`-th is what the
   * engine returns for those pieces started at the `k`-th piece's end.
   */
  lemma {:induction false} FirstParseSuffix(ps: seq<Piece>, s: string, i: nat, k: nat, ci: bool)
    requires i <= |s|
    requires FirstParse(ps, s, i, ci).Some?
    requires k < |ps|
    ensures FirstParse(ps, s, i, ci).value[k] <= |s|
    ensures FirstParse(ps[k + 1..], s, FirstParse(ps, s, i, ci).value[k], ci) ==
            Some(FirstParse(ps, s, i, ci).value[k + 1..])
    decreases k
  {
    var e := FirstParse(ps, s, i, ci).value;
    HeadSmaller(ps);
    var c := FirstOfHead(ps, s, i, Candidates(ps[0], s, i, ci), ci);
    if k > 0 {
      FirstParseSuffix(ps[1..], s, e[0], k - 1, ci);
      assert ps[1..][k..] == ps[k + 1..];
      assert e[1..][k - 1] == e[k];
      assert e[1..][k..] == e[k + 1..];
    }
  }

  /** The first end the engine keeps for the head piece, and how it continues. */
  lemma {:induction false} FirstOfHead(ps: seq<Piece>, s: string, i: nat, cs: seq<nat>, ci: bool) returns (c: nat)
    requires ps != []
    requires Between(cs, i, |s|)
    requires FirstOf(ps, s, i, cs, ci).Some?
    ensures c in cs && c <= |s|
    ensures FirstOf(ps, s, i, cs, ci).value[0] == c
    ensures FirstParse(ps[1..], s, c, ci) == Some(FirstOf(ps, s, i, cs, ci).value[1..])
    decreases |cs|
  {
    match FirstParse(ps[1..], s, cs[0], ci)
    case Some(e) =>
      c := cs[0];
      assert ([cs[0]] + e)[1..] == e;
    case None =>
      c := FirstOfHead(ps, s, i, cs[1..], ci);
  }

  /**
   * Priority: when the rest of the pattern succeeds from the head piece's
   * first candidate, the engine keeps that candidate.
   */
  lemma {:induction false} FirstCandidateWins(ps: seq<Piece>, s: string, i: nat, ci: bool)
    requires i <= |s| && ps != []
    requires Candidates(ps[0], s, i, ci) != []
    requires FirstParse(ps[1..], s, Candidates(ps[0], s, i, ci)[0], ci).Some?
    ensures FirstParse(ps, s, i, ci).Some?
    ensures FirstParse(ps, s, i, ci).value[0] == Candidates(ps[0], s, i, ci)[0]
  {
  }

  /** `test()` of a pattern anchored with `^`: the engine succeeds from index 0. */
  predicate Test(ps: seq<Piece>, s: string, ci: bool)
  {
    FirstParse(ps, s, 0, ci).Some?
  }

  /** `test()` succeeds exactly when the pattern can match some prefix of `s`. */
  lemma {:induction false} TestMeaning(ps: seq<Piece>, s: string, ci: bool)
    ensures Test(ps, s, ci) <==> exists j: nat :: j <= |s| && SeqMatches(ps, s, 0, j, ci)
  {
    if Test(ps, s, ci) {
      var e := FirstParse(ps, s, 0, ci).value;
      FirstParseSound(ps, s, 0, ci);
      ParseOKMatches(ps, s, 0, e, ci);
      var j := LastEnd(0, e);
      assert j <= |s| && SeqMatches(ps, s, 0, j, ci);
    }
    if exists j: nat :: j <= |s| && SeqMatches(ps, s, 0, j, ci) {
      var j: nat :| j <= |s| && SeqMatches(ps, s, 0, j, ci);
      FirstParseComplete(ps, s, 0, j, ci);
    }
  }

  // ---------------------------------------------------------------------
  // Stepping through the engine one piece at a time

  /** A run of `cls` characters of length `n` that cannot be extended is the longest run. */
  lemma {:induction false} RunLengthIs(s: string, i: nat, cls: CharClass, n: nat)
    requires i + n <= |s|
    requires forall k :: i <= k < i + n ==> InClass(s[k], cls)
    requires i + n == |s| || !InClass(s[i + n], cls)
    ensures RunLength(s, i, cls) == n
    decreases n
  {
    if n > 0 {
      RunLengthIs(s, i + 1, cls, n - 1);
    }
  }

  /** A run seen from a suffix of the input is the same run. */
  lemma {:induction false} RunLengthShift(s: string, p: nat, j: nat, cls: CharClass)
    requires p + j <= |s|
    ensures RunLength(s[p..], j, cls) == RunLength(s, p + j, cls)
    decreases |s| - p - j
  {
    if p + j < |s| {
      assert s[p..][j] == s[p + j];
      RunLengthShift(s, p, j + 1, cls);
    }
  }

  /** A run that starts inside `y` is the same in `x + y`. */
  lemma {:induction false} RunLengthConcat(x: string, y: string, j: nat, cls: CharClass)
    requires j <= |y|
    ensures RunLength(x + y, |x| + j, cls) == RunLength(y, j, cls)
    decreases |y| - j
  {
    if j < |y| {
      assert (x + y)[|x| + j] == y[j];
      RunLengthConcat(x, y, j + 1, cls);
    }
  }

  /** A run over all of `x` goes on into `y`. */
  lemma {:induction false} RunLengthAppend(x: string, y: string, cls: CharClass)
    requires forall k :: 0 <= k < |x| ==> InClass(x[k], cls)
    ensures RunLength(x + y, 0, cls) == |x| + RunLength(y, 0, cls)
    decreases |x|
  {
    if x == [] {
      assert x + y == y;
    } else {
      var xy := x + y;
      assert xy[0] == x[0];
      RunLengthShift(xy, 1, 0, cls);
      assert xy[1..] == x[1..] + y;
      RunLengthAppend(x[1..], y, cls);
    }
  }

  /** A run that reaches the end of the input reaches it from every later start. */
  lemma {:induction false} RunLengthToEnd(s: string, p: nat, q: nat, cls: CharClass)
    requires p <= q <= |s| && RunLength(s, p, cls) == |s| - p
    ensures RunLength(s, q, cls) == |s| - q
    decreases q - p
  {
    if p < q {
      RunLengthToEnd(s, p + 1, q, cls);
    }
  }

  /** An unbounded greedy run offers its longest extent first. */
  lemma {:induction false} GreedyFirst(cls: CharClass, min: nat, s: string, i: nat, n: nat, ci: bool)
    requires i <= |s| && RunLength(s, i, cls) == n && min <= n
    ensures Candidates(Chars(cls, min, Unbounded, false), s, i, ci) == Downward(i + n, i + min)
  {
  }

  /** A lazy run offers its shortest extent first. */
  lemma {:induction false} LazyFirst(cls: CharClass, min: nat, s: string, i: nat, n: nat, ci: bool)
    requires i <= |s| && RunLength(s, i, cls) == n && min <= n
    ensures Candidates(Chars(cls, min, Unbounded, true), s, i, ci) == Upward(i + min, i + n)
  {
  }

  lemma {:induction false} FirstOfPick(ps: seq<Piece>, s: string, i: nat, cs: seq<nat>, m: nat, ci: bool)
    requires ps != [] && Between(cs, i, |s|) && m < |cs|
    requires forall m' :: 0 <= m' < m ==> FirstParse(ps[1..], s, cs[m'], ci).None?
    requires FirstParse(ps[1..], s, cs[m], ci).Some?
    ensures FirstOf(ps, s, i, cs, ci) == Some([cs[m]] + FirstParse(ps[1..], s, cs[m], ci).value)
    decreases m
  {
    if m > 0 {
      FirstOfPick(ps, s, i, cs[1..], m - 1, ci);
    }
  }

  lemma {:induction false} FirstOfNone(ps: seq<Piece>, s: string, i: nat, cs: seq<nat>, ci: bool)
    requires ps != [] && Between(cs, i, |s|)
    requires forall m :: 0 <= m < |cs| ==> FirstParse(ps[1..], s, cs[m], ci).None?
    ensures FirstOf(ps, s, i, cs, ci).None?
    decreases |cs|
  {
    if cs != [] {
      FirstOfNone(ps, s, i, cs[1..], ci);
    }
  }

  /**
   * The engine keeps the `m`-th end the head piece offers when every earlier
   * one leaves the rest of the pattern without a match and the `m`-th does not.
   */
  lemma {:induction false} Pick(ps: seq<Piece>, s: string, i: nat, m: nat, ci: bool)
    requires ps != [] && i <= |s| && m < |Candidates(ps[0], s, i, ci)|
    requires forall m' :: 0 <= m' < m ==> FirstParse(ps[1..], s, Candidates(ps[0], s, i, ci)[m'], ci).None?
    requires FirstParse(ps[1..], s, Candidates(ps[0], s, i, ci)[m], ci).Some?
    ensures FirstParse(ps, s, i, ci) ==
            Some([Candidates(ps[0], s, i, ci)[m]] + FirstParse(ps[1..], s, Candidates(ps[0], s, i, ci)[m], ci).value)
  {
    FirstOfPick(ps, s, i, Candidates(ps[0], s, i, ci), m, ci);
  }

  /** An unbounded greedy run at the head keeps its longest extent when the tail matches after it. */
  lemma {:induction false} StepGreedy(p: Piece, tail: seq<Piece>, s: string, i: nat, j: nat, ci: bool, rest: seq<nat>)
    requires i <= j <= |s| && p.Chars? && !p.lazy && p.max == Unbounded && i + p.min <= j
    requires RunLength(s, i, p.cls) == j - i
    requires FirstParse(tail, s, j, ci) == Some(rest)
    ensures FirstParse([p] + tail, s, i, ci) == Some([j] + rest)
  {
    var q := [p] + tail;
    assert q[0] == p && q[1..] == tail;
    GreedyFirst(p.cls, p.min, s, i, j - i, ci);
    Pick(q, s, i, 0, ci);
  }

  /** A literal head that occurs at `i` is matched when the tail matches after it. */
  lemma {:induction false} StepLit(p: Piece, tail: seq<Piece>, s: string, i: nat, j: nat, ci: bool, rest: seq<nat>)
    requires p.Lit? && j == i + |p.text| <= |s| && LitAt(s, i, p.text, ci)
    requires FirstParse(tail, s, j, ci) == Some(rest)
    ensures FirstParse([p] + tail, s, i, ci) == Some([j] + rest)
  {
    var q := [p] + tail;
    assert q[0] == p && q[1..] == tail;
    Pick(q, s, i, 0, ci);
  }

  /**
   * An unbounded lazy run at the head stops after `min + m` characters when
   * every shorter stop leaves the tail without a match and that one does not.
   */
  lemma {:induction false} StepLazy(p: Piece, tail: seq<Piece>, s: string, i: nat, j: nat, ci: bool, rest: seq<nat>)
    requires p.Chars? && p.lazy && p.max == Unbounded && i <= |s| && i + p.min <= j <= i + RunLength(s, i, p.cls)
    requires forall k: nat {:trigger FirstParse(tail, s, k, ci)} :: i + p.min <= k < j ==> FirstParse(tail, s, k, ci).None?
    requires FirstParse(tail, s, j, ci) == Some(rest)
    ensures FirstParse([p] + tail, s, i, ci) == Some([j] + rest)
  {
    var q := [p] + tail;
    assert q[0] == p && q[1..] == tail;
    var m := j - i - p.min;
    LazyFirst(p.cls, p.min, s, i, RunLength(s, i, p.cls), ci);
    var cs := Candidates(p, s, i, ci);
    forall m' | 0 <= m' < m ensures FirstParse(q[1..], s, cs[m'], ci).None? {
      assert cs[m'] == i + p.min + m';
    }
    Pick(q, s, i, m, ci);
  }

  /** The engine fails when no end the head piece offers lets the rest match. */
  lemma {:induction false} NoPick(ps: seq<Piece>, s: string, i: nat, ci: bool)
    requires ps != [] && i <= |s|
    requires forall m :: 0 <= m < |Candidates(ps[0], s, i, ci)| ==> FirstParse(ps[1..], s, Candidates(ps[0], s, i, ci)[m], ci).None?
    ensures FirstParse(ps, s, i, ci).None?
  {
    FirstOfNone(ps, s, i, Candidates(ps[0], s, i, ci), ci);
  }

  /** Every piece of a way through the pattern matches its own part of the input. */
  lemma {:induction false} ParseOKAt(ps: seq<Piece>, s: string, i: nat, e: seq<nat>, k: nat, ci: bool)
    requires ParseOK(ps, s, i, e, ci) && k < |ps|
    ensures PieceMatches(ps[k], s, if k == 0 then i else e[k - 1], e[k], ci)
    decreases k
  {
    if k > 0 {
      ParseOKAt(ps[1..], s, e[0], e[1..], k - 1, ci);
    }
  }

  /** A way through `[p] + tail` is a match of `p` followed by a way through `tail`. */
  lemma {:induction false} ParseOKCons(p: Piece, tail: seq<Piece>, s: string, i: nat, j: nat, rest: seq<nat>, ci: bool)
    requires PieceMatches(p, s, i, j, ci) && ParseOK(tail, s, j, rest, ci)
    ensures ParseOK([p] + tail, s, i, [j] + rest, ci)
  {
    assert ([p] + tail)[1..] == tail && ([j] + rest)[1..] == rest;
  }

  /** `test()` succeeds as soon as there is any way through the pattern from the start. */
  lemma {:induction false} TestOfParse(ps: seq<Piece>, s: string, e: seq<nat>, ci: bool)
    requires ParseOK(ps, s, 0, e, ci)
    ensures Test(ps, s, ci)
  {
    ParseOKMatches(ps, s, 0, e, ci);
    FirstParseComplete(ps, s, 0, LastEnd(0, e), ci);
  }

  /** When `test()` succeeds, the engine's ends are a way through the pattern. */
  lemma {:induction false} ParseOfTest(ps: seq<Piece>, s: string, ci: bool) returns (e: seq<nat>)
    requires Test(ps, s, ci)
    ensures e == FirstParse(ps, s, 0, ci).value
    ensures ParseOK(ps, s, 0, e, ci) && |e| == |ps|
  {
    e := FirstParse(ps, s, 0, ci).value;
    FirstParseSound(ps, s, 0, ci);
  }

  /** A pattern ending in `$` only matches up to the end of the input. */
  lemma {:induction false} SeqMatchesEnd(ps: seq<Piece>, s: string, i: nat, j: nat, ci: bool)
    requires ps != [] && ps[|ps| - 1] == End && SeqMatches(ps, s, i, j, ci)
    ensures j == |s|
    decreases |ps|
  {
    var k: nat :| i <= k <= j && PieceMatches(ps[0], s, i, k, ci) && SeqMatches(ps[1..], s, k, j, ci);
    if |ps| > 1 {
      SeqMatchesEnd(ps[1..], s, k, j, ci);
    }
  }

  /** Where the `k`-th piece of a parse from `i` with ends `e` starts. */
  function StartOf(i: nat, e: seq<nat>, k: nat): nat
    requires k <= |e|
  {
    if k == 0 then i else e[k - 1]
  }

  /** A way through the pattern is given piece by piece: each piece matches between its neighbours' ends. */
  lemma {:induction false} ParseOKOfPieces(ps: seq<Piece>, s: string, i: nat, e: seq<nat>, ci: bool)
    requires |e| == |ps|
    requires forall k :: 0 <= k < |ps| ==> PieceMatches(ps[k], s, StartOf(i, e, k), e[k], ci)
    ensures ParseOK(ps, s, i, e, ci)
    decreases |ps|
  {
    if ps != [] {
      assert PieceMatches(ps[0], s, StartOf(i, e, 0), e[0], ci);
      forall k | 0 <= k < |ps| - 1
        ensures PieceMatches(ps[1..][k], s, StartOf(e[0], e[1..], k), e[1..][k], ci)
      {
        assert PieceMatches(ps[k + 1], s, StartOf(i, e, k + 1), e[k + 1], ci);
      }
      ParseOKOfPieces(ps[1..], s, e[0], e[1..], ci);
    }
  }

  /** Ways through two patterns, one after the other, are a way through their concatenation. */
  lemma {:induction false} ParseOKAppend(a: seq<Piece>, b: seq<Piece>, s: string, i: nat, ea: seq<nat>, eb: seq<nat>, ci: bool)
    requires ParseOK(a, s, i, ea, ci) && ParseOK(b, s, LastEnd(i, ea), eb, ci)
    ensures ParseOK(a + b, s, i, ea + eb, ci)
    decreases |a|
  {
    if a == [] {
      assert a + b == b && ea + eb == eb;
    } else {
      assert (a + b)[1..] == a[1..] + b && (ea + eb)[1..] == ea[1..] + eb;
      assert LastEnd(ea[0], ea[1..]) == LastEnd(i, ea);
      ParseOKAppend(a[1..], b, s, ea[0], ea[1..], eb, ci);
    }
  }

  /** A one-piece pattern matches what its piece matches. */
  lemma {:induction false} SeqMatchesOne(p: Piece, s: string, i: nat, j: nat, ci: bool)
    requires PieceMatches(p, s, i, j, ci)
    ensures SeqMatches([p], s, i, j, ci)
  {
    assert [p][1..] == [];
    assert SeqMatches([], s, j, j, ci);
  }

  /** A two-piece pattern matches when its pieces match one after the other. */
  lemma {:induction false} SeqMatchesTwo(p: Piece, q: Piece, s: string, i: nat, k: nat, j: nat, ci: bool)
    requires PieceMatches(p, s, i, k, ci) && PieceMatches(q, s, k, j, ci)
    ensures SeqMatches([p, q], s, i, j, ci)
  {
    SeqMatchesOne(q, s, k, j, ci);
    assert [p, q][1..] == [q];
  }

  /** A greedy run, bounded or not, at the head keeps its longest allowed extent when the tail matches after it. */
  lemma {:induction false} StepGreedyCapped(p: Piece, tail: seq<Piece>, s: string, i: nat, j: nat, ci: bool, rest: seq<nat>)
    requires i <= |s| && p.Chars? && !p.lazy && j == i + Cap(RunLength(s, i, p.cls), p.max) && i + p.min <= j
    requires FirstParse(tail, s, j, ci) == Some(rest)
    ensures FirstParse([p] + tail, s, i, ci) == Some([j] + rest)
  {
    var q := [p] + tail;
    assert q[0] == p && q[1..] == tail;
    assert Candidates(p, s, i, ci)[0] == j;
    Pick(q, s, i, 0, ci);
  }

  /** An optional group whose body cannot match at `i` is skipped. */
  lemma {:induction false} StepOptSkip(b: seq<Piece>, tail: seq<Piece>, s: string, i: nat, ci: bool, rest: seq<nat>)
    requires i <= |s| && Ends(b, s, i, ci) == []
    requires FirstParse(tail, s, i, ci) == Some(rest)
    ensures FirstParse([Opt(b)] + tail, s, i, ci) == Some([i] + rest)
  {
    var q := [Opt(b)] + tail;
    assert q[0] == Opt(b) && q[1..] == tail;
    assert Candidates(Opt(b), s, i, ci) == [i];
    Pick(q, s, i, 0, ci);
  }

  /** A pattern whose first piece is a literal that does not occur at `i` has no end from `i`. */
  lemma {:induction false} LitHeadFails(b: seq<Piece>, s: string, i: nat, ci: bool)
    requires i <= |s| && b != [] && b[0].Lit? && !LitAt(s, i, b[0].text, ci)
    ensures Ends(b, s, i, ci) == []
  {
  }

  /** `$` at the end of the input. */
  lemma {:induction false} StepEnd(s: string, ci: bool)
    ensures FirstParse([End], s, |s|, ci) == Some([|s|])
  {
    assert [End][1..] == [];
    assert Candidates(End, s, |s|, ci) == [|s|];
    assert FirstParse([], s, |s|, ci) == Some([]);
    Pick([End], s, |s|, 0, ci);
    assert [|s|] + [] == [|s|];
  }
}
