/**
 * `sanitizeFilename` (src/filenameSanitizer.ts): a fixed sequence of string
 * rewrites that turns a line into a name every platform accepts as a
 * filename. Each regular-expression replacement of the source is one
 * function here; `Sanitize` composes them in the source's order.
 */
module Sanitizer {
  import opened Strings
  import opened Config

  /** `replace(/^\[\[/, '')` */
  function DropOpening(s: string): string
  {
    if StartsWith(s, "[[") then s[2..] else s
  }

  /** `replace(/\]\]$/, '')` */
  function DropClosing(s: string): string
  {
    if EndsWith(s, "]]") then s[..|s| - 2] else s
  }

  /** `replace(/[\[\]#^|*"\\/:?<>|]/g, rc)`: every illegal character becomes `rc`. */
  function ReplaceIllegal(s: string, rc: char): (r: string)
    ensures |r| == |s|
  {
    if s == [] then []
    else [if IsIllegal(s[0]) then rc else s[0]] + ReplaceIllegal(s[1..], rc)
  }

  /** `replace(/\rc{2,}/g, rc)`: every run of two or more `rc` becomes a single `rc`. */
  function Collapse(s: string, rc: char): (r: string)
    ensures |r| <= |s|
  {
    if s == [] then []
    else if |s| >= 2 && s[0] == rc && s[1] == rc then Collapse(s[1..], rc)
    else [s[0]] + Collapse(s[1..], rc)
  }

  /** The characters a leading or trailing strip removes. */
  datatype Strip = DotOrSpace | Only(c: char)

  predicate Strippable(c: char, k: Strip)
  {
    match k
    case DotOrSpace => c == '.' || IsSpace(c)
    case Only(x) => c == x
  }

  /** Removes the leading run of strippable characters. */
  function DropLeading(s: string, k: Strip): (r: string)
    ensures |r| <= |s|
  {
    if s != [] && Strippable(s[0], k) then DropLeading(s[1..], k) else s
  }

  /** Removes the trailing run of strippable characters (`X+$`). */
  function DropTrailing(s: string, k: Strip): (r: string)
    ensures |r| <= |s|
  {
    if s != [] && Strippable(s[|s| - 1], k) then DropTrailing(s[..|s| - 1], k) else s
  }

  /**
   * `replace(/^X+|X+$/g, '')`: the global scan removes the leading run and,
   * from where that stops, the trailing run.
   */
  function StripRuns(s: string, k: Strip): (r: string)
    ensures |r| <= |s|
  {
    DropTrailing(DropLeading(s, k), k)
  }

  /** The text after every rewrite that precedes the empty-name fallback (source lines 9-28). */
  function Cleaned(text: string, rc: char): string
  {
    var unwrapped := DropClosing(DropOpening(Trim(text)));
    var replaced := ReplaceIllegal(unwrapped, rc);
    var collapsed := Collapse(replaced, rc);
    var stripped := StripRuns(collapsed, DotOrSpace);
    StripRuns(stripped, Only(rc))
  }

  const Fallback: string := "untitled"

  /** `sanitizeFilename(text, settings)`. */
  function Sanitize(text: string, settings: Settings): string
  {
    var rc := settings.replacementChar;
    var max := settings.maxFilenameLength;
    var s := Cleaned(text, rc);
    if s == [] then Fallback
    else if |s| > max then DropTrailing(s[..max], Only(rc))
    else s
  }

  // ---------------------------------------------------------------------
  // What each rewrite leaves

  predicate NoneIllegal(s: string)
  {
    forall k :: 0 <= k < |s| ==> !IsIllegal(s[k])
  }

  /** No two adjacent characters are both `rc`. */
  predicate NoDoubled(s: string, rc: char)
  {
    forall k :: 0 <= k < |s| - 1 ==> !(s[k] == rc && s[k + 1] == rc)
  }

  /** Neither end of `s` is `rc`. */
  predicate EdgesClear(s: string, rc: char)
  {
    s == [] || (s[0] != rc && s[|s| - 1] != rc)
  }

  /** `s` without any `rc`: what collapsing runs of `rc` must not change. */
  function Without(s: string, rc: char): (r: string)
    ensures |r| <= |s|
  {
    if s == [] then [] else (if s[0] == rc then [] else [s[0]]) + Without(s[1..], rc)
  }

  lemma {:induction false} DropLeadingSpec(s: string, k: Strip)
    ensures var r := DropLeading(s, k);
            r == s[|s| - |r|..] && (forall i :: 0 <= i < |s| - |r| ==> Strippable(s[i], k)) &&
            (r != [] ==> !Strippable(r[0], k))
    decreases |s|
  {
    if s != [] && Strippable(s[0], k) {
      DropLeadingSpec(s[1..], k);
      var r := DropLeading(s, k);
      assert s[1..][|s| - 1 - |r|..] == s[|s| - |r|..];
      forall i | 0 <= i < |s| - |r| ensures Strippable(s[i], k) {
        if i > 0 {
          assert s[i] == s[1..][i - 1];
        }
      }
    }
  }

  lemma {:induction false} DropTrailingSpec(s: string, k: Strip)
    ensures var r := DropTrailing(s, k);
            r == s[..|r|] && (forall i :: |r| <= i < |s| ==> Strippable(s[i], k)) &&
            (r != [] ==> !Strippable(r[|r| - 1], k))
    decreases |s|
  {
    if s != [] && Strippable(s[|s| - 1], k) {
      var t := s[..|s| - 1];
      DropTrailingSpec(t, k);
      var r := DropTrailing(s, k);
      assert t[..|r|] == s[..|r|];
      forall i | |r| <= i < |s| ensures Strippable(s[i], k) {
        if i < |s| - 1 {
          assert s[i] == t[i];
        }
      }
    }
  }

  /** Stripping keeps a slice of the input and leaves no strippable character at either end. */
  lemma {:induction false} StripRunsSpec(s: string, k: Strip) returns (a: nat)
    ensures var r := StripRuns(s, k);
            a + |r| <= |s| && r == s[a..a + |r|] &&
            (r != [] ==> !Strippable(r[0], k) && !Strippable(r[|r| - 1], k))
  {
    var t := DropLeading(s, k);
    var r := DropTrailing(t, k);
    DropLeadingSpec(s, k);
    DropTrailingSpec(t, k);
    a := |s| - |t|;
    assert r == s[a..a + |r|];
    if r != [] {
      assert r[0] == t[0];
    }
  }

  /** Replacing changes exactly the illegal characters, each into `rc`. */
  lemma {:induction false} ReplaceIllegalSpec(s: string, rc: char)
    ensures forall k :: 0 <= k < |s| ==> ReplaceIllegal(s, rc)[k] == if IsIllegal(s[k]) then rc else s[k]
    decreases |s|
  {
    if s != [] {
      ReplaceIllegalSpec(s[1..], rc);
      var r := ReplaceIllegal(s, rc);
      forall k | 1 <= k < |s| ensures r[k] == if IsIllegal(s[k]) then rc else s[k] {
        assert r[k] == ReplaceIllegal(s[1..], rc)[k - 1] && s[k] == s[1..][k - 1];
      }
    }
  }

  /** With a legal `rc`, nothing illegal is left; and text with nothing illegal is left as it is. */
  lemma {:induction false} ReplaceIllegalClean(s: string, rc: char)
    ensures !IsIllegal(rc) ==> NoneIllegal(ReplaceIllegal(s, rc))
    ensures NoneIllegal(s) ==> ReplaceIllegal(s, rc) == s
  {
    ReplaceIllegalSpec(s, rc);
  }

  /** Collapsing leaves no doubled `rc`. */
  lemma {:induction false} CollapseNoDoubled(s: string, rc: char)
    ensures NoDoubled(Collapse(s, rc), rc)
    ensures s != [] ==> Collapse(s, rc) != [] && Collapse(s, rc)[0] == s[0]
    decreases |s|
  {
    if s != [] {
      CollapseNoDoubled(s[1..], rc);
      var t := Collapse(s[1..], rc);
      if !(|s| >= 2 && s[0] == rc && s[1] == rc) {
        var r := [s[0]] + t;
        forall k | 0 <= k < |r| - 1 ensures !(r[k] == rc && r[k + 1] == rc) {
          if k == 0 {
            if s[0] == rc && t != [] {
              assert t[0] == s[1];
            }
          } else {
            assert r[k] == t[k - 1] && r[k + 1] == t[k];
          }
        }
      }
    }
  }

  /** Collapsing removes only copies of `rc`: everything else is kept, in order. */
  lemma {:induction false} CollapseKeepsOthers(s: string, rc: char)
    ensures Without(Collapse(s, rc), rc) == Without(s, rc)
    decreases |s|
  {
    if s != [] {
      CollapseKeepsOthers(s[1..], rc);
      if !(|s| >= 2 && s[0] == rc && s[1] == rc) {
        var r := [s[0]] + Collapse(s[1..], rc);
        assert r[1..] == Collapse(s[1..], rc);
      }
    }
  }

  /** A string with no doubled `rc` is left as it is. */
  lemma {:induction false} CollapseOfSingle(s: string, rc: char)
    requires NoDoubled(s, rc)
    ensures Collapse(s, rc) == s
    decreases |s|
  {
    if s != [] {
      assert NoDoubled(s[1..], rc) by {
        forall k | 0 <= k < |s| - 2 ensures !(s[1..][k] == rc && s[1..][k + 1] == rc) {
          assert s[1..][k] == s[k + 1] && s[1..][k + 1] == s[k + 2];
        }
      }
      CollapseOfSingle(s[1..], rc);
      if |s| >= 2 {
        assert !(s[0] == rc && s[1] == rc);
      }
      assert s == [s[0]] + s[1..];
    }
  }

  /** Collapsing twice is collapsing once. */
  lemma {:induction false} CollapseIdempotent(s: string, rc: char)
    ensures Collapse(Collapse(s, rc), rc) == Collapse(s, rc)
  {
    CollapseNoDoubled(s, rc);
    CollapseOfSingle(Collapse(s, rc), rc);
  }

  lemma {:induction false} CollapseNoneIllegal(s: string, rc: char)
    requires NoneIllegal(s)
    ensures NoneIllegal(Collapse(s, rc))
    decreases |s|
  {
    if s != [] {
      assert NoneIllegal(s[1..]) by {
        forall k | 0 <= k < |s| - 1 ensures !IsIllegal(s[1..][k]) {
          assert s[1..][k] == s[k + 1];
        }
      }
      CollapseNoneIllegal(s[1..], rc);
      var t := Collapse(s[1..], rc);
      if !(|s| >= 2 && s[0] == rc && s[1] == rc) {
        var r := [s[0]] + t;
        forall k | 0 <= k < |r| ensures !IsIllegal(r[k]) {
          if k > 0 {
            assert r[k] == t[k - 1];
          }
        }
      }
    }
  }

  lemma {:induction false} SliceKeeps(s: string, rc: char, a: nat, b: nat)
    requires a <= b <= |s|
    ensures NoneIllegal(s) ==> NoneIllegal(s[a..b])
    ensures NoDoubled(s, rc) ==> NoDoubled(s[a..b], rc)
  {
    var t := s[a..b];
    if NoDoubled(s, rc) {
      forall k | 0 <= k < |t| - 1 ensures !(t[k] == rc && t[k + 1] == rc) {
        assert t[k] == s[a + k] && t[k + 1] == s[a + k + 1];
      }
    }
    if NoneIllegal(s) {
      forall k | 0 <= k < |t| ensures !IsIllegal(t[k]) {
        assert t[k] == s[a + k];
      }
    }
  }

  /** Stripping keeps a slice, so it keeps what holds of every slice. */
  lemma {:induction false} StripKeeps(s: string, rc: char, k: Strip)
    ensures NoneIllegal(s) ==> NoneIllegal(StripRuns(s, k))
    ensures NoDoubled(s, rc) ==> NoDoubled(StripRuns(s, k), rc)
  {
    var a := StripRunsSpec(s, k);
    var r := StripRuns(s, k);
    SliceKeeps(s, rc, a, a + |r|);
  }

  /** What the rewrites before the fallback guarantee. */
  lemma {:induction false} CleanedSpec(text: string, rc: char)
    requires ValidReplacement(rc)
    ensures var s := Cleaned(text, rc);
            NoneIllegal(s) && NoDoubled(s, rc) && EdgesClear(s, rc)
  {
    var unwrapped := DropClosing(DropOpening(Trim(text)));
    var replaced := ReplaceIllegal(unwrapped, rc);
    var collapsed := Collapse(replaced, rc);
    var stripped := StripRuns(collapsed, DotOrSpace);
    ReplaceIllegalClean(unwrapped, rc);
    CollapseNoDoubled(replaced, rc);
    CollapseNoneIllegal(replaced, rc);
    StripKeeps(collapsed, rc, DotOrSpace);
    StripKeeps(stripped, rc, Only(rc));
    var _ := StripRunsSpec(stripped, Only(rc));
  }

  // ---------------------------------------------------------------------
  // Properties of sanitizeFilename

  /**
   * With a legal replacement character, the name holds no illegal character,
   * no two replacement characters in a row, and (unless it is the fallback)
   * none at either end.
   */
  lemma {:induction false} SanitizeClean(text: string, settings: Settings)
    requires ValidReplacement(settings.replacementChar)
    ensures var r := Sanitize(text, settings);
            var rc := settings.replacementChar;
            NoneIllegal(r) && NoDoubled(r, rc) && (r == Fallback || EdgesClear(r, rc))
  {
    var rc := settings.replacementChar;
    var s := Cleaned(text, rc);
    CleanedSpec(text, rc);
    if s == [] {
      FallbackClean(rc);
    } else if |s| > settings.maxFilenameLength {
      TruncateKeeps(s, rc, settings.maxFilenameLength);
    }
  }

  /** Sanitising brings in no character but the replacement and those of the fallback name. */
  lemma {:induction false} SanitizeDrawsOn(text: string, settings: Settings, c: char)
    requires c !in text && c != settings.replacementChar && c !in Fallback
    ensures c !in Sanitize(text, settings)
  {
    var s := Cleaned(text, settings.replacementChar);
    CleanedDrawsOn(text, settings.replacementChar, c);
    if s != [] && |s| > settings.maxFilenameLength {
      var r := DropTrailing(s[..settings.maxFilenameLength], Only(settings.replacementChar));
      DropTrailingSpec(s[..settings.maxFilenameLength], Only(settings.replacementChar));
      NotInSlice(s, 0, |r|, c);
    }
  }

  /** The rewrites before the fallback bring in no character but the replacement. */
  lemma {:induction false} CleanedDrawsOn(text: string, rc: char, c: char)
    requires c !in text && c != rc
    ensures c !in Cleaned(text, rc)
  {
    var u := DropClosing(DropOpening(Trim(text)));
    UnwrapDrawsOn(text, c);
    ReplaceDrawsOn(u, rc, c);
    var v := ReplaceIllegal(u, rc);
    CollapseDrawsOn(v, rc, c);
    var w := Collapse(v, rc);
    StripDrawsOn(w, DotOrSpace, c);
    StripDrawsOn(StripRuns(w, DotOrSpace), Only(rc), c);
  }

  /** Trimming and unwrapping only remove characters. */
  lemma {:induction false} UnwrapDrawsOn(text: string, c: char)
    requires c !in text
    ensures c !in DropClosing(DropOpening(Trim(text)))
  {
    var t := Trim(text);
    TrimSpec(text);
    var a, b :| 0 <= a <= b <= |text| && t == text[a..b];
    NotInSlice(text, a, b, c);
  }

  /** Stripping only removes characters. */
  lemma {:induction false} StripDrawsOn(s: string, k: Strip, c: char)
    requires c !in s
    ensures c !in StripRuns(s, k)
  {
    var a := StripRunsSpec(s, k);
    NotInSlice(s, a, a + |StripRuns(s, k)|, c);
  }

  lemma {:induction false} NotInSlice(s: string, a: nat, b: nat, c: char)
    requires a <= b <= |s| && c !in s
    ensures c !in s[a..b]
  {
    assert forall k :: 0 <= k < b - a ==> s[a..b][k] == s[a + k];
  }

  /** Replacing brings in no character but the replacement. */
  lemma {:induction false} ReplaceDrawsOn(s: string, rc: char, c: char)
    requires c !in s && c != rc
    ensures c !in ReplaceIllegal(s, rc)
    decreases |s|
  {
    if s != [] {
      assert s == [s[0]] + s[1..];
      ReplaceDrawsOn(s[1..], rc, c);
    }
  }

  /** Collapsing only removes characters. */
  lemma {:induction false} CollapseDrawsOn(s: string, rc: char, c: char)
    requires c !in s
    ensures c !in Collapse(s, rc)
    decreases |s|
  {
    if s != [] {
      assert s == [s[0]] + s[1..];
      CollapseDrawsOn(s[1..], rc, c);
    }
  }

  /** "untitled" holds no illegal character and no replacement character. */
  lemma {:induction false} FallbackClean(rc: char)
    requires ValidReplacement(rc)
    ensures NoneIllegal(Fallback) && NoDoubled(Fallback, rc)
  {
    assert Fallback == ['u', 'n', 't', 'i', 't', 'l', 'e', 'd'];
  }

  /** Cutting to the limit and dropping the `rc` run this leaves at the end keeps a clean name clean. */
  lemma {:induction false} TruncateKeeps(s: string, rc: char, max: nat)
    requires |s| > max && NoneIllegal(s) && NoDoubled(s, rc) && EdgesClear(s, rc)
    ensures var r := DropTrailing(s[..max], Only(rc));
            NoneIllegal(r) && NoDoubled(r, rc) && EdgesClear(r, rc)
  {
    var t := s[..max];
    SliceKeeps(s, rc, 0, max);
    var r := DropTrailing(t, Only(rc));
    DropTrailingSpec(t, Only(rc));
    SliceKeeps(t, rc, 0, |r|);
    if r != [] {
      assert r[0] == s[0];
    }
  }

  /** A name that is not the fallback fits the length limit. */
  lemma {:induction false} SanitizeLength(text: string, settings: Settings)
    ensures var r := Sanitize(text, settings);
            r == Fallback || |r| <= settings.maxFilenameLength
  {
  }

  /**
   * Text that cleans to nothing becomes "untitled", whatever the length
   * limit; any other text becomes a prefix of what the rewrites left, which
   * is never empty while the limit is at least one.
   */
  lemma {:induction false} SanitizePrefix(text: string, settings: Settings)
    ensures var s := Cleaned(text, settings.replacementChar);
            var r := Sanitize(text, settings);
            (s == [] ==> r == Fallback) &&
            (s != [] ==> StartsWith(s, r) && (settings.maxFilenameLength >= 1 && ValidReplacement(settings.replacementChar) ==> r != []))
  {
    var rc := settings.replacementChar;
    var max := settings.maxFilenameLength;
    var s := Cleaned(text, rc);
    if s != [] && |s| > max {
      var t := s[..max];
      var r := DropTrailing(t, Only(rc));
      DropTrailingSpec(t, Only(rc));
      assert s[..|r|] == r;
      if max >= 1 && ValidReplacement(rc) {
        CleanedSpec(text, rc);
        if r == [] {
          assert t[0] == s[0] && Strippable(t[0], Only(rc));
        }
      }
    }
  }

  /**
   * A name that is already clean survives sanitising unchanged, bare or
   * wrapped in link brackets: the brackets are removed before the illegal
   * characters are replaced.
   */
  lemma {:induction false} SanitizeKeepsCleanName(m: string, settings: Settings)
    requires m != [] && |m| <= settings.maxFilenameLength
    requires NoneIllegal(m) && NoDoubled(m, settings.replacementChar) && EdgesClear(m, settings.replacementChar)
    requires !Strippable(m[0], DotOrSpace) && !Strippable(m[|m| - 1], DotOrSpace)
    ensures Sanitize(m, settings) == m
    ensures Sanitize("[[" + m + "]]", settings) == m
  {
    var rc := settings.replacementChar;
    TrimOfTrimmed(m);
    assert !IsIllegal(m[0]) && !IsIllegal(m[|m| - 1]);
    assert DropClosing(DropOpening(Trim(m))) == m;
    var w := "[[" + m + "]]";
    assert w[0] == '[' && w[|w| - 1] == ']';
    TrimOfTrimmed(w);
    assert DropOpening(w) == m + "]]";
    assert DropClosing(m + "]]") == m;
    CleanUnchanged(m, rc);
  }

  /**
   * One leading `[[` and one trailing `]]` come off before any character is
   * replaced, so the brackets of a link never turn into replacement
   * characters, whatever the link holds.
   */
  lemma {:induction false} BracketsRemovedFirst(m: string, rc: char)
    ensures Cleaned("[[" + m + "]]", rc) ==
            StripRuns(StripRuns(Collapse(ReplaceIllegal(m, rc), rc), DotOrSpace), Only(rc))
  {
    var w := "[[" + m + "]]";
    assert w[0] == '[' && w[|w| - 1] == ']';
    TrimOfTrimmed(w);
    assert w[2..] == m + "]]";
    assert DropOpening(w) == m + "]]";
    assert (m + "]]")[..|m|] == m;
    assert DropClosing(m + "]]") == m;
  }

  /** The rewrites after unwrapping leave a clean name alone. */
  lemma {:induction false} CleanUnchanged(m: string, rc: char)
    requires m != [] && NoneIllegal(m) && NoDoubled(m, rc) && EdgesClear(m, rc)
    requires !Strippable(m[0], DotOrSpace) && !Strippable(m[|m| - 1], DotOrSpace)
    ensures StripRuns(StripRuns(Collapse(ReplaceIllegal(m, rc), rc), DotOrSpace), Only(rc)) == m
  {
    ReplaceIllegalClean(m, rc);
    CollapseOfSingle(m, rc);
  }

  /** Replacing works character by character, so it distributes over concatenation. */
  lemma {:induction false} ReplaceAppend(a: string, b: string, rc: char)
    ensures ReplaceIllegal(a + b, rc) == ReplaceIllegal(a, rc) + ReplaceIllegal(b, rc)
    decreases |a|
  {
    if a != [] {
      assert (a + b)[1..] == a[1..] + b;
      ReplaceAppend(a[1..], b, rc);
    } else {
      assert a + b == b;
    }
  }

  /** Collapsing distributes over a concatenation whose left part does not end in `rc`. */
  lemma {:induction false} CollapseAppend(a: string, b: string, rc: char)
    requires a != [] && a[|a| - 1] != rc
    ensures Collapse(a + b, rc) == Collapse(a, rc) + Collapse(b, rc)
    decreases |a|
  {
    if |a| == 1 {
      assert (a + b)[1..] == b;
      assert Collapse(a, rc) == [a[0]];
    } else {
      assert (a + b)[1..] == a[1..] + b;
      assert (a + b)[0] == a[0] && (a + b)[1] == a[1];
      CollapseAppend(a[1..], b, rc);
    }
  }

  /** A worked example: "Project: Plan??" with the default settings becomes "Project- Plan". */
  lemma {:induction false} WorkedExample()
    ensures Sanitize("Project: Plan??", Defaults) == "Project- Plan"
  {
    var x := "Project: Plan??";
    TrimOfTrimmed(x);
    assert x[..2][0] == 'P' && x[|x| - 2..][0] == '?';
    assert DropClosing(DropOpening(Trim(x))) == x;
    ExampleReplace();
    ExampleCollapse();
    ExampleStrip();
  }

  lemma {:induction false} ExampleReplace()
    ensures ReplaceIllegal("Project: Plan??", '-') == "Project- Plan--"
  {
    ProjectPieces();
    ReplaceFive("Pro", "ject", ": P", "lan", "??", '-');
    ReplaceLegalChunks();
    ReplaceIllegalChunks();
  }

  lemma {:induction false} ProjectPieces()
    ensures "Project: Plan??" == "Pro" + ("ject" + (": P" + ("lan" + "??")))
    ensures "Project- Plan--" == "Pro" + ("ject" + ("- P" + ("lan" + "--")))
    ensures "Project- Plan-" == "Pro" + ("ject" + ("- P" + ("lan" + "-")))
  {
  }

  lemma {:induction false} ReplaceFive(a: string, b: string, c: string, d: string, e: string, rc: char)
    ensures ReplaceIllegal(a + (b + (c + (d + e))), rc) ==
            ReplaceIllegal(a, rc) + (ReplaceIllegal(b, rc) + (ReplaceIllegal(c, rc) + (ReplaceIllegal(d, rc) + ReplaceIllegal(e, rc))))
  {
    ReplaceAppend(a, b + (c + (d + e)), rc);
    ReplaceAppend(b, c + (d + e), rc);
    ReplaceAppend(c, d + e, rc);
    ReplaceAppend(d, e, rc);
  }

  lemma {:induction false} ReplaceLegalChunks()
    ensures ReplaceIllegal("Pro", '-') == "Pro"
    ensures ReplaceIllegal("ject", '-') == "ject"
    ensures ReplaceIllegal("lan", '-') == "lan"
  {
    LegalKept("Pro");
    LegalKept("ject");
    LegalKept("lan");
  }

  lemma {:induction false} LegalKept(s: string)
    requires forall k :: 0 <= k < |s| ==> IsWordChar(s[k])
    ensures ReplaceIllegal(s, '-') == s
  {
    ReplaceIllegalClean(s, '-');
  }

  lemma {:induction false} ReplaceIllegalChunks()
    ensures ReplaceIllegal(": P", '-') == "- P"
    ensures ReplaceIllegal("??", '-') == "--"
  {
  }

  lemma {:induction false} ExampleCollapse()
    ensures Collapse("Project- Plan--", '-') == "Project- Plan-"
  {
    ProjectPieces();
    CollapseAppend("Pro", "ject" + ("- P" + ("lan" + "--")), '-');
    CollapseAppend("ject", "- P" + ("lan" + "--"), '-');
    CollapseAppend("- P", "lan" + "--", '-');
    CollapseAppend("lan", "--", '-');
    CollapseChunks();
  }

  lemma {:induction false} CollapseChunks()
    ensures Collapse("Pro", '-') == "Pro"
    ensures Collapse("ject", '-') == "ject"
    ensures Collapse("- P", '-') == "- P"
    ensures Collapse("lan", '-') == "lan"
    ensures Collapse("--", '-') == "-"
  {
    CollapseOfSingle("Pro", '-');
    CollapseOfSingle("ject", '-');
    CollapseOfSingle("- P", '-');
    CollapseOfSingle("lan", '-');
  }

  lemma {:induction false} ExampleStrip()
    ensures StripRuns(StripRuns("Project- Plan-", DotOrSpace), Only('-')) == "Project- Plan"
  {
  }

  /** Inputs that clean to nothing. */
  lemma {:induction false} EmptyExamples()
    ensures Sanitize("", Defaults) == Fallback
    ensures Sanitize("???", Defaults) == Fallback
    ensures Sanitize(" . ", Defaults) == Fallback
  {
    assert Trim("???") == "???" && Trim(" . ") == ".";
    assert ReplaceIllegal("???", '-') == "---";
    assert Collapse("---", '-') == "-";
  }
}
