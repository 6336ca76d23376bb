/**
 * `combineEvents` (src/eventCombiner.ts): links for the same person on the
 * same date are merged into one link at the position of the first of them,
 * the later ones are dropped, and every other link is kept as it is.
 *
 * The meaning is stated index by index (`Skipped`, `Leads`, `Emit`,
 * `CombineSpec`); `CombineEvents` is the source's three-pass algorithm over a
 * map of groups, a map of combined links and a set of indices to skip, and
 * is proved to compute `CombineSpec`.
 */
module Combiner {
  import opened Strings
  import opened Events
  import Dates

  /** Every event records its own position, as `wikilinks.map((link, index) => …)` gives. */
  predicate Indexed(ps: seq<Event>)
  {
    forall j :: 0 <= j < |ps| ==> ps[j].index == j
  }

  /** The events whose key is `k`, in their order (`groups.get(key)` once the first pass is over). */
  function Group(ps: seq<Event>, k: string): (g: seq<Event>)
    ensures forall t :: 0 <= t < |g| ==> KeyOf(g[t]) == Some(k)
  {
    if ps == [] then []
    else Group(ps[..|ps| - 1], k) + (if KeyOf(ps[|ps| - 1]) == Some(k) then [ps[|ps| - 1]] else [])
  }

  /** The descriptions of a group, in order (`events.map(e => e.eventDescription)`). */
  function Descriptions(g: seq<Event>): (ds: seq<string>)
    ensures |ds| == |g| && forall t :: 0 <= t < |g| ==> ds[t] == g[t].description
  {
    seq(|g|, t requires 0 <= t < |g| => g[t].description)
  }

  /** `[[person d1 and d2 … date]]`, with the person and the date of the first event. */
  function CombinedLink(g: seq<Event>): string
    requires g != [] && KeyOf(g[0]).Some?
  {
    "[[" + g[0].person.value + " " + Join(Descriptions(g), " and ") + " " + g[0].date.value + "]]"
  }

  /** The event at `j` shares its key with an earlier event: it is merged away. */
  predicate Skipped(ps: seq<Event>, j: nat)
    requires j < |ps|
  {
    KeyOf(ps[j]).Some? && var g := Group(ps, KeyOf(ps[j]).value); |g| > 1 && g[0].index != j
  }

  /** The event at `j` is the first of two or more with its key: the merged link goes here. */
  predicate Leads(ps: seq<Event>, j: nat)
    requires j < |ps|
  {
    KeyOf(ps[j]).Some? && var g := Group(ps, KeyOf(ps[j]).value); |g| > 1 && g[0].index == j
  }

  /** What stands at the place of an event that is not merged away. */
  function Shown(ps: seq<Event>, j: nat): string
    requires j < |ps|
  {
    if Leads(ps, j) then CombinedLink(Group(ps, KeyOf(ps[j]).value)) else ps[j].original
  }

  /** What the output holds for the event at `j`: nothing, or its link or the merged one. */
  function Emit(ps: seq<Event>, j: nat): seq<string>
    requires j < |ps|
  {
    if Skipped(ps, j) then [] else [Shown(ps, j)]
  }

  /** The output for the first `m` events. */
  function CombineOut(ps: seq<Event>, m: nat): seq<string>
    requires m <= |ps|
  {
    if m == 0 then [] else CombineOut(ps, m - 1) + Emit(ps, m - 1)
  }

  /** What `combineEvents(wikilinks)` returns. */
  function CombineSpec(links: seq<string>): seq<string>
  {
    CombineOut(ParseAll(links), |links|)
  }

  // ---------------------------------------------------------------------
  // Groups

  /** One more event extends the group of its key and no other. */
  lemma {:induction false} GroupStep(ps: seq<Event>, n: nat)
    requires n < |ps|
    ensures forall k :: Group(ps[..n + 1], k) == Group(ps[..n], k) + (if KeyOf(ps[n]) == Some(k) then [ps[n]] else [])
  {
    assert ps[..n + 1][..n] == ps[..n];
    assert ps[..n + 1][n] == ps[n];
  }

  /**
   * A group lists exactly the events carrying its key, in increasing
   * position, each being the event at its own index.
   */
  lemma {:induction false} GroupFacts(ps: seq<Event>, k: string)
    requires Indexed(ps)
    ensures var g := Group(ps, k);
            (forall t :: 0 <= t < |g| ==> g[t].index < |ps| && ps[g[t].index] == g[t]) &&
            (forall t1, t2 :: 0 <= t1 < t2 < |g| ==> g[t1].index < g[t2].index) &&
            (forall j :: 0 <= j < |ps| && KeyOf(ps[j]) == Some(k) ==> exists t :: 0 <= t < |g| && g[t].index == j)
    decreases |ps|
  {
    if ps != [] {
      var n := |ps| - 1;
      var front := ps[..n];
      assert Indexed(front);
      GroupFacts(front, k);
      var g0 := Group(front, k);
      var g := Group(ps, k);
      assert forall t :: 0 <= t < |g0| ==> g[t] == g0[t];
      forall j | 0 <= j < |ps| && KeyOf(ps[j]) == Some(k)
        ensures exists t :: 0 <= t < |g| && g[t].index == j
      {
        if j < n {
          assert front[j] == ps[j];
          var t :| 0 <= t < |g0| && g0[t].index == j;
          assert g[t].index == j;
        } else {
          assert g[|g| - 1] == ps[n];
        }
      }
    }
  }

  /** A member of a group is the event at its own index. */
  lemma {:induction false} GroupMember(ps: seq<Event>, k: string, t: nat)
    requires Indexed(ps) && t < |Group(ps, k)|
    ensures Group(ps, k)[t].index < |ps| && ps[Group(ps, k)[t].index] == Group(ps, k)[t]
  {
    GroupFacts(ps, k);
  }

  /** The group of the event at `j` holds it, so it is not empty. */
  lemma {:induction false} GroupHolds(ps: seq<Event>, j: nat)
    requires Indexed(ps) && j < |ps| && KeyOf(ps[j]).Some?
    ensures Group(ps, KeyOf(ps[j]).value) != []
  {
    GroupFacts(ps, KeyOf(ps[j]).value);
  }

  /** The members after the first of a group are the events with its key other than the first. */
  lemma {:induction false} GroupTail(ps: seq<Event>, k: string, j: nat)
    requires Indexed(ps) && |Group(ps, k)| > 1
    ensures var g := Group(ps, k);
            (exists u :: 1 <= u < |g| && g[u].index == j) <==> (j < |ps| && KeyOf(ps[j]) == Some(k) && g[0].index != j)
  {
    var g := Group(ps, k);
    GroupFacts(ps, k);
    if j < |ps| && KeyOf(ps[j]) == Some(k) && g[0].index != j {
      var u :| 0 <= u < |g| && g[u].index == j;
      assert u != 0;
    }
    if exists u :: 1 <= u < |g| && g[u].index == j {
      var u :| 1 <= u < |g| && g[u].index == j;
      assert g[0].index < g[u].index;
    }
  }

  /** The first member of a group of two or more is where its merged link goes. */
  lemma {:induction false} FirstLeads(ps: seq<Event>, k: string)
    requires Indexed(ps) && |Group(ps, k)| > 1
    ensures var j := Group(ps, k)[0].index;
            j < |ps| && KeyOf(ps[j]) == Some(k) && Leads(ps, j) && Shown(ps, j) == CombinedLink(Group(ps, k))
  {
    GroupFacts(ps, k);
  }

  // ---------------------------------------------------------------------
  // What the output is

  /** The positions below `m` of the events that are not merged away, in order. */
  function Kept(ps: seq<Event>, m: nat): seq<nat>
    requires m <= |ps|
  {
    if m == 0 then [] else Kept(ps, m - 1) + (if Skipped(ps, m - 1) then [] else [m - 1])
  }

  /** The kept positions increase, and are exactly those below `m` not merged away. */
  lemma {:induction false} KeptFacts(ps: seq<Event>, m: nat)
    requires m <= |ps|
    ensures var ks := Kept(ps, m);
            (forall t :: 0 <= t < |ks| ==> ks[t] < m) &&
            (forall t1, t2 :: 0 <= t1 < t2 < |ks| ==> ks[t1] < ks[t2]) &&
            (forall j :: 0 <= j < m ==> (j in ks <==> !Skipped(ps, j)))
  {
    KeptAscending(ps, m);
    KeptMembers(ps, m);
  }

  lemma {:induction false} KeptAscending(ps: seq<Event>, m: nat)
    requires m <= |ps|
    ensures forall t :: 0 <= t < |Kept(ps, m)| ==> Kept(ps, m)[t] < m
    ensures forall t1, t2 :: 0 <= t1 < t2 < |Kept(ps, m)| ==> Kept(ps, m)[t1] < Kept(ps, m)[t2]
    decreases m
  {
    if m > 0 {
      KeptAscending(ps, m - 1);
      var ks0 := Kept(ps, m - 1);
      if Skipped(ps, m - 1) {
        assert Kept(ps, m) == ks0;
      } else {
        var ks := ks0 + [m - 1];
        assert Kept(ps, m) == ks;
        assert forall t :: 0 <= t < |ks0| ==> ks[t] == ks0[t];
      }
    }
  }

  lemma {:induction false} KeptMembers(ps: seq<Event>, m: nat)
    requires m <= |ps|
    ensures forall j :: 0 <= j < m ==> (j in Kept(ps, m) <==> !Skipped(ps, j))
    decreases m
  {
    if m > 0 {
      KeptMembers(ps, m - 1);
      KeptAscending(ps, m - 1);
      var ks0 := Kept(ps, m - 1);
      assert forall t :: 0 <= t < |ks0| ==> ks0[t] < m - 1;
      assert m - 1 !in ks0;
      var last := if Skipped(ps, m - 1) then [] else [m - 1];
      assert Kept(ps, m) == ks0 + last;
      forall j | 0 <= j < m ensures j in Kept(ps, m) <==> !Skipped(ps, j) {
        assert j in Kept(ps, m) <==> j in ks0 || j in last;
      }
    }
  }

  /** There are at most `m` kept positions below `m`, and exactly `m` when nothing is merged away. */
  lemma {:induction false} KeptCount(ps: seq<Event>, m: nat)
    requires m <= |ps|
    ensures |Kept(ps, m)| <= m
    ensures |Kept(ps, m)| == m <==> forall j :: 0 <= j < m ==> !Skipped(ps, j)
    decreases m
  {
    if m > 0 {
      KeptCount(ps, m - 1);
      if Skipped(ps, m - 1) {
        assert Kept(ps, m) == Kept(ps, m - 1);
      } else {
        assert Kept(ps, m) == Kept(ps, m - 1) + [m - 1];
      }
    }
  }

  /** The output lists, in order, what stands at each kept position. */
  lemma {:induction false} OutputByKept(ps: seq<Event>, m: nat)
    requires m <= |ps|
    ensures var out := CombineOut(ps, m);
            var ks := Kept(ps, m);
            |out| == |ks| && forall t :: 0 <= t < |out| ==> ks[t] < |ps| && out[t] == Shown(ps, ks[t])
    decreases m
  {
    if m > 0 {
      OutputByKept(ps, m - 1);
      var out0 := CombineOut(ps, m - 1);
      var ks0 := Kept(ps, m - 1);
      if Skipped(ps, m - 1) {
        assert CombineOut(ps, m) == out0 && Kept(ps, m) == ks0;
      } else {
        assert CombineOut(ps, m) == out0 + [Shown(ps, m - 1)] && Kept(ps, m) == ks0 + [m - 1];
      }
    }
  }

  /**
   * `combineEvents` never lengthens the list, and keeps its length exactly
   * when no two links share a person and a date.
   */
  lemma {:induction false} CombineLength(links: seq<string>)
    ensures var ps := ParseAll(links);
            |CombineSpec(links)| <= |links| &&
            (|CombineSpec(links)| == |links| <==> forall j :: 0 <= j < |links| ==> !Skipped(ps, j))
  {
    OutputByKept(ParseAll(links), |links|);
    KeptCount(ParseAll(links), |links|);
  }

  // ---------------------------------------------------------------------
  // How many links a merge removes

  /** The distinct keys among the first `m` events, in the order they first appear (the order of `groups.entries()`). */
  function KeysUpTo(ps: seq<Event>, m: nat): seq<string>
    requires m <= |ps|
  {
    if m == 0 then []
    else
      var ks := KeysUpTo(ps, m - 1);
      var key := KeyOf(ps[m - 1]);
      if key.Some? && key.value !in ks then ks + [key.value] else ks
  }

  /** The sum over `ks` of `|group| - 1` for each group of two or more: what merging removes. */
  function Excess(ps: seq<Event>, ks: seq<string>): nat
  {
    if ks == [] then 0
    else
      var g := Group(ps, ks[|ks| - 1]);
      Excess(ps, ks[..|ks| - 1]) + (if |g| > 1 then |g| - 1 else 0)
  }

  /** The event at `j` has a key that an earlier event already carries. */
  predicate Repeats(ps: seq<Event>, j: nat)
    requires j < |ps|
  {
    KeyOf(ps[j]).Some? && exists i :: 0 <= i < j && KeyOf(ps[i]) == KeyOf(ps[j])
  }

  /** The positions below `m` whose key has occurred before. */
  function RepeatsBelow(ps: seq<Event>, m: nat): set<nat>
    requires m <= |ps|
  {
    if m == 0 then {} else RepeatsBelow(ps, m - 1) + (if Repeats(ps, m - 1) then {m - 1} else {})
  }

  /** `RepeatsBelow` holds only positions below `m`. */
  lemma {:induction false} BelowBound(ps: seq<Event>, m: nat)
    requires m <= |ps|
    ensures forall j :: j in RepeatsBelow(ps, m) ==> j < m
    decreases m
  {
    if m > 0 {
      BelowBound(ps, m - 1);
    }
  }

  /** `RepeatsBelow` holds exactly the positions below `m` whose key occurred before. */
  lemma {:induction false} BelowMembers(ps: seq<Event>, m: nat)
    requires m <= |ps|
    ensures forall j: nat :: j in RepeatsBelow(ps, m) <==> j < m && Repeats(ps, j)
    decreases m
  {
    if m > 0 {
      BelowMembers(ps, m - 1);
    }
  }

  /** A key is listed exactly when some event below `m` carries it, and no key twice. */
  lemma {:induction false} KeysMembers(ps: seq<Event>, m: nat)
    requires m <= |ps|
    ensures forall k :: k in KeysUpTo(ps, m) <==> exists i :: 0 <= i < m && KeyOf(ps[i]) == Some(k)
    ensures forall a, b :: 0 <= a < b < |KeysUpTo(ps, m)| ==> KeysUpTo(ps, m)[a] != KeysUpTo(ps, m)[b]
  {
    forall k ensures k in KeysUpTo(ps, m) <==> exists i :: 0 <= i < m && KeyOf(ps[i]) == Some(k) {
      KeyListed(ps, m, k);
    }
    KeysDistinct(ps, m);
  }

  /** One key of `KeysMembers`. */
  lemma {:induction false} KeyListed(ps: seq<Event>, m: nat, k: string)
    requires m <= |ps|
    ensures k in KeysUpTo(ps, m) <==> exists i :: 0 <= i < m && KeyOf(ps[i]) == Some(k)
    decreases m
  {
    if m > 0 {
      KeyListed(ps, m - 1, k);
      if exists i :: 0 <= i < m && KeyOf(ps[i]) == Some(k) {
        var i :| 0 <= i < m && KeyOf(ps[i]) == Some(k);
        if i < m - 1 {
          assert k in KeysUpTo(ps, m - 1);
        }
      }
      if k in KeysUpTo(ps, m) && k !in KeysUpTo(ps, m - 1) {
        assert KeyOf(ps[m - 1]) == Some(k);
      }
    }
  }

  /** No key is listed twice. */
  lemma {:induction false} KeysDistinct(ps: seq<Event>, m: nat)
    requires m <= |ps|
    ensures forall a, b :: 0 <= a < b < |KeysUpTo(ps, m)| ==> KeysUpTo(ps, m)[a] != KeysUpTo(ps, m)[b]
    decreases m
  {
    if m > 0 {
      KeysDistinct(ps, m - 1);
    }
  }

  /**
   * The keys appear in the order of their first events: every event whose
   * key is listed later is preceded by an event carrying each earlier key.
   */
  lemma {:induction false} KeysFirstSeen(ps: seq<Event>, m: nat)
    requires m <= |ps|
    ensures var ks := KeysUpTo(ps, m);
            forall a, b, j :: 0 <= a < b < |ks| && 0 <= j < m && KeyOf(ps[j]) == Some(ks[b]) ==>
              exists i :: 0 <= i < j && KeyOf(ps[i]) == Some(ks[a])
  {
    var ks := KeysUpTo(ps, m);
    forall a, b, j | 0 <= a < b < |ks| && 0 <= j < m && KeyOf(ps[j]) == Some(ks[b])
      ensures exists i :: 0 <= i < j && KeyOf(ps[i]) == Some(ks[a])
    {
      KeyBefore(ps, m, a, b, j);
    }
  }

  /** One instance of `KeysFirstSeen`, by induction on the number of events. */
  lemma {:induction false} KeyBefore(ps: seq<Event>, m: nat, a: nat, b: nat, j: nat)
    requires m <= |ps| && a < b < |KeysUpTo(ps, m)| && j < m && KeyOf(ps[j]) == Some(KeysUpTo(ps, m)[b])
    ensures exists i :: 0 <= i < j && KeyOf(ps[i]) == Some(KeysUpTo(ps, m)[a])
    decreases m
  {
    var ks0 := KeysUpTo(ps, m - 1);
    var ks := KeysUpTo(ps, m);
    assert |ks| <= |ks0| + 1 && forall t :: 0 <= t < |ks0| ==> ks[t] == ks0[t];
    assert ks[a] == ks0[a];
    if j == m - 1 {
      assert ks[a] in ks0;
      KeyListed(ps, m - 1, ks[a]);
      var i :| 0 <= i < m - 1 && KeyOf(ps[i]) == Some(ks[a]);
    } else {
      KeyListed(ps, m - 1, ks[b]);
      assert ks[b] in ks0 by {
        assert 0 <= j < m - 1 && KeyOf(ps[j]) == Some(ks[b]);
      }
      assert b < |ks0|;
      assert ks[b] == ks0[b];
      KeyBefore(ps, m - 1, a, b, j);
    }
  }

  /** The group of `k` among the first `m` events is empty exactly when none of them carries `k`. */
  lemma {:induction false} PrefixGroupEmpty(ps: seq<Event>, m: nat, k: string)
    requires m <= |ps|
    ensures Group(ps[..m], k) == [] <==> forall i :: 0 <= i < m ==> KeyOf(ps[i]) != Some(k)
    decreases m
  {
    if m > 0 {
      PrefixGroupEmpty(ps, m - 1, k);
      var front := ps[..m];
      assert front[..m - 1] == ps[..m - 1] && front[m - 1] == ps[m - 1];
      assert Group(front, k) == Group(ps[..m - 1], k) + (if KeyOf(ps[m - 1]) == Some(k) then [ps[m - 1]] else []);
    }
  }

  /** Of two event lists whose groups agree in size on `ks`, the excess over `ks` is the same. */
  lemma {:induction false} ExcessFrame(a: seq<Event>, b: seq<Event>, ks: seq<string>)
    requires forall t :: 0 <= t < |ks| ==> |Group(a, ks[t])| == |Group(b, ks[t])|
    ensures Excess(a, ks) == Excess(b, ks)
    decreases |ks|
  {
    if ks != [] {
      ExcessFrame(a, b, ks[..|ks| - 1]);
    }
  }

  /** One more member in the non-empty group of a key listed once adds one to the excess. */
  lemma {:induction false} ExcessGrow(a: seq<Event>, b: seq<Event>, ks: seq<string>, k: string)
    requires k in ks && forall x, y :: 0 <= x < y < |ks| ==> ks[x] != ks[y]
    requires |Group(a, k)| >= 1 && |Group(b, k)| == |Group(a, k)| + 1
    requires forall t :: 0 <= t < |ks| && ks[t] != k ==> |Group(a, ks[t])| == |Group(b, ks[t])|
    ensures Excess(b, ks) == Excess(a, ks) + 1
    decreases |ks|
  {
    var front := ks[..|ks| - 1];
    if ks[|ks| - 1] == k {
      assert k !in front;
      ExcessFrame(a, b, front);
    } else {
      assert k in front;
      ExcessGrow(a, b, front, k);
    }
  }

  /** The positions whose key occurred before number the excess of the groups so far. */
  lemma {:induction false} RepeatsCount(ps: seq<Event>, m: nat)
    requires m <= |ps|
    ensures |RepeatsBelow(ps, m)| == Excess(ps[..m], KeysUpTo(ps, m))
    decreases m
  {
    if m > 0 {
      var n := m - 1;
      RepeatsCount(ps, n);
      RepeatsStep(ps, m);
      var key := KeyOf(ps[n]);
      if key.None? {
        ExcessUnkeyed(ps, n);
      } else if key.value in KeysUpTo(ps, n) {
        ExcessRepeat(ps, n, key.value);
      } else {
        ExcessFresh(ps, n, key.value);
      }
    }
  }

  /** An event without a key changes neither the keys nor the excess. */
  lemma {:induction false} ExcessUnkeyed(ps: seq<Event>, n: nat)
    requires n < |ps| && KeyOf(ps[n]).None?
    ensures !Repeats(ps, n)
    ensures Excess(ps[..n + 1], KeysUpTo(ps, n + 1)) == Excess(ps[..n], KeysUpTo(ps, n))
  {
    GroupStep(ps, n);
    ExcessFrame(ps[..n], ps[..n + 1], KeysUpTo(ps, n));
  }

  /** An event whose key occurred before repeats, and adds one to the excess. */
  lemma {:induction false} ExcessRepeat(ps: seq<Event>, n: nat, k: string)
    requires n < |ps| && KeyOf(ps[n]) == Some(k) && k in KeysUpTo(ps, n)
    ensures Repeats(ps, n)
    ensures Excess(ps[..n + 1], KeysUpTo(ps, n + 1)) == Excess(ps[..n], KeysUpTo(ps, n)) + 1
  {
    KeysMembers(ps, n);
    GroupStep(ps, n);
    var i :| 0 <= i < n && KeyOf(ps[i]) == Some(k);
    PrefixGroupEmpty(ps, n, k);
    ExcessGrow(ps[..n], ps[..n + 1], KeysUpTo(ps, n), k);
  }

  /** An event with a new key does not repeat; its group of one adds nothing. */
  lemma {:induction false} ExcessFresh(ps: seq<Event>, n: nat, k: string)
    requires n < |ps| && KeyOf(ps[n]) == Some(k) && k !in KeysUpTo(ps, n)
    ensures !Repeats(ps, n)
    ensures Excess(ps[..n + 1], KeysUpTo(ps, n + 1)) == Excess(ps[..n], KeysUpTo(ps, n))
  {
    var ks := KeysUpTo(ps, n);
    KeysMembers(ps, n);
    GroupStep(ps, n);
    PrefixGroupEmpty(ps, n, k);
    assert forall t :: 0 <= t < |ks| ==> ks[t] != k;
    ExcessFrame(ps[..n], ps[..n + 1], ks);
    assert KeysUpTo(ps, n + 1) == ks + [k];
    assert (ks + [k])[..|ks|] == ks;
  }

  /** An event is merged away exactly when an earlier event carries its key. */
  lemma {:induction false} SkippedRepeats(ps: seq<Event>, j: nat)
    requires Indexed(ps) && j < |ps|
    ensures Skipped(ps, j) <==> Repeats(ps, j)
  {
    if KeyOf(ps[j]).Some? {
      if Skipped(ps, j) {
        SkippedHasEarlier(ps, j);
      }
      if Repeats(ps, j) {
        var i :| 0 <= i < j && KeyOf(ps[i]) == KeyOf(ps[j]);
        EarlierSkips(ps, i, j);
      }
    }
  }

  /** A merged-away event follows the first member of its group. */
  lemma {:induction false} SkippedHasEarlier(ps: seq<Event>, j: nat)
    requires Indexed(ps) && j < |ps| && Skipped(ps, j)
    ensures Repeats(ps, j)
  {
    var k := KeyOf(ps[j]).value;
    var g := Group(ps, k);
    GroupFacts(ps, k);
    var t :| 0 <= t < |g| && g[t].index == j;
    assert t != 0;
    var i := g[0].index;
    assert i < j && KeyOf(ps[i]) == Some(k);
  }

  /** An event after another with the same key is merged away. */
  lemma {:induction false} EarlierSkips(ps: seq<Event>, i: nat, j: nat)
    requires Indexed(ps) && i < j < |ps| && KeyOf(ps[j]).Some? && KeyOf(ps[i]) == KeyOf(ps[j])
    ensures Skipped(ps, j)
  {
    var k := KeyOf(ps[j]).value;
    var g := Group(ps, k);
    GroupFacts(ps, k);
    var t :| 0 <= t < |g| && g[t].index == j;
    var u :| 0 <= u < |g| && g[u].index == i;
    assert u < t;
    assert g[0].index != j;
  }

  /** How many positions below `m` are merged away. */
  function SkipCount(ps: seq<Event>, m: nat): nat
    requires m <= |ps|
  {
    if m == 0 then 0 else SkipCount(ps, m - 1) + (if Skipped(ps, m - 1) then 1 else 0)
  }

  /** Every position below `m` is either kept or merged away, and not both. */
  lemma {:induction false} KeptSize(ps: seq<Event>, m: nat)
    requires m <= |ps|
    ensures |Kept(ps, m)| + SkipCount(ps, m) == m
    decreases m
  {
    if m > 0 {
      KeptSize(ps, m - 1);
      KeptStep(ps, m);
    }
  }

  /** The positions merged away are as many as those whose key occurred before. */
  lemma {:induction false} SkipCountRepeats(ps: seq<Event>, m: nat)
    requires Indexed(ps) && m <= |ps|
    ensures SkipCount(ps, m) == |RepeatsBelow(ps, m)|
    decreases m
  {
    if m > 0 {
      SkipCountRepeats(ps, m - 1);
      SkippedRepeats(ps, m - 1);
      RepeatsStep(ps, m);
    }
  }

  /** One more position is kept exactly when it is not merged away. */
  lemma {:induction false} KeptStep(ps: seq<Event>, m: nat)
    requires 0 < m <= |ps|
    ensures |Kept(ps, m)| == |Kept(ps, m - 1)| + (if Skipped(ps, m - 1) then 0 else 1)
  {
  }

  /** One more position repeats an earlier key or does not. */
  lemma {:induction false} RepeatsStep(ps: seq<Event>, m: nat)
    requires 0 < m <= |ps|
    ensures |RepeatsBelow(ps, m)| == |RepeatsBelow(ps, m - 1)| + (if Repeats(ps, m - 1) then 1 else 0)
  {
    BelowBound(ps, m - 1);
    var r0 := RepeatsBelow(ps, m - 1);
    if Repeats(ps, m - 1) {
      assert RepeatsBelow(ps, m) == r0 + {m - 1} && m - 1 !in r0;
    } else {
      assert RepeatsBelow(ps, m) == r0;
    }
  }



  /** The positions merged away are those whose key occurred before. */
  lemma {:induction false} SkippedSet(ps: seq<Event>, n: nat)
    requires Indexed(ps) && n <= |ps|
    ensures (set j: nat | j < n && Skipped(ps, j)) == RepeatsBelow(ps, n)
  {
    forall j: nat | j < n ensures Skipped(ps, j) <==> Repeats(ps, j) {
      SkippedRepeats(ps, j);
    }
    BelowMembers(ps, n);
  }

  /**
   * The number of links out: the links in, less one for every link merged
   * away, which is the sum of `|group| - 1` over the person-and-date groups
   * of two or more.
   */
  lemma {:induction false} CombineCount(links: seq<string>)
    ensures var ps := ParseAll(links);
            |CombineSpec(links)| == |links| - |set j: nat | j < |links| && Skipped(ps, j)| &&
            |CombineSpec(links)| == |links| - Excess(ps, KeysUpTo(ps, |links|))
  {
    var ps := ParseAll(links);
    assert Indexed(ps);
    OutputByKept(ps, |links|);
    KeptSize(ps, |links|);
    SkipCountRepeats(ps, |links|);
    SkippedSet(ps, |links|);
    RepeatsCount(ps, |links|);
    assert ps[..|links|] == ps;
  }

  /** The first link is never merged away, so links in give at least one link out. */
  lemma {:induction false} CombineNonEmpty(links: seq<string>)
    requires links != []
    ensures CombineSpec(links) != []
  {
    var ps := ParseAll(links);
    FirstKept(ps);
    KeptMembers(ps, |links|);
    OutputByKept(ps, |links|);
  }

  /** The first event leads its group when it has one. */
  lemma {:induction false} FirstKept(ps: seq<Event>)
    requires Indexed(ps) && ps != []
    ensures !Skipped(ps, 0)
  {
    if KeyOf(ps[0]).Some? {
      GroupOfFirst(ps, KeyOf(ps[0]).value);
    }
  }

  /** The group of the first event's key starts with that event. */
  lemma {:induction false} GroupOfFirst(ps: seq<Event>, k: string)
    requires Indexed(ps) && ps != [] && KeyOf(ps[0]) == Some(k)
    ensures Group(ps, k) != [] && Group(ps, k)[0].index == 0
    decreases |ps|
  {
    var n := |ps| - 1;
    GroupStep(ps, n);
    assert ps[..n + 1] == ps;
    if n == 0 {
      assert Group(ps[..0], k) == [];
    } else {
      assert Indexed(ps[..n]) && ps[..n][0] == ps[0];
      GroupOfFirst(ps[..n], k);
    }
  }

  /** The merged link of every group of two or more appears in the output. */
  lemma {:induction false} MergedPresent(links: seq<string>, k: string)
    requires |Group(ParseAll(links), k)| > 1
    ensures CombinedLink(Group(ParseAll(links), k)) in CombineSpec(links)
  {
    var ps := ParseAll(links);
    assert Indexed(ps);
    FirstLeads(ps, k);
    var j := Group(ps, k)[0].index;
    assert !Skipped(ps, j);
    KeptFacts(ps, |links|);
    OutputByKept(ps, |links|);
    var ks := Kept(ps, |links|);
    var t :| 0 <= t < |ks| && ks[t] == j;
    assert CombineSpec(links)[t] == Shown(ps, j);
  }

  /** A link without both a person and a date is kept as it is. */
  lemma {:induction false} UnkeyedPresent(links: seq<string>, j: nat)
    requires j < |links| && KeyOf(ParseAll(links)[j]).None?
    ensures links[j] in CombineSpec(links)
  {
    UnkeyedKept(ParseAll(links), j);
  }

  lemma {:induction false} UnkeyedKept(ps: seq<Event>, j: nat)
    requires j < |ps| && KeyOf(ps[j]).None?
    ensures ps[j].original in CombineOut(ps, |ps|)
  {
    KeptFacts(ps, |ps|);
    OutputByKept(ps, |ps|);
    var ks := Kept(ps, |ps|);
    assert !Skipped(ps, j) && !Leads(ps, j);
    assert j in ks;
    var t :| 0 <= t < |ks| && ks[t] == j;
    assert CombineOut(ps, |ps|)[t] == Shown(ps, j);
  }

  // ---------------------------------------------------------------------
  // Links that share no key, and combining twice

  /** No two events have the same key. */
  predicate NoSharedKey(ps: seq<Event>)
  {
    forall a, b :: 0 <= a < b < |ps| && KeyOf(ps[a]).Some? ==> KeyOf(ps[a]) != KeyOf(ps[b])
  }

  /** Without a shared key no group has two members. */
  lemma {:induction false} SmallGroups(ps: seq<Event>, k: string)
    requires Indexed(ps) && NoSharedKey(ps)
    ensures |Group(ps, k)| <= 1
  {
    var g := Group(ps, k);
    GroupFacts(ps, k);
    if |g| > 1 {
      GroupMember(ps, k, 0);
      GroupMember(ps, k, 1);
      assert false;
    }
  }

  /** When no two links share a person and a date, `combineEvents` returns its input. */
  lemma {:induction false} Unchanged(links: seq<string>)
    requires NoSharedKey(ParseAll(links))
    ensures CombineSpec(links) == links
  {
    var ps := ParseAll(links);
    assert Indexed(ps);
    forall j | 0 <= j < |ps| && KeyOf(ps[j]).Some?
      ensures |Group(ps, KeyOf(ps[j]).value)| <= 1
    {
      SmallGroups(ps, KeyOf(ps[j]).value);
    }
    UnchangedUpTo(ps, links, |links|);
    assert links[..|links|] == links;
  }

  lemma {:induction false} UnchangedUpTo(ps: seq<Event>, links: seq<string>, m: nat)
    requires |ps| == |links| && m <= |links| && forall j :: 0 <= j < |ps| ==> ps[j].original == links[j]
    requires forall j :: 0 <= j < |ps| && KeyOf(ps[j]).Some? ==> |Group(ps, KeyOf(ps[j]).value)| <= 1
    ensures CombineOut(ps, m) == links[..m]
    decreases m
  {
    if m > 0 {
      UnchangedUpTo(ps, links, m - 1);
      assert !Skipped(ps, m - 1) && !Leads(ps, m - 1);
      assert links[..m] == links[..m - 1] + [links[m - 1]];
    }
  }

  /** The joined descriptions of one-line descriptions are one line. */
  lemma {:induction false} JoinOneLine(ds: seq<string>)
    requires ds != [] && forall t :: 0 <= t < |ds| ==> OneLine(ds[t])
    ensures OneLine(Join(ds, " and "))
    decreases |ds|
  {
    if |ds| > 1 {
      JoinOneLine(ds[1..]);
      var rest := Join(ds[1..], " and ");
      var j := Join(ds, " and ");
      assert j == ds[0] + " and " + rest;
      assert j[|j| - 1] == rest[|rest| - 1];
      assert forall k :: 0 <= k < |j| ==> j[k] in ds[0] || j[k] in " and " || j[k] in rest;
    }
  }

  /** Every keyed event has a name-shaped person, a one-line description and a date in one of the two forms. */
  predicate Shaped(ps: seq<Event>)
  {
    forall j :: 0 <= j < |ps| && KeyOf(ps[j]).Some? ==>
      IsName(ps[j].person.value) && OneLine(ps[j].description) && DateShaped(ps[j].date.value)
  }

  lemma {:induction false} ParsedShaped(links: seq<string>)
    ensures Shaped(ParseAll(links))
  {
    var ps := ParseAll(links);
    forall j | 0 <= j < |ps| && KeyOf(ps[j]).Some?
      ensures IsName(ps[j].person.value) && OneLine(ps[j].description) && DateShaped(ps[j].date.value)
    {
      assert ps[j] == ParseEvent(links[j], j);
      KeyedEvent(links[j], j);
    }
  }

  /** A merged link reads back with the key of its group. */
  lemma {:induction false} MergedKey(ps: seq<Event>, k: string, index: nat)
    requires Indexed(ps) && Shaped(ps) && |Group(ps, k)| > 1
    ensures KeyOf(ParseEvent(CombinedLink(Group(ps, k)), index)) == Some(k)
  {
    var g := Group(ps, k);
    forall t | 0 <= t < |g| ensures OneLine(g[t].description) {
      GroupMember(ps, k, t);
    }
    JoinOneLine(Descriptions(g));
    GroupMember(ps, k, 0);
    var p := g[0].person.value;
    var d := Join(Descriptions(g), " and ");
    var date := g[0].date.value;
    assert CombinedLink(g) == "[[" + EventText(p, d, date) + "]]";
    ReadBack(p, d, date, index);
  }

  /** What stands at a kept position reads back with the key of the event there. */
  lemma {:induction false} ShownKey(links: seq<string>, j: nat, index: nat)
    requires j < |links|
    ensures KeyOf(ParseEvent(Shown(ParseAll(links), j), index)) == KeyOf(ParseAll(links)[j])
  {
    var ps := ParseAll(links);
    assert ps[j] == ParseEvent(links[j], j);
    if Leads(ps, j) {
      ParsedShaped(links);
      MergedKey(ps, KeyOf(ps[j]).value, index);
    }
  }

  /** After combining, no two links share a person and a date. */
  lemma {:induction false} OutputShareless(links: seq<string>)
    ensures NoSharedKey(ParseAll(CombineSpec(links)))
  {
    var qs := ParseAll(CombineSpec(links));
    forall a, b | 0 <= a < b < |qs| && KeyOf(qs[a]).Some?
      ensures KeyOf(qs[a]) != KeyOf(qs[b])
    {
      OutputPairDiffers(links, a, b);
    }
  }

  /** Two places of the output never carry the same key. */
  lemma {:induction false} OutputPairDiffers(links: seq<string>, a: nat, b: nat)
    requires a < b < |CombineSpec(links)|
    ensures var qs := ParseAll(CombineSpec(links));
            KeyOf(qs[a]).Some? ==> KeyOf(qs[a]) != KeyOf(qs[b])
  {
    var ps := ParseAll(links);
    var ks := Kept(ps, |links|);
    OutputKey(links, a);
    OutputKey(links, b);
    KeptFacts(ps, |links|);
    assert ks[a] < ks[b];
    assert ks[a] in ks && ks[b] in ks;
    if KeyOf(ps[ks[a]]).Some? && KeyOf(ps[ks[a]]) == KeyOf(ps[ks[b]]) {
      SameKeyKept(ps, ks[a], ks[b]);
      assert false;
    }
  }

  /** The key at a place of the output is the key of the event kept there. */
  lemma {:induction false} OutputKey(links: seq<string>, t: nat)
    requires t < |CombineSpec(links)|
    ensures var ps := ParseAll(links);
            var ks := Kept(ps, |links|);
            t < |ks| && ks[t] < |links| &&
            KeyOf(ParseAll(CombineSpec(links))[t]) == KeyOf(ps[ks[t]])
  {
    var ps := ParseAll(links);
    var ks := Kept(ps, |links|);
    OutputByKept(ps, |links|);
    assert ParseAll(CombineSpec(links))[t] == ParseEvent(Shown(ps, ks[t]), t);
    ShownKey(links, ks[t], t);
  }

  /**
   * The combiner brings in no line feed: a merged link is made of a name,
   * one-line descriptions and a date.
   */
  lemma {:induction false} CombineLineFree(links: seq<string>)
    requires forall j :: 0 <= j < |links| ==> '\n' !in links[j]
    ensures forall t :: 0 <= t < |CombineSpec(links)| ==> '\n' !in CombineSpec(links)[t]
  {
    var ps := ParseAll(links);
    ParsedShaped(links);
    OutputByKept(ps, |links|);
    var ks := Kept(ps, |links|);
    forall t | 0 <= t < |ks| ensures '\n' !in Shown(ps, ks[t]) {
      ShownLineFree(ps, links, ks[t]);
    }
  }

  /** What stands at a kept place holds no line feed when no link does. */
  lemma {:induction false} ShownLineFree(ps: seq<Event>, links: seq<string>, j: nat)
    requires Indexed(ps) && Shaped(ps) && |ps| == |links| && j < |ps|
    requires forall i :: 0 <= i < |ps| ==> ps[i].original == links[i] && '\n' !in links[i]
    ensures '\n' !in Shown(ps, j)
  {
    if Leads(ps, j) {
      var k := KeyOf(ps[j]).value;
      var g := Group(ps, k);
      GroupMember(ps, k, 0);
      forall u | 0 <= u < |g| ensures OneLine(g[u].description) {
        GroupMember(ps, k, u);
      }
      MergedLineFree(g);
    }
  }

  /** A merged link of shaped events holds no line feed. */
  lemma {:induction false} MergedLineFree(g: seq<Event>)
    requires g != [] && KeyOf(g[0]).Some?
    requires IsName(g[0].person.value) && DateShaped(g[0].date.value)
    requires forall u :: 0 <= u < |g| ==> OneLine(g[u].description)
    ensures '\n' !in CombinedLink(g)
  {
    var p := g[0].person.value;
    var date := g[0].date.value;
    var ds := Descriptions(g);
    NameLetters(p);
    JoinOneLine(ds);
    var j := Join(ds, " and ");
    assert forall k :: 0 <= k < |date| ==> IsDigit(date[k]) || date[k] == '-';
    assert '\n' !in p && '\n' !in j && '\n' !in date;
  }

  /** Two kept positions never carry the same key. */
  lemma {:induction false} SameKeyKept(ps: seq<Event>, i: nat, j: nat)
    requires Indexed(ps) && i < j < |ps| && KeyOf(ps[i]).Some? && KeyOf(ps[i]) == KeyOf(ps[j])
    ensures Skipped(ps, i) || Skipped(ps, j)
  {
    var k := KeyOf(ps[i]).value;
    var g := Group(ps, k);
    GroupFacts(ps, k);
    var ti :| 0 <= ti < |g| && g[ti].index == i;
    var tj :| 0 <= tj < |g| && g[tj].index == j;
    assert ti != tj;
  }

  /** Combining a second time changes nothing. */
  lemma {:induction false} CombineIdempotent(links: seq<string>)
    ensures CombineSpec(CombineSpec(links)) == CombineSpec(links)
  {
    OutputShareless(links);
    Unchanged(CombineSpec(links));
  }

  // ---------------------------------------------------------------------
  // The example of the source's comment

  /** An event without a key is shown as its own link. */
  lemma {:induction false} EmitUnkeyed(ps: seq<Event>, j: nat)
    requires j < |ps| && KeyOf(ps[j]).None?
    ensures Emit(ps, j) == [ps[j].original]
  {
  }

  /** The group of the example: the second and the fourth event. */
  lemma {:induction false} ExampleGroup(ps: seq<Event>, k: string)
    requires |ps| == 5
    requires KeyOf(ps[0]).None? && KeyOf(ps[2]).None? && KeyOf(ps[4]).None?
    requires KeyOf(ps[1]) == Some(k) && KeyOf(ps[3]) == Some(k)
    ensures Group(ps, k) == [ps[1], ps[3]]
  {
    assert ps[..5] == ps;
    assert ps[..5][..4] == ps[..4] && ps[..4][..3] == ps[..3] && ps[..3][..2] == ps[..2];
    assert ps[..2][..1] == ps[..1] && ps[..1][..0] == [];
    assert Group(ps[..1], k) == [];
    assert Group(ps[..2], k) == [ps[1]];
    assert Group(ps[..3], k) == [ps[1]];
    assert Group(ps[..4], k) == [ps[1], ps[3]];
  }

  /** Five events: three without a key around two with the same key. */
  lemma {:induction false} ExampleShape(ps: seq<Event>, k: string)
    requires |ps| == 5 && Indexed(ps)
    requires KeyOf(ps[0]).None? && KeyOf(ps[2]).None? && KeyOf(ps[4]).None?
    requires KeyOf(ps[1]) == Some(k) && KeyOf(ps[3]) == Some(k)
    ensures CombineOut(ps, 5) == [ps[0].original, CombinedLink([ps[1], ps[3]]), ps[2].original, ps[4].original]
  {
    ExampleGroup(ps, k);
    EmitUnkeyed(ps, 0);
    EmitUnkeyed(ps, 2);
    EmitUnkeyed(ps, 4);
    assert Emit(ps, 1) == [CombinedLink([ps[1], ps[3]])];
    assert Emit(ps, 3) == [];
    assert CombineOut(ps, 1) == [ps[0].original];
    assert CombineOut(ps, 2) == [ps[0].original, CombinedLink([ps[1], ps[3]])];
    assert CombineOut(ps, 4) == [ps[0].original, CombinedLink([ps[1], ps[3]]), ps[2].original];
  }

  /**
   * Two links for one person on one date among three other short links:
   * the second is merged into the first, `d1 and d2`, and the rest stay.
   */
  lemma {:induction false} MergeTwo(links: seq<string>, p: string, d1: string, d2: string, date: string)
    requires IsName(p) && OneLine(d1) && OneLine(d2) && !IsSpace(d1[0]) && !IsSpace(d2[0]) && DateShaped(date)
    requires |links| == 5 && |links[0]| < 8 && |links[2]| < 8 && |links[4]| < 8
    requires links[1] == "[[" + EventText(p, d1, date) + "]]" && links[3] == "[[" + EventText(p, d2, date) + "]]"
    ensures CombineSpec(links) == [links[0], "[[" + EventText(p, d1 + " and " + d2, date) + "]]", links[2], links[4]]
  {
    var ps := ParseAll(links);
    ExampleEvents(links, ps, p, d1, d2, date);
    ExampleShape(ps, p + "|" + date);
    MergedText(ps[1], ps[3], p, d1, d2, date);
  }

  /** The link that merges two events of one person on one date. */
  lemma {:induction false} MergedText(x: Event, y: Event, p: string, d1: string, d2: string, date: string)
    requires x.person == Some(p) && x.date == Some(date) && p != [] && date != []
    requires x.description == d1 && y.description == d2
    ensures KeyOf(x).Some?
    ensures CombinedLink([x, y]) == "[[" + EventText(p, d1 + " and " + d2, date) + "]]"
  {
    assert Descriptions([x, y]) == [d1, d2];
    assert Join([d1, d2], " and ") == d1 + " and " + d2;
  }

  /** The keys, descriptions and links of the five parsed events. */
  lemma {:induction false} ExampleEvents(links: seq<string>, ps: seq<Event>, p: string, d1: string, d2: string, date: string)
    requires IsName(p) && OneLine(d1) && OneLine(d2) && !IsSpace(d1[0]) && !IsSpace(d2[0]) && DateShaped(date)
    requires |links| == 5 && |links[0]| < 8 && |links[2]| < 8 && |links[4]| < 8
    requires links[1] == "[[" + EventText(p, d1, date) + "]]" && links[3] == "[[" + EventText(p, d2, date) + "]]"
    requires ps == ParseAll(links)
    ensures |ps| == 5 && Indexed(ps)
    ensures KeyOf(ps[0]).None? && KeyOf(ps[2]).None? && KeyOf(ps[4]).None?
    ensures KeyOf(ps[1]) == Some(p + "|" + date) && KeyOf(ps[3]) == Some(p + "|" + date)
    ensures ps[1].person == Some(p) && ps[1].date == Some(date)
    ensures ps[1].description == d1 && ps[3].description == d2
    ensures ps[0].original == links[0] && ps[2].original == links[2] && ps[4].original == links[4]
  {
    ShortUnkeyed(links[0], 0);
    ShortUnkeyed(links[2], 2);
    ShortUnkeyed(links[4], 4);
    ReadBack(p, d1, date, 1);
    ReadBack(p, d2, date, 3);
  }

  /**
   * The example in the comment above `combineEvents`, with the person, the
   * descriptions and the date it uses; `Event 1` to `Event 3` stand for any
   * links of fewer than eight characters.
   */
  lemma {:induction false} CommentExample(e1: string, e2: string, e3: string, p: string, d1: string, d2: string, date: string)
    requires |e1| < 8 && |e2| < 8 && |e3| < 8
    requires p == "Jacob" && d1 == "one-on-one" && d2 == "Career Discussion" && date == "2026-02-18"
    ensures CombineSpec([e1, "[[" + EventText(p, d1, date) + "]]", e2, "[[" + EventText(p, d2, date) + "]]", e3]) ==
            [e1, "[[" + EventText(p, d1 + " and " + d2, date) + "]]", e2, e3]
  {
    ExampleParts(p, d1, d2, date);
    var links := [e1, "[[" + EventText(p, d1, date) + "]]", e2, "[[" + EventText(p, d2, date) + "]]", e3];
    MergeTwo(links, p, d1, d2, date);
  }

  /** Two links for one person on one date, and nothing else: they become one merged link. */
  lemma {:induction false} MergePair(p: string, d1: string, d2: string, date: string)
    requires IsName(p) && OneLine(d1) && OneLine(d2) && !IsSpace(d1[0]) && !IsSpace(d2[0]) && DateShaped(date)
    ensures CombineSpec(["[[" + EventText(p, d1, date) + "]]", "[[" + EventText(p, d2, date) + "]]"]) ==
            ["[[" + EventText(p, d1 + " and " + d2, date) + "]]"]
  {
    var links := ["[[" + EventText(p, d1, date) + "]]", "[[" + EventText(p, d2, date) + "]]"];
    var ps := ParseAll(links);
    PairEvents(links, ps, p, d1, d2, date);
    PairShape(ps, p + "|" + date);
    MergedText(ps[0], ps[1], p, d1, d2, date);
  }

  /** The keys and descriptions of the two parsed events. */
  lemma {:induction false} PairEvents(links: seq<string>, ps: seq<Event>, p: string, d1: string, d2: string, date: string)
    requires IsName(p) && OneLine(d1) && OneLine(d2) && !IsSpace(d1[0]) && !IsSpace(d2[0]) && DateShaped(date)
    requires links == ["[[" + EventText(p, d1, date) + "]]", "[[" + EventText(p, d2, date) + "]]"]
    requires ps == ParseAll(links)
    ensures |ps| == 2 && Indexed(ps)
    ensures KeyOf(ps[0]) == Some(p + "|" + date) && KeyOf(ps[1]) == Some(p + "|" + date)
    ensures ps[0].person == Some(p) && ps[0].date == Some(date)
    ensures ps[0].description == d1 && ps[1].description == d2
  {
    ReadBack(p, d1, date, 0);
    ReadBack(p, d2, date, 1);
  }

  /** Two events with the same key: the output is their merged link alone. */
  lemma {:induction false} PairShape(ps: seq<Event>, k: string)
    requires |ps| == 2 && Indexed(ps)
    requires KeyOf(ps[0]) == Some(k) && KeyOf(ps[1]) == Some(k)
    ensures CombineOut(ps, 2) == [CombinedLink([ps[0], ps[1]])]
  {
    assert ps[..2] == ps && ps[..2][..1] == ps[..1] && ps[..1][..0] == [];
    assert Group(ps[..1], k) == [ps[0]];
    assert Group(ps, k) == [ps[0], ps[1]];
    assert Emit(ps, 0) == [CombinedLink([ps[0], ps[1]])];
    assert Emit(ps, 1) == [];
    assert CombineOut(ps, 1) == [CombinedLink([ps[0], ps[1]])];
  }

  /** Jacob's one-on-one and career discussion on 2026-02-18, alone in the list, merge into one link. */
  lemma {:induction false} PairExample(p: string, d1: string, d2: string, date: string)
    requires p == "Jacob" && d1 == "one-on-one" && d2 == "Career Discussion" && date == "2026-02-18"
    ensures CombineSpec(["[[" + EventText(p, d1, date) + "]]", "[[" + EventText(p, d2, date) + "]]"]) ==
            ["[[" + EventText(p, d1 + " and " + d2, date) + "]]"]
  {
    ExampleParts(p, d1, d2, date);
    MergePair(p, d1, d2, date);
  }

  lemma {:induction false} ExampleParts(p: string, d1: string, d2: string, date: string)
    requires p == "Jacob" && d1 == "one-on-one" && d2 == "Career Discussion" && date == "2026-02-18"
    ensures IsName(p) && OneLine(d1) && OneLine(d2) && !IsSpace(d1[0]) && !IsSpace(d2[0]) && DateShaped(date)
  {
    assert Word(p, 0, 5);
    assert Dates.At(Dates.DashForm, date, 0);
  }

  // ---------------------------------------------------------------------
  // The algorithm

  /** `combineEvents(wikilinks)`: group, mark, then assemble in the original order. */
  method CombineEvents(links: seq<string>) returns (result: seq<string>)
    ensures result == CombineSpec(links)
  {
    var parsed := ParseAll(links);
    assert Indexed(parsed);
    var groups, keys := GroupByKey(parsed);
    var skip, combined := MarkGroups(parsed, groups, keys);
    result := Assemble(parsed, skip, combined);
  }

  /**
   * The first loop: the events with a person and a date, grouped by
   * `person|date`, and the keys in the order they first appear.
   */
  method GroupByKey(parsed: seq<Event>) returns (groups: map<string, seq<Event>>, keys: seq<string>)
    ensures forall k :: k in groups <==> k in keys
    ensures forall a, b :: 0 <= a < b < |keys| ==> keys[a] != keys[b]
    ensures forall k :: k in groups ==> groups[k] == Group(parsed, k)
    ensures forall k :: k !in groups ==> Group(parsed, k) == []
    ensures keys == KeysUpTo(parsed, |parsed|)
  {
    groups := map[];
    keys := [];
    for n := 0 to |parsed|
      invariant GroupsUpTo(parsed, n, groups, keys)
      invariant keys == KeysUpTo(parsed, n)
    {
      var event := parsed[n];
      KeysStep(parsed, n);
      if event.person.Some? && event.person.value != [] && event.date.Some? && event.date.value != [] {
        var key := event.person.value + "|" + event.date.value;
        assert KeyOf(event) == Some(key);
        if key in groups {
          GroupsAppend(parsed, n, groups, keys, key);
          groups := groups[key := groups[key] + [event]];
        } else {
          GroupsOpen(parsed, n, groups, keys, key);
          groups := groups[key := [event]];
          keys := keys + [key];
        }
      } else {
        GroupsSkip(parsed, n, groups, keys);
      }
    }
    assert parsed[..|parsed|] == parsed;
  }

  /** The first loop's invariant: `groups` and `keys` describe the groups of the first `n` events. */
  ghost predicate GroupsUpTo(parsed: seq<Event>, n: nat, groups: map<string, seq<Event>>, keys: seq<string>)
    requires n <= |parsed|
  {
    (forall k :: k in groups <==> k in keys) &&
    (forall a, b :: 0 <= a < b < |keys| ==> keys[a] != keys[b]) &&
    (forall k :: k in groups ==> groups[k] == Group(parsed[..n], k)) &&
    (forall k :: k !in groups ==> Group(parsed[..n], k) == [])
  }

  /** One more event adds its key to the list when it is new. */
  lemma {:induction false} KeysStep(parsed: seq<Event>, n: nat)
    requires n < |parsed|
    ensures var ks := KeysUpTo(parsed, n);
            var key := KeyOf(parsed[n]);
            KeysUpTo(parsed, n + 1) == if key.Some? && key.value !in ks then ks + [key.value] else ks
  {
  }

  /** An event without a key leaves every group as it is. */
  lemma {:induction false} GroupsSkip(parsed: seq<Event>, n: nat, groups: map<string, seq<Event>>, keys: seq<string>)
    requires n < |parsed| && GroupsUpTo(parsed, n, groups, keys) && KeyOf(parsed[n]).None?
    ensures GroupsUpTo(parsed, n + 1, groups, keys)
  {
    GroupStep(parsed, n);
  }

  /** An event whose key has a group joins the end of it. */
  lemma {:induction false} GroupsAppend(parsed: seq<Event>, n: nat, groups: map<string, seq<Event>>, keys: seq<string>, key: string)
    requires n < |parsed| && GroupsUpTo(parsed, n, groups, keys) && KeyOf(parsed[n]) == Some(key) && key in groups
    ensures GroupsUpTo(parsed, n + 1, groups[key := groups[key] + [parsed[n]]], keys)
  {
    GroupStep(parsed, n);
  }

  /** An event with a new key opens a group of its own, and the key joins the list. */
  lemma {:induction false} GroupsOpen(parsed: seq<Event>, n: nat, groups: map<string, seq<Event>>, keys: seq<string>, key: string)
    requires n < |parsed| && GroupsUpTo(parsed, n, groups, keys) && KeyOf(parsed[n]) == Some(key) && key !in groups
    ensures GroupsUpTo(parsed, n + 1, groups[key := [parsed[n]]], keys + [key])
  {
    GroupStep(parsed, n);
    assert key !in keys;
    assert Group(parsed[..n], key) == [];
  }

  /**
   * The second loop: for every group of two or more, its merged link at the
   * index of its first member, and the indices of the others to skip.
   */
  method MarkGroups(parsed: seq<Event>, groups: map<string, seq<Event>>, keys: seq<string>)
    returns (skip: set<nat>, combined: map<nat, string>)
    requires Indexed(parsed)
    requires forall k :: k in groups <==> k in keys
    requires forall a, b :: 0 <= a < b < |keys| ==> keys[a] != keys[b]
    requires forall k :: k in groups ==> groups[k] == Group(parsed, k)
    requires forall k :: k !in groups ==> Group(parsed, k) == []
    ensures forall j: nat :: j in skip <==> j < |parsed| && Skipped(parsed, j)
    ensures forall j: nat :: j in combined <==> j < |parsed| && Leads(parsed, j)
    ensures forall j: nat :: j in combined ==> j < |parsed| && combined[j] == Shown(parsed, j)
  {
    skip := {};
    combined := map[];
    for m := 0 to |keys|
      invariant forall j: nat :: j in skip <==>
        j < |parsed| && KeyOf(parsed[j]).Some? && Skipped(parsed, j) && KeyOf(parsed[j]).value in keys[..m]
      invariant forall j: nat :: j in combined <==>
        j < |parsed| && KeyOf(parsed[j]).Some? && Leads(parsed, j) && KeyOf(parsed[j]).value in keys[..m]
      invariant forall j: nat :: j in combined ==> j < |parsed| && combined[j] == Shown(parsed, j)
    {
      var key := keys[m];
      var events := groups[key];
      assert keys[..m + 1] == keys[..m] + [key];
      forall j: nat | j < |parsed| && KeyOf(parsed[j]) == Some(key)
        ensures KeyOf(parsed[j]).value !in keys[..m]
      {
        assert forall a :: 0 <= a < m ==> keys[a] != keys[m];
      }
      if |events| > 1 {
        var person := events[0].person.value;
        var date := events[0].date.value;
        var combinedText := Join(Descriptions(events), " and ");
        var link := "[[" + person + " " + combinedText + " " + date + "]]";
        FirstLeads(parsed, key);
        combined := combined[events[0].index := link];
        ghost var skip0 := skip;
        skip := SkipLater(events, skip);
        forall j: nat
          ensures j in skip <==> j in skip0 || (j < |parsed| && KeyOf(parsed[j]) == Some(key) && events[0].index != j)
        {
          GroupTail(parsed, key, j);
        }
      }
    }
    forall j: nat | j < |parsed| && KeyOf(parsed[j]).Some?
      ensures KeyOf(parsed[j]).value in keys
    {
      GroupHolds(parsed, j);
    }
    assert keys[..|keys|] == keys;
  }

  /** The inner loop of the second: the indices of every member after the first are added to `skip`. */
  method SkipLater(events: seq<Event>, skip0: set<nat>) returns (skip: set<nat>)
    ensures forall j: nat :: j in skip <==> j in skip0 || exists u :: 1 <= u < |events| && events[u].index == j
  {
    skip := skip0;
    var t := 1;
    while t < |events|
      invariant 1 <= t && (events != [] ==> t <= |events|)
      invariant forall j: nat :: j in skip <==> j in skip0 || exists u :: 1 <= u < t && u < |events| && events[u].index == j
    {
      skip := skip + {events[t].index};
      t := t + 1;
    }
  }

  /** The third loop: the output in the original order, skipping and substituting as marked. */
  method Assemble(parsed: seq<Event>, skip: set<nat>, combined: map<nat, string>) returns (result: seq<string>)
    requires forall j: nat :: j in skip <==> j < |parsed| && Skipped(parsed, j)
    requires forall j: nat :: j in combined <==> j < |parsed| && Leads(parsed, j)
    requires forall j: nat :: j in combined ==> j < |parsed| && combined[j] == Shown(parsed, j)
    ensures result == CombineOut(parsed, |parsed|)
  {
    result := [];
    for i := 0 to |parsed|
      invariant result == CombineOut(parsed, i)
    {
      if i in skip {
        continue;
      }
      if i in combined {
        result := result + [combined[i]];
      } else {
        result := result + [parsed[i].original];
      }
    }
  }
}
