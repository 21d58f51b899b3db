/** Extraction of IMDb title identifiers from a chart page (index.js, fetchImdbIds,
    lines 45-54). The page is given as the `href` attributes of its anchors, in
    document order; HTML parsing itself is not modelled. */
module TitleIds {
  import opened Outcomes

  /** The literal text before the digits of a title link: "/title/" and the "tt"
      that opens the captured identifier. */
  const TITLE_PREFIX: string := "/title/tt"

  /** Offset of the captured "tt" inside a match of the pattern. */
  const CAPTURE_OFFSET: nat := 7

  /** How many identifiers a chart yields at most (`slice(0, 100)`). */
  const MAX_IDS: nat := 100

  /** `\d` of a JavaScript regular expression without the `u` flag. */
  predicate IsDigit(c: char) { '0' <= c <= '9' }

  /** An IMDb title identifier: "tt" followed by one or more digits. */
  predicate IsImdbId(id: string)
  {
    |id| >= 3 && id[0] == 't' && id[1] == 't' && forall k :: 2 <= k < |id| ==> IsDigit(id[k])
  }

  predicate StartsWith(s: string, prefix: string)
  {
    |prefix| <= |s| && s[..|prefix|] == prefix
  }

  /** The CSS selector `a[href^="/title/tt"]` keeps this anchor. */
  predicate Selected(href: string)
  {
    StartsWith(href, TITLE_PREFIX)
  }

  /** The pattern `/\/title\/(tt\d+)/` matches `s` starting at position `p`. */
  predicate MatchesAt(s: string, p: nat)
  {
    p + |TITLE_PREFIX| < |s| && s[p..p + |TITLE_PREFIX|] == TITLE_PREFIX && IsDigit(s[p + |TITLE_PREFIX|])
  }

  /** `p` is the leftmost position at which the pattern matches `s`. */
  predicate Leftmost(s: string, p: nat)
  {
    MatchesAt(s, p) && forall q: nat :: q < p ==> !MatchesAt(s, q)
  }

  predicate NoDuplicates<T(==)>(s: seq<T>)
  {
    forall i, j :: 0 <= i < j < |s| ==> s[i] != s[j]
  }

  /** What a chart may yield: distinct identifiers, at most MAX_IDS of them. */
  predicate WellFormedList(ids: seq<string>)
  {
    NoDuplicates(ids) && |ids| <= MAX_IDS && forall k :: 0 <= k < |ids| ==> IsImdbId(ids[k])
  }

  /** The maximal run of digits of `s` that starts at position `i` (greedy `\d+`). */
  function DigitRun(s: string, i: nat): (run: string)
    requires i <= |s|
    decreases |s| - i
    ensures i + |run| <= |s| && run == s[i..i + |run|]
    ensures forall k :: 0 <= k < |run| ==> IsDigit(run[k])
    ensures i + |run| == |s| || !IsDigit(s[i + |run|])
  {
    if i < |s| && IsDigit(s[i]) then [s[i]] + DigitRun(s, i + 1) else []
  }

  /** Capture group 1 of a match at `p`: "tt" and all the digits that follow. */
  function Capture(s: string, p: nat): (id: string)
    requires MatchesAt(s, p)
    ensures IsImdbId(id)
    ensures p + CAPTURE_OFFSET + |id| <= |s| && id == s[p + CAPTURE_OFFSET..p + CAPTURE_OFFSET + |id|]
    ensures p + CAPTURE_OFFSET + |id| == |s| || !IsDigit(s[p + CAPTURE_OFFSET + |id|])
  {
    var run := DigitRun(s, p + |TITLE_PREFIX|);
    assert s[p + CAPTURE_OFFSET..p + |TITLE_PREFIX|] == "tt" by {
      assert s[p + CAPTURE_OFFSET..p + |TITLE_PREFIX|] == s[p..p + |TITLE_PREFIX|][CAPTURE_OFFSET..];
    }
    assert s[p + CAPTURE_OFFSET..p + |TITLE_PREFIX| + |run|]
        == s[p + CAPTURE_OFFSET..p + |TITLE_PREFIX|] + s[p + |TITLE_PREFIX|..p + |TITLE_PREFIX| + |run|];
    "tt" + run
  }

  /** The first position at or after `from` where the pattern matches, if any. */
  function FindMatch(s: string, from: nat): (r: Option<nat>)
    requires from <= |s|
    decreases |s| - from
    ensures r.Some? ==> from <= r.value && MatchesAt(s, r.value)
    ensures r.Some? ==> forall q: nat :: from <= q < r.value ==> !MatchesAt(s, q)
    ensures r.None? ==> forall q: nat :: from <= q ==> !MatchesAt(s, q)
  {
    if from == |s| then None
    else if MatchesAt(s, from) then Some(from)
    else FindMatch(s, from + 1)
  }

  /** `href.match(/\/title\/(tt\d+)/)`, reduced to its capture group 1: absent when
      the pattern matches nowhere, else the capture of the leftmost match. */
  function TitleMatch(href: string): (m: Option<string>)
    ensures m.None? <==> forall p: nat :: !MatchesAt(href, p)
    ensures m.Some? ==> IsImdbId(m.value)
    ensures m.Some? ==> exists p: nat :: Leftmost(href, p) && m.value == Capture(href, p)
  {
    match FindMatch(href, 0)
    case Some(p) => Some(Capture(href, p))
    case None => None
  }

  /** What one anchor adds to the Set: its capture when it is selected and matches. */
  function CaptureOf(href: string): (ids: seq<string>)
    ensures |ids| <= 1
  {
    if Selected(href) then
      match TitleMatch(href)
      case Some(id) => [id]
      case None => []
    else []
  }

  /** The captures of all anchors, in document order, repetitions included. */
  function Captures(hrefs: seq<string>): (ids: seq<string>)
    ensures |ids| <= |hrefs|
  {
    if hrefs == [] then [] else CaptureOf(hrefs[0]) + Captures(hrefs[1..])
  }

  /** The contents of a JavaScript `Set` after adding the elements of `s` in order:
      an element already present is neither re-added nor moved. */
  function Dedup<T(==)>(s: seq<T>): (d: seq<T>)
    ensures |d| <= |s|
  {
    if s == [] then []
    else
      var d := Dedup(s[..|s| - 1]);
      if s[|s| - 1] in d then d else d + [s[|s| - 1]]
  }

  /** `Array.prototype.slice(0, MAX_IDS)`. */
  function Truncate<T>(s: seq<T>): (r: seq<T>)
    ensures |r| <= MAX_IDS && r <= s
    ensures |r| < MAX_IDS ==> r == s
  {
    if |s| <= MAX_IDS then s else s[..MAX_IDS]
  }

  /** The list fetchImdbIds computes from a freshly fetched page. */
  function IdList(hrefs: seq<string>): (ids: seq<string>)
    ensures |ids| <= MAX_IDS && |ids| <= |hrefs|
  {
    Truncate(Dedup(Captures(hrefs)))
  }

  /** Index of the first occurrence of `x` in `s`. */
  function FirstIndex<T(==)>(s: seq<T>, x: T): (k: nat)
    requires x in s
    ensures k < |s| && s[k] == x
    ensures forall j :: 0 <= j < k ==> s[j] != x
  {
    if s[0] == x then 0 else 1 + FirstIndex(s[1..], x)
  }

  /** Processing one more anchor appends its capture. */
  lemma CapturesSnoc(hrefs: seq<string>, href: string)
    ensures Captures(hrefs + [href]) == Captures(hrefs) + CaptureOf(href)
  {
    CapturesAppend(hrefs, [href]);
    CapturesOfOne(href);
  }

  /** Adding one element to the Set. */
  lemma DedupSnoc<T>(s: seq<T>, x: T)
    ensures Dedup(s + [x]) == if x in Dedup(s) then Dedup(s) else Dedup(s) + [x]
  {
    assert (s + [x])[..|s|] == s;
  }

  /** The prefix of length `i + 1` extends the prefix of length `i` by one element. */
  lemma PrefixSnoc<T>(s: seq<T>, i: nat)
    requires i < |s|
    ensures s[..i + 1] == s[..i] + [s[i]]
  {
  }

  /** The `.each` callback of index.js:47-51 on one anchor: when the Set holds the
      captures of the anchors `seen` before it, afterwards it holds those of `seen`
      and this anchor. */
  method EachAnchor(ids: seq<string>, href: string, ghost seen: seq<string>) returns (ids': seq<string>)
    requires ids == Dedup(Captures(seen))
    ensures ids' == Dedup(Captures(seen + [href]))
  {
    var c := Captures(seen);
    CapturesSnoc(seen, href);
    ids' := ids;
    if Selected(href) {
      var m := TitleMatch(href);
      if m.Some? {
        DedupSnoc(c, m.value);
        if m.value !in ids {
          ids' := ids + [m.value];
        }
      } else {
        assert c + [] == c;
      }
    } else {
      assert c + [] == c;
    }
  }

  /** The `.each` loop of index.js:46-52 followed by `Array.from(ids).slice(0, 100)`. */
  method ExtractIds(hrefs: seq<string>) returns (list: seq<string>)
    ensures list == IdList(hrefs)
  {
    var ids: seq<string> := [];  // the insertion-ordered Set
    for i := 0 to |hrefs|
      invariant ids == Dedup(Captures(hrefs[..i]))
    {
      ids := EachAnchor(ids, hrefs[i], hrefs[..i]);
      PrefixSnoc(hrefs, i);
    }
    assert hrefs[..|hrefs|] == hrefs;
    list := if |ids| <= MAX_IDS then ids else ids[..MAX_IDS];
  }

  // ---------------------------------------------------------------------------
  // The ordered Set

  /** The Set holds each element once. */
  lemma {:induction false} DedupNoDuplicates<T>(s: seq<T>)
    ensures NoDuplicates(Dedup(s))
  {
    if s != [] {
      DedupNoDuplicates(s[..|s| - 1]);
    }
  }

  /** The Set holds exactly the elements added to it. */
  lemma {:induction false} DedupSameElements<T>(s: seq<T>)
    ensures forall x :: x in Dedup(s) <==> x in s
  {
    if s != [] {
      var init := s[..|s| - 1];
      DedupSameElements(init);
      assert s == init + [s[|s| - 1]];
    }
  }

  /** A first occurrence inside a prefix is the first occurrence overall. */
  lemma FirstIndexOfPrefix<T>(s: seq<T>, t: seq<T>, x: T)
    requires x in s
    ensures FirstIndex(s + t, x) == FirstIndex(s, x)
  {
    assert (s + t)[FirstIndex(s, x)] == x;
  }

  /** `d` lists elements of `s` in strictly increasing order of first occurrence. */
  predicate FirstOccurrenceOrdered<T(==)>(s: seq<T>, d: seq<T>)
  {
    (forall x :: x in d ==> x in s) &&
    forall i, j :: 0 <= i < j < |d| ==> FirstIndex(s, d[i]) < FirstIndex(s, d[j])
  }

  /** Appending to the page keeps the order of what was listed before. */
  lemma FirstOccurrenceOrderedExtend<T>(s: seq<T>, x: T, d: seq<T>)
    requires FirstOccurrenceOrdered(s, d)
    ensures FirstOccurrenceOrdered(s + [x], d)
  {
    forall y | y in s
      ensures FirstIndex(s + [x], y) == FirstIndex(s, y)
    {
      FirstIndexOfPrefix(s, [x], y);
    }
  }

  /** An element new to the page goes last in first-occurrence order. */
  lemma FirstOccurrenceOrderedAddNew<T>(s: seq<T>, x: T, d: seq<T>)
    requires FirstOccurrenceOrdered(s, d) && x !in s
    ensures FirstOccurrenceOrdered(s + [x], d + [x])
  {
    FirstOccurrenceOrderedExtend(s, x, d);
    var s', d' := s + [x], d + [x];
    assert FirstIndex(s', x) == |s|;
    forall i, j | 0 <= i < j < |d'|
      ensures FirstIndex(s', d'[i]) < FirstIndex(s', d'[j])
    {
      assert d'[i] == d[i] && d[i] in s;
      if j < |d| {
        assert d'[j] == d[j];
      }
    }
  }

  /** A prefix of an ordered listing is ordered. */
  lemma FirstOccurrenceOrderedPrefix<T>(s: seq<T>, d: seq<T>, e: seq<T>)
    requires FirstOccurrenceOrdered(s, d) && e <= d
    ensures FirstOccurrenceOrdered(s, e)
  {
    forall x | x in e ensures x in d {
      var k :| 0 <= k < |e| && e[k] == x;
      assert d[k] == x;
    }
  }

  /** The Set lists its elements in the order of their first occurrence. */
  lemma {:induction false} DedupFirstOccurrenceOrder<T>(s: seq<T>)
    ensures FirstOccurrenceOrdered(s, Dedup(s))
  {
    if s != [] {
      var init, x := s[..|s| - 1], s[|s| - 1];
      assert s == init + [x];
      DedupFirstOccurrenceOrder(init);
      DedupSameElements(init);
      if x in Dedup(init) {
        FirstOccurrenceOrderedExtend(init, x, Dedup(init));
      } else {
        FirstOccurrenceOrderedAddNew(init, x, Dedup(init));
      }
    }
  }

  /** Adding again what the Set already holds changes nothing. */
  lemma {:induction false} DedupIgnoresRepeats<T>(s: seq<T>, t: seq<T>)
    requires forall k :: 0 <= k < |t| ==> t[k] in s
    ensures Dedup(s + t) == Dedup(s)
  {
    if t == [] {
      assert s + t == s;
    } else {
      var init := t[..|t| - 1];
      assert s + t == (s + init) + [t[|t| - 1]];
      DedupIgnoresRepeats(s, init);
      DedupSameElements(s);
      DedupSnoc(s + init, t[|t| - 1]);
    }
  }

  /** Adding more elements never reorders or removes what the Set already lists. */
  lemma {:induction false} DedupPrefix<T>(s: seq<T>, t: seq<T>)
    ensures Dedup(s) <= Dedup(s + t)
  {
    if t == [] {
      assert s + t == s;
    } else {
      var init := t[..|t| - 1];
      assert s + t == (s + init) + [t[|t| - 1]];
      DedupPrefix(s, init);
      DedupSnoc(s + init, t[|t| - 1]);
    }
  }

  // ---------------------------------------------------------------------------
  // Captures of a page

  lemma {:induction false} CapturesAppend(a: seq<string>, b: seq<string>)
    ensures Captures(a + b) == Captures(a) + Captures(b)
  {
    if a == [] {
      assert a + b == b;
    } else {
      assert (a + b)[0] == a[0] && (a + b)[1..] == a[1..] + b;
      CapturesAppend(a[1..], b);
    }
  }

  /** What one anchor contributes: its capture exactly when it is selected and matches. */
  lemma CaptureOfExactly(href: string, id: string)
    ensures id in CaptureOf(href) <==> Selected(href) && TitleMatch(href) == Some(id)
  {
  }

  /** An identifier is captured exactly when some selected anchor's href yields it. */
  lemma {:induction false} CapturesExactly(hrefs: seq<string>)
    ensures forall id :: id in Captures(hrefs) <==>
      exists h :: h in hrefs && Selected(h) && TitleMatch(h) == Some(id)
  {
    if hrefs != [] {
      var first, rest := hrefs[0], hrefs[1..];
      assert hrefs == [first] + rest;
      CapturesExactly(rest);
      forall id ensures id in Captures(hrefs) <==> exists h :: h in hrefs && Selected(h) && TitleMatch(h) == Some(id)
      {
        CaptureOfExactly(first, id);
        if id in CaptureOf(first) {
          assert first in hrefs;
        }
        if h :| h in hrefs && Selected(h) && TitleMatch(h) == Some(id) {
          if h != first {
            assert h in rest;
          }
        }
      }
    }
  }

  /** Every captured text is a title identifier. */
  lemma {:induction false} CapturesAreIds(hrefs: seq<string>)
    ensures forall k :: 0 <= k < |Captures(hrefs)| ==> IsImdbId(Captures(hrefs)[k])
  {
    if hrefs != [] {
      CapturesAreIds(hrefs[1..]);
    }
  }

  // ---------------------------------------------------------------------------
  // The list fetchImdbIds returns

  /** A sequence without repetitions has as many distinct elements as positions. */
  lemma {:induction false} DistinctCardinality<T>(s: seq<T>)
    requires NoDuplicates(s)
    ensures |set x | x in s| == |s|
  {
    if s != [] {
      var init, last := s[..|s| - 1], s[|s| - 1];
      DistinctCardinality(init);
      assert (set x | x in s) == (set x | x in init) + {last};
      assert last !in (set x | x in init);
    }
  }

  /** The list starts the ordered Set and holds min(MAX_IDS, number of distinct
      identifiers captured) of them. */
  lemma IdListIsCappedSet(hrefs: seq<string>)
    ensures IdList(hrefs) <= Dedup(Captures(hrefs))
    ensures var unique := |set id | id in Captures(hrefs)|;
      |IdList(hrefs)| == if unique < MAX_IDS then unique else MAX_IDS
  {
    var c := Captures(hrefs);
    var d := Dedup(c);
    DedupNoDuplicates(c);
    DedupSameElements(c);
    assert (set id | id in d) == (set id | id in c);
    DistinctCardinality(d);
  }

  /** The list is well-formed: distinct title identifiers, at most MAX_IDS of them. */
  lemma IdListWellFormed(hrefs: seq<string>)
    ensures WellFormedList(IdList(hrefs))
  {
    var c := Captures(hrefs);
    DedupNoDuplicates(c);
    DedupSameElements(c);
    CapturesAreIds(hrefs);
    var list := IdList(hrefs);
    forall k | 0 <= k < |list|
      ensures IsImdbId(list[k])
    {
      assert list[k] in c;
    }
  }

  /** Every identifier listed was captured from a selected anchor whose href matches. */
  lemma IdListProvenance(hrefs: seq<string>)
    ensures forall id :: id in IdList(hrefs) ==>
      exists h :: h in hrefs && Selected(h) && TitleMatch(h) == Some(id)
  {
    var c := Captures(hrefs);
    DedupSameElements(c);
    CapturesExactly(hrefs);
    forall id | id in IdList(hrefs) ensures id in c {
      assert id in Dedup(c);
    }
  }

  /** A captured identifier is missing from the list only when the list is full. */
  lemma IdListOmitsOnlyWhenFull(hrefs: seq<string>, id: string)
    requires id in Captures(hrefs) && id !in IdList(hrefs)
    ensures |IdList(hrefs)| == MAX_IDS
  {
    DedupSameElements(Captures(hrefs));
  }

  /** The list keeps the order of first occurrence on the page. */
  lemma IdListFirstOccurrenceOrder(hrefs: seq<string>)
    ensures FirstOccurrenceOrdered(Captures(hrefs), IdList(hrefs))
  {
    var c := Captures(hrefs);
    DedupFirstOccurrenceOrder(c);
    FirstOccurrenceOrderedPrefix(c, Dedup(c), IdList(hrefs));
  }

  /** Later anchors repeating identifiers already seen leave the list unchanged. */
  lemma IdListIgnoresLaterRepeats(hrefs: seq<string>, later: seq<string>)
    requires forall id :: id in Captures(later) ==> id in Captures(hrefs)
    ensures IdList(hrefs + later) == IdList(hrefs)
  {
    CapturesAppend(hrefs, later);
    DedupIgnoresRepeats(Captures(hrefs), Captures(later));
  }

  /** An anchor that adds nothing to the Set can be dropped from the page. */
  lemma DropsOut(before: seq<string>, href: string, after: seq<string>)
    requires CaptureOf(href) == []
    ensures IdList(before + [href] + after) == IdList(before + after)
  {
    CapturesAppend(before + [href], after);
    CapturesAppend(before, [href]);
    CapturesAppend(before, after);
    assert [href][..0] == [];
    assert Captures([href]) == Captures([href][..0]) + CaptureOf(href);
    assert Captures(before + [href]) == Captures(before) + [] == Captures(before);
    assert Captures(before + [href] + after) == Captures(before + after);
  }

  /** An anchor whose href has no digit after any "/title/tt" contributes nothing. */
  lemma NoMatchContributesNothing(before: seq<string>, href: string, after: seq<string>)
    requires forall p: nat :: !MatchesAt(href, p)
    ensures IdList(before + [href] + after) == IdList(before + after)
  {
    DropsOut(before, href, after);
  }

  /** Anchors outside the selector contribute nothing. */
  lemma UnselectedContributesNothing(before: seq<string>, href: string, after: seq<string>)
    requires !Selected(href)
    ensures IdList(before + [href] + after) == IdList(before + after)
  {
    DropsOut(before, href, after);
  }

  // ---------------------------------------------------------------------------
  // A chart with a repeated link

  /** A link "/title/tt" + seven digits + "/" adds "tt" and the seven digits. */
  lemma TitleLinkCapture(h: string)
    requires |h| == 17 && h[..|TITLE_PREFIX|] == TITLE_PREFIX && h[16] == '/'
    requires forall k :: 9 <= k < 16 ==> IsDigit(h[k])
    ensures CaptureOf(h) == [h[CAPTURE_OFFSET..16]]
  {
    assert Leftmost(h, 0);
    assert Capture(h, 0) == h[CAPTURE_OFFSET..16];
  }

  lemma DedupRepeatOfFirst<T>(x: T, y: T)
    requires x != y
    ensures Dedup([x, y, x]) == [x, y]
  {
    DedupSnoc([], x);
    assert [x, y] == [x] + [y];
    DedupSnoc([x], y);
    assert [x, y, x] == [x, y] + [x];
    DedupSnoc([x, y], x);
  }

  lemma CapturesOfThree(a: string, b: string, x: string, y: string)
    requires CaptureOf(a) == [x] && CaptureOf(b) == [y]
    ensures Captures([a, b, a]) == [x, y, x]
  {
    CapturesOfOne(a);
    CapturesOfOne(b);
    CapturesAppend([a], [b]);
    CapturesAppend([a, b], [a]);
    assert [a] + [b] == [a, b] && [a, b] + [a] == [a, b, a];
  }

  lemma CapturesOfOne(h: string)
    ensures Captures([h]) == CaptureOf(h)
  {
    assert [h][1..] == [];
  }

  /** The link to `id` as a chart writes it: "/title/" + id + "/". */
  lemma TitleLinkOfLiteral(h: string, id: string)
    requires |id| == 9 && id[..2] == "tt" && forall k :: 2 <= k < 9 ==> IsDigit(id[k])
    requires h == "/title/" + id + "/"
    ensures CaptureOf(h) == [id]
  {
    assert h[..|TITLE_PREFIX|] == TITLE_PREFIX by {
      assert forall k :: 0 <= k < 7 ==> h[k] == "/title/"[k];
      assert h[7] == id[0] && h[8] == id[1];
    }
    assert h[CAPTURE_OFFSET..16] == id;
    TitleLinkCapture(h);
  }

  /** A page linking `x`, `y` and `x` again gives [x, y]. */
  lemma RepeatedLink(x: string, y: string)
    requires |x| == 9 && x[..2] == "tt" && forall k :: 2 <= k < 9 ==> IsDigit(x[k])
    requires |y| == 9 && y[..2] == "tt" && forall k :: 2 <= k < 9 ==> IsDigit(y[k])
    requires x != y
    ensures IdList(["/title/" + x + "/", "/title/" + y + "/", "/title/" + x + "/"]) == [x, y]
  {
    var a, b := "/title/" + x + "/", "/title/" + y + "/";
    TitleLinkOfLiteral(a, x);
    TitleLinkOfLiteral(b, y);
    CapturesOfThree(a, b, x, y);
    DedupRepeatOfFirst(x, y);
  }

  /** Links to tt0000001, tt0000002 and tt0000001 again give [tt0000001, tt0000002]. */
  lemma RepeatedLinkExample()
    ensures IdList(["/title/tt0000001/", "/title/tt0000002/", "/title/tt0000001/"]) == ["tt0000001", "tt0000002"]
  {
    var x, y := "tt0000001", "tt0000002";
    assert x[8] != y[8];
    assert "/title/tt0000001/" == "/title/" + x + "/" && "/title/tt0000002/" == "/title/" + y + "/";
    RepeatedLink(x, y);
  }
}
