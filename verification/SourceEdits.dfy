/** Edits collected against an original text and applied in one pass
    (`SourceEdits`, server/src/infrastructure/compose-rewriter.ts). */
module SourceEdits {
  import opened Text

  /** A replacement of `source[start, end)` by `text`; an insertion has `start == end`. */
  datatype Splice = Splice(start: nat, end: nat, text: string)

  predicate Fits(splice: Splice, source: string) {
    splice.start <= splice.end <= |source|
  }

  predicate AllFit(splices: seq<Splice>, source: string) {
    forall i :: 0 <= i < |splices| ==> Fits(splices[i], source)
  }

  /** The comparator of the sort: by start, then by end. */
  predicate Precedes(a: Splice, b: Splice) {
    a.start < b.start || (a.start == b.start && a.end <= b.end)
  }

  ghost predicate Sorted(splices: seq<Splice>) {
    forall i, j :: 0 <= i < j < |splices| ==> Precedes(splices[i], splices[j])
  }

  /** The stable sort by `Precedes`: a splice goes behind every splice that precedes or equals it. */
  function Insert(splice: Splice, sorted: seq<Splice>): (r: seq<Splice>)
    ensures multiset(r) == multiset(sorted) + multiset{splice}
  {
    if sorted == [] then [splice]
    else if Precedes(sorted[|sorted| - 1], splice) then sorted + [splice]
    else
      var init := sorted[..|sorted| - 1];
      assert sorted == init + [sorted[|sorted| - 1]];
      Insert(splice, init) + [sorted[|sorted| - 1]]
  }

  function Ordered(splices: seq<Splice>): (r: seq<Splice>)
    ensures multiset(r) == multiset(splices)
  {
    if splices == [] then []
    else
      assert splices == splices[..|splices| - 1] + [splices[|splices| - 1]];
      Insert(splices[|splices| - 1], Ordered(splices[..|splices| - 1]))
  }

  lemma {:induction false} InsertKeeps(splice: Splice, sorted: seq<Splice>)
    ensures forall s :: s in Insert(splice, sorted) <==> s == splice || s in sorted
  {
    if sorted != [] && !Precedes(sorted[|sorted| - 1], splice) {
      var init, last := sorted[..|sorted| - 1], sorted[|sorted| - 1];
      InsertKeeps(splice, init);
      assert sorted == init + [last];
    }
  }

  lemma SortedAppend(sorted: seq<Splice>, last: Splice)
    requires Sorted(sorted) && forall s :: s in sorted ==> Precedes(s, last)
    ensures Sorted(sorted + [last])
  {
  }

  lemma {:induction false} InsertSorts(splice: Splice, sorted: seq<Splice>)
    requires Sorted(sorted)
    ensures Sorted(Insert(splice, sorted))
  {
    if sorted != [] {
      var init, last := sorted[..|sorted| - 1], sorted[|sorted| - 1];
      if Precedes(last, splice) {
        SortedAppend(sorted, splice);
      } else {
        InsertSorts(splice, init);
        InsertKeeps(splice, init);
        SortedAppend(Insert(splice, init), last);
      }
    }
  }

  lemma {:induction false} OrderedSorts(splices: seq<Splice>)
    ensures Sorted(Ordered(splices))
    ensures forall s :: s in Ordered(splices) <==> s in splices
  {
    if splices != [] {
      OrderedSorts(splices[..|splices| - 1]);
      InsertSorts(splices[|splices| - 1], Ordered(splices[..|splices| - 1]));
      InsertKeeps(splices[|splices| - 1], Ordered(splices[..|splices| - 1]));
      assert splices == splices[..|splices| - 1] + [splices[|splices| - 1]];
    }
  }

  /** Two splices compete for a character, or an insertion falls strictly inside a replacement. */
  predicate Overlap(a: Splice, b: Splice) {
    a.start < b.end && b.start < a.end
  }

  ghost predicate SomeOverlap(splices: seq<Splice>) {
    exists i, j :: 0 <= i < j < |splices| && Overlap(splices[i], splices[j])
  }

  /** The one pass over ordered splices; `None` is the "overlapping edits" error. */
  function Spliced(source: string, ordered: seq<Splice>, cursor: nat): (r: Option<string>)
    requires cursor <= |source| && AllFit(ordered, source)
    decreases |ordered|
  {
    if ordered == [] then Some(source[cursor..])
    else if ordered[0].start < cursor then None
    else
      match Spliced(source, ordered[1..], ordered[0].end)
      case None => None
      case Some(rest) => Some(source[cursor..ordered[0].start] + ordered[0].text + rest)
  }

  /** Each splice starts at or behind the end of the one before it. */
  ghost predicate Chained(ordered: seq<Splice>, cursor: nat) {
    (forall i :: 0 <= i < |ordered| ==> cursor <= ordered[i].start) &&
    (forall i, j :: 0 <= i < j < |ordered| ==> ordered[i].end <= ordered[j].start)
  }

  lemma {:induction false} SplicedIffChained(source: string, ordered: seq<Splice>, cursor: nat)
    requires cursor <= |source| && AllFit(ordered, source)
    ensures Spliced(source, ordered, cursor).Some? <==> Chained(ordered, cursor)
    decreases |ordered|
  {
    if ordered != [] {
      var rest := ordered[1..];
      SplicedIffChained(source, rest, ordered[0].end);
      if Spliced(source, ordered, cursor).Some? {
        forall i, j | 0 <= i < j < |ordered|
          ensures ordered[i].end <= ordered[j].start
        {
          assert ordered[j] == rest[j - 1];
          if i > 0 { assert ordered[i] == rest[i - 1]; }
        }
        forall i | 0 <= i < |ordered|
          ensures cursor <= ordered[i].start
        {
          if i > 0 { assert ordered[0].start <= ordered[0].end <= ordered[i].start; }
        }
      }
      if Chained(ordered, cursor) {
        forall i | 0 <= i < |rest|
          ensures ordered[0].end <= rest[i].start
        {
          assert rest[i] == ordered[i + 1];
        }
        assert Chained(rest, ordered[0].end);
      }
    }
  }

  /** In sorted order, a chain is the same as the absence of overlaps. */
  lemma ChainedIffNoOverlap(ordered: seq<Splice>, source: string)
    requires Sorted(ordered) && AllFit(ordered, source)
    ensures Chained(ordered, 0) <==> !SomeOverlap(ordered)
  {
    if !SomeOverlap(ordered) {
      forall i, j | 0 <= i < j < |ordered|
        ensures ordered[i].end <= ordered[j].start
      {
        assert Precedes(ordered[i], ordered[j]) && !Overlap(ordered[i], ordered[j]);
      }
    }
  }

  ghost predicate Hits(splice: Splice, splices: seq<Splice>) {
    exists s :: s in splices && Overlap(s, splice)
  }

  lemma HitsAppend(splice: Splice, splices: seq<Splice>, last: Splice)
    ensures Hits(splice, splices + [last]) <==> Hits(splice, splices) || Overlap(last, splice)
  {
    assert last in splices + [last];
    assert forall s :: s in splices ==> s in splices + [last];
  }

  lemma HitsInsert(splice: Splice, inserted: Splice, sorted: seq<Splice>)
    ensures Hits(splice, Insert(inserted, sorted)) <==> Hits(splice, sorted) || Overlap(inserted, splice)
  {
    InsertKeeps(inserted, sorted);
  }

  lemma OverlapAppend(splices: seq<Splice>, last: Splice)
    ensures SomeOverlap(splices + [last]) <==> SomeOverlap(splices) || Hits(last, splices)
  {
    var all := splices + [last];
    if SomeOverlap(splices) {
      var i, j :| 0 <= i < j < |splices| && Overlap(splices[i], splices[j]);
      assert Overlap(all[i], all[j]);
    }
    if Hits(last, splices) {
      var s :| s in splices && Overlap(s, last);
      var i :| 0 <= i < |splices| && splices[i] == s;
      assert Overlap(all[i], all[|splices|]);
    }
  }

  lemma {:induction false} OverlapInsert(splice: Splice, sorted: seq<Splice>)
    ensures SomeOverlap(Insert(splice, sorted)) <==> SomeOverlap(sorted) || Hits(splice, sorted)
  {
    if sorted != [] {
      var init, last := sorted[..|sorted| - 1], sorted[|sorted| - 1];
      assert sorted == init + [last];
      OverlapAppend(sorted, splice);
      if !Precedes(last, splice) {
        OverlapInsert(splice, init);
        OverlapAppend(Insert(splice, init), last);
        OverlapAppend(init, last);
        HitsInsert(last, splice, init);
        HitsAppend(splice, init, last);
      }
    }
  }

  /** Sorting neither creates nor removes an overlap. */
  lemma {:induction false} OverlapOrdered(splices: seq<Splice>)
    ensures SomeOverlap(Ordered(splices)) <==> SomeOverlap(splices)
  {
    if splices != [] {
      var init, last := splices[..|splices| - 1], splices[|splices| - 1];
      assert splices == init + [last];
      OverlapOrdered(init);
      OrderedSorts(init);
      OverlapInsert(last, Ordered(init));
      OverlapAppend(init, last);
    }
  }

  function ApplySplices(source: string, splices: seq<Splice>): Option<string>
    requires AllFit(splices, source)
  {
    assert AllFit(Ordered(splices), source) by {
      OrderedSorts(splices);
      OrderedFits(splices, source);
    }
    Spliced(source, Ordered(splices), 0)
  }

  lemma OrderedFits(splices: seq<Splice>, source: string)
    requires AllFit(splices, source)
    ensures AllFit(Ordered(splices), source)
  {
    OrderedSorts(splices);
    forall i | 0 <= i < |Ordered(splices)|
      ensures Fits(Ordered(splices)[i], source)
    {
      assert Ordered(splices)[i] in splices;
    }
  }

  /** The edits are refused exactly when two of them overlap. */
  lemma ApplyFailsIffOverlap(source: string, splices: seq<Splice>)
    requires AllFit(splices, source)
    ensures ApplySplices(source, splices).None? <==> SomeOverlap(splices)
  {
    var ordered := Ordered(splices);
    OrderedSorts(splices);
    OrderedFits(splices, source);
    SplicedIffChained(source, ordered, 0);
    ChainedIffNoOverlap(ordered, source);
    OverlapOrdered(splices);
  }

  /** How much one splice moves the text behind it. */
  function Growth(splice: Splice): int {
    |splice.text| - (splice.end - splice.start)
  }

  /** The total growth of the splices that lie at or before position `p`. */
  function Shift(splices: seq<Splice>, p: int): int {
    if splices == [] then 0
    else (if splices[0].end <= p then Growth(splices[0]) else 0) + Shift(splices[1..], p)
  }

  function TotalGrowth(splices: seq<Splice>): int {
    if splices == [] then 0 else Growth(splices[0]) + TotalGrowth(splices[1..])
  }

  predicate Outside(splices: seq<Splice>, p: int) {
    forall i :: 0 <= i < |splices| ==> p < splices[i].start || splices[i].end <= p
  }

  /** In a chain, nothing before the cursor shifts a position in front of the next splice. */
  lemma {:induction false} NoShiftBefore(ordered: seq<Splice>, p: int)
    requires forall i :: 0 <= i < |ordered| ==> ordered[i].start <= ordered[i].end && p < ordered[i].end
    ensures Shift(ordered, p) == 0
  {
    if ordered != [] {
      NoShiftBefore(ordered[1..], p);
    }
  }

  /** Every character outside the splices is copied, at its shifted place. */
  lemma {:induction false} OutsideIsCopied(source: string, ordered: seq<Splice>, cursor: nat, p: nat)
    requires cursor <= |source| && AllFit(ordered, source) && Chained(ordered, cursor)
    requires cursor <= p < |source| && Outside(ordered, p)
    ensures Spliced(source, ordered, cursor).Some?
    ensures var r := Spliced(source, ordered, cursor).value;
      0 <= p - cursor + Shift(ordered, p) < |r| && r[p - cursor + Shift(ordered, p)] == source[p]
    decreases |ordered|
  {
    SplicedIffChained(source, ordered, cursor);
    if ordered != [] {
      var first, rest := ordered[0], ordered[1..];
      assert forall i :: 0 <= i < |rest| ==> rest[i] == ordered[i + 1];
      SplicedIffChained(source, rest, first.end);
      if p < first.start {
        NoShiftBefore(ordered, p);
      } else {
        OutsideIsCopied(source, rest, first.end, p);
      }
    }
  }

  predicate StandsAt(whole: string, text: string, at: int) {
    0 <= at && at + |text| <= |whole| && whole[at..at + |text|] == text
  }

  lemma StandsBehind(head: string, tail: string, text: string, at: int)
    requires StandsAt(tail, text, at)
    ensures StandsAt(head + tail, text, |head| + at)
  {
  }

  /** Every splice's text stands at its shifted place. */
  lemma {:induction false} TextIsPlaced(source: string, ordered: seq<Splice>, cursor: nat, k: nat)
    requires cursor <= |source| && AllFit(ordered, source) && Chained(ordered, cursor) && k < |ordered|
    ensures Spliced(source, ordered, cursor).Some?
    ensures StandsAt(Spliced(source, ordered, cursor).value, ordered[k].text,
                     ordered[k].start - cursor + TotalGrowth(ordered[..k]))
    decreases |ordered|
  {
    hide StandsAt;
    SplicedIffChained(source, ordered, cursor);
    var first, rest := ordered[0], ordered[1..];
    assert forall i :: 0 <= i < |rest| ==> rest[i] == ordered[i + 1];
    SplicedIffChained(source, rest, first.end);
    var copied, tail := source[cursor..first.start], Spliced(source, rest, first.end).value;
    assert Spliced(source, ordered, cursor).value == copied + first.text + tail;
    if k == 0 {
      StandsFirst(copied, first.text, tail);
    } else {
      TextIsPlaced(source, rest, first.end, k - 1);
      assert ordered[..k][0] == first && ordered[..k][1..] == rest[..k - 1];
      StandsBehind(copied + first.text, tail, ordered[k].text, ordered[k].start - first.end + TotalGrowth(rest[..k - 1]));
    }
  }

  lemma StandsFirst(head: string, text: string, tail: string)
    ensures StandsAt(head + text + tail, text, |head|)
  {
  }

  lemma {:induction false} LengthGrows(source: string, ordered: seq<Splice>, cursor: nat)
    requires cursor <= |source| && AllFit(ordered, source)
    ensures Spliced(source, ordered, cursor).Some? ==>
      |Spliced(source, ordered, cursor).value| == |source| - cursor + TotalGrowth(ordered)
    decreases |ordered|
  {
    if ordered != [] {
      LengthGrows(source, ordered[1..], ordered[0].end);
    }
  }

  lemma {:induction false} GrowthOfInsert(splice: Splice, sorted: seq<Splice>, p: int)
    ensures TotalGrowth(Insert(splice, sorted)) == TotalGrowth(sorted) + Growth(splice)
    ensures Shift(Insert(splice, sorted), p) == Shift(sorted, p) + if splice.end <= p then Growth(splice) else 0
  {
    if sorted == [] {
      assert [splice][1..] == [];
    } else {
      var init, last := sorted[..|sorted| - 1], sorted[|sorted| - 1];
      assert sorted == init + [last];
      if Precedes(last, splice) {
        GrowthAppend(sorted, splice, p);
      } else {
        GrowthOfInsert(splice, init, p);
        GrowthAppend(init, last, p);
        GrowthAppend(Insert(splice, init), last, p);
      }
    }
  }

  lemma {:induction false} GrowthAppend(splices: seq<Splice>, last: Splice, p: int)
    ensures TotalGrowth(splices + [last]) == TotalGrowth(splices) + Growth(last)
    ensures Shift(splices + [last], p) == Shift(splices, p) + if last.end <= p then Growth(last) else 0
  {
    if splices == [] {
      assert [last][1..] == [] && [] + [last] == [last];
    } else {
      assert (splices + [last])[1..] == splices[1..] + [last];
      GrowthAppend(splices[1..], last, p);
    }
  }

  lemma {:induction false} GrowthOfOrdered(splices: seq<Splice>, p: int)
    ensures TotalGrowth(Ordered(splices)) == TotalGrowth(splices)
    ensures Shift(Ordered(splices), p) == Shift(splices, p)
  {
    if splices != [] {
      var init, last := splices[..|splices| - 1], splices[|splices| - 1];
      assert splices == init + [last];
      GrowthOfOrdered(init, p);
      GrowthOfInsert(last, Ordered(init), p);
      GrowthAppend(init, last, p);
    }
  }

  /** A successful pass changes the length by exactly the sum of the growths. */
  lemma ApplyLength(source: string, splices: seq<Splice>)
    requires AllFit(splices, source) && ApplySplices(source, splices).Some?
    ensures |ApplySplices(source, splices).value| == |source| + TotalGrowth(splices)
  {
    hide Ordered, TotalGrowth, Spliced;
    OrderedFits(splices, source);
    LengthGrows(source, Ordered(splices), 0);
    GrowthOfOrdered(splices, 0);
  }

  lemma OutsideOrdered(splices: seq<Splice>, p: int)
    requires Outside(splices, p)
    ensures Outside(Ordered(splices), p)
  {
    OrderedSorts(splices);
    forall i | 0 <= i < |Ordered(splices)|
      ensures p < Ordered(splices)[i].start || Ordered(splices)[i].end <= p
    {
      assert Ordered(splices)[i] in splices;
    }
  }

  /** Every byte outside the splices is copied verbatim, moved by what was spliced in before it. */
  lemma ApplyCopiesTheRest(source: string, splices: seq<Splice>, p: nat)
    requires AllFit(splices, source) && ApplySplices(source, splices).Some?
    requires p < |source| && Outside(splices, p)
    ensures 0 <= p + Shift(splices, p) < |ApplySplices(source, splices).value|
    ensures ApplySplices(source, splices).value[p + Shift(splices, p)] == source[p]
  {
    hide Ordered, Shift, Spliced, Outside;
    var ordered := Ordered(splices);
    OrderedFits(splices, source);
    SplicedIffChained(source, ordered, 0);
    GrowthOfOrdered(splices, p);
    OutsideOrdered(splices, p);
    OutsideIsCopied(source, ordered, 0, p);
  }

  /** Every splice's text stands in the result where its range was, moved by the splices in front of it. */
  lemma ApplyPlacesTexts(source: string, splices: seq<Splice>, k: nat)
    requires AllFit(splices, source) && ApplySplices(source, splices).Some? && k < |Ordered(splices)|
    ensures var splice := Ordered(splices)[k];
      StandsAt(ApplySplices(source, splices).value, splice.text, splice.start + TotalGrowth(Ordered(splices)[..k]))
    ensures forall s :: s in splices <==> s in Ordered(splices)
  {
    hide Ordered, Spliced, TotalGrowth, StandsAt;
    var ordered := Ordered(splices);
    OrderedSorts(splices);
    OrderedFits(splices, source);
    SplicedIffChained(source, ordered, 0);
    TextIsPlaced(source, ordered, 0, k);
  }

  /** No two splices have the same start and end (two insertions at one place would). */
  ghost predicate DistinctPlaces(splices: seq<Splice>) {
    forall i, j :: 0 <= i < j < |splices| ==>
      splices[i].start != splices[j].start || splices[i].end != splices[j].end
  }

  predicate SamePlace(a: Splice, b: Splice) {
    a.start == b.start && a.end == b.end
  }

  lemma DistinctAppend(splices: seq<Splice>, last: Splice)
    requires DistinctPlaces(splices) && forall s :: s in splices ==> !SamePlace(s, last)
    ensures DistinctPlaces(splices + [last])
  {
    forall i | 0 <= i < |splices|
      ensures !SamePlace(splices[i], last)
    {
      assert splices[i] in splices;
    }
  }

  lemma {:induction false} DistinctInsert(splice: Splice, sorted: seq<Splice>)
    requires DistinctPlaces(sorted) && forall s :: s in sorted ==> !SamePlace(s, splice)
    ensures DistinctPlaces(Insert(splice, sorted))
  {
    DistinctAppend(sorted, splice);
    if sorted != [] && !Precedes(sorted[|sorted| - 1], splice) {
      var init, last := sorted[..|sorted| - 1], sorted[|sorted| - 1];
      assert sorted == init + [last];
      DistinctInsert(splice, init);
      InsertKeeps(splice, init);
      forall s | s in init
        ensures !SamePlace(s, last)
      {
        var i :| 0 <= i < |init| && init[i] == s;
        assert sorted[i] == s && sorted[|init|] == last;
      }
      DistinctAppend(Insert(splice, init), last);
    }
  }

  lemma {:induction false} DistinctOrdered(splices: seq<Splice>)
    requires DistinctPlaces(splices)
    ensures DistinctPlaces(Ordered(splices))
  {
    if splices != [] {
      var init, last := splices[..|splices| - 1], splices[|splices| - 1];
      DistinctOrdered(init);
      OrderedSorts(init);
      forall s | s in Ordered(init)
        ensures !SamePlace(s, last)
      {
        var i :| 0 <= i < |init| && init[i] == s;
        assert splices[i] == s && splices[|init|] == last;
      }
      DistinctInsert(last, Ordered(init));
    }
  }

  /** In a chain at distinct places, the splices in front of the `k`-th are those that end at or before its start;
      an insertion ends at its own start. */
  lemma {:induction false} GrowthInFront(ordered: seq<Splice>, source: string, cursor: nat, k: nat)
    requires AllFit(ordered, source) && Chained(ordered, cursor) && DistinctPlaces(ordered) && k < |ordered|
    ensures TotalGrowth(ordered[..k]) == Shift(ordered, ordered[k].start) - OwnShift(ordered[k])
  {
    var first, rest, at := ordered[0], ordered[1..], ordered[k].start;
    assert forall i :: 0 <= i < |rest| ==> rest[i] == ordered[i + 1];
    if k == 0 {
      forall i | 0 <= i < |rest|
        ensures rest[i].start <= rest[i].end && at < rest[i].end
      {
        assert Fits(ordered[i + 1], source) && first.end <= ordered[i + 1].start;
      }
      NoShiftBefore(rest, at);
    } else {
      assert ordered[..k][0] == first && ordered[..k][1..] == rest[..k - 1];
      GrowthInFront(rest, source, first.end, k - 1);
    }
  }

  /** What an insertion adds at its own start. */
  function OwnShift(splice: Splice): int {
    if splice.end <= splice.start then Growth(splice) else 0
  }

  /** So at distinct places a splice's text stands at its start, moved by the growth of all splices that end at or
      before that start. */
  lemma ApplyPlacesTextAt(source: string, splices: seq<Splice>, splice: Splice)
    requires AllFit(splices, source) && ApplySplices(source, splices).Some? && DistinctPlaces(splices) && splice in splices
    ensures StandsAt(ApplySplices(source, splices).value, splice.text,
                     splice.start + Shift(splices, splice.start) - OwnShift(splice))
  {
    hide Ordered, Spliced, TotalGrowth, StandsAt, Shift, OwnShift;
    var ordered := Ordered(splices);
    OrderedSorts(splices);
    OrderedFits(splices, source);
    SplicedIffChained(source, ordered, 0);
    DistinctOrdered(splices);
    var k :| 0 <= k < |ordered| && ordered[k] == splice;
    ApplyPlacesTexts(source, splices, k);
    GrowthInFront(ordered, source, 0, k);
    GrowthOfOrdered(splices, splice.start);
  }

  lemma FirstPrecedes(sorted: seq<Splice>, s: Splice)
    requires Sorted(sorted) && s in sorted
    ensures Precedes(sorted[0], s)
  {
    var i :| 0 <= i < |sorted| && sorted[i] == s;
  }

  lemma TailMembers(a: seq<Splice>)
    requires a != [] && DistinctPlaces(a)
    ensures forall s :: s in a[1..] <==> s in a && s != a[0]
  {
    assert a == [a[0]] + a[1..];
  }

  /** Two sorted lists of the same splices at distinct places are the same list. */
  lemma {:induction false} SortedUnique(a: seq<Splice>, b: seq<Splice>)
    requires Sorted(a) && Sorted(b) && DistinctPlaces(a) && DistinctPlaces(b)
    requires |a| == |b| && forall s :: s in a <==> s in b
    ensures a == b
  {
    if a != [] {
      FirstPrecedes(a, b[0]);
      FirstPrecedes(b, a[0]);
      assert a[0] == b[0] by {
        var l :| 0 <= l < |a| && a[l] == b[0];
      }
      TailMembers(a);
      TailMembers(b);
      SortedUnique(a[1..], b[1..]);
    }
  }

  /** The result does not depend on the order in which splices at distinct places were added. */
  lemma ApplyIgnoresAddOrder(source: string, a: seq<Splice>, b: seq<Splice>)
    requires AllFit(a, source) && AllFit(b, source)
    requires DistinctPlaces(a) && DistinctPlaces(b)
    requires |a| == |b| && forall s :: s in a <==> s in b
    ensures ApplySplices(source, a) == ApplySplices(source, b)
  {
    OrderedSorts(a);
    OrderedSorts(b);
    DistinctOrdered(a);
    DistinctOrdered(b);
    assert |Ordered(a)| == |multiset(a)| == |a| && |Ordered(b)| == |multiset(b)| == |b|;
    SortedUnique(Ordered(a), Ordered(b));
  }

  class SourceEdits {
    const source: string
    var splices: seq<Splice>

    constructor (source: string)
      ensures this.source == source && splices == []
    {
      this.source := source;
      splices := [];
    }

    method Add(splice: Splice)
      modifies this
      ensures splices == old(splices) + [splice]
    {
      splices := splices + [splice];
    }

    /** The edited text, or `None` for the "overlapping edits" error. */
    method Apply() returns (r: Option<string>)
      requires AllFit(splices, source)
      ensures r == ApplySplices(source, splices)
    {
      var ordered := Ordered(splices);
      OrderedFits(splices, source);
      var result := "";
      var cursor: nat := 0;
      var i := 0;
      ghost var whole := Spliced(source, ordered, 0);
      assert ordered[0..] == ordered && (whole.Some? ==> "" + whole.value == whole.value);
      while i < |ordered|
        invariant 0 <= i <= |ordered| && cursor <= |source|
        invariant AllFit(ordered, source) && AllFit(ordered[i..], source)
        invariant whole == Resumed(result, Spliced(source, ordered[i..], cursor))
      {
        var splice := ordered[i];
        assert ordered[i..][0] == splice && ordered[i..][1..] == ordered[i + 1..];
        if splice.start < cursor {
          return None;
        }
        var next := source[cursor..splice.start] + splice.text;
        ghost var rest := Spliced(source, ordered[i + 1..], splice.end);
        assert rest.Some? ==> (result + next) + rest.value == result + (next + rest.value);
        result := result + next;
        cursor := splice.end;
        i := i + 1;
      }
      assert ordered[i..] == [];
      r := Some(result + source[cursor..]);
    }
  }

  /** The whole text, once the rest of the pass succeeds behind `done`. */
  ghost function Resumed(done: string, rest: Option<string>): Option<string> {
    match rest
    case None => None
    case Some(text) => Some(done + text)
  }
}
