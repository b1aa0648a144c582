/** Byte extents: ordering by offset and merging of those that touch. */
module Extents {

  datatype Extent = Extent(offset: nat, length: nat) {
    function End(): nat { offset + length }
  }

  ghost predicate Holds(e: Extent, x: int) { e.offset <= x < e.End() }

  ghost predicate Covers(extents: seq<Extent>, x: int) {
    exists i | 0 <= i < |extents| :: Holds(extents[i], x)
  }

  predicate Disjoint(a: Extent, b: Extent) {
    a.End() <= b.offset || b.End() <= a.offset
  }

  ghost predicate PairwiseDisjoint(extents: seq<Extent>) {
    forall i, j | 0 <= i < j < |extents| :: Disjoint(extents[i], extents[j])
  }

  ghost predicate Positive(extents: seq<Extent>) {
    forall i | 0 <= i < |extents| :: extents[i].length > 0
  }

  ghost predicate Sorted(extents: seq<Extent>) {
    forall i, j | 0 <= i < j < |extents| :: extents[i].offset <= extents[j].offset
  }

  /** Sorted with a gap between neighbours. */
  ghost predicate Separated(extents: seq<Extent>) {
    forall i, j | 0 <= i < j < |extents| :: extents[i].End() < extents[j].offset
  }

  function Sum(extents: seq<Extent>): nat {
    if extents == [] then 0 else Sum(extents[..|extents| - 1]) + extents[|extents| - 1].length
  }

  lemma {:induction false} SumConcat(a: seq<Extent>, b: seq<Extent>)
    ensures Sum(a + b) == Sum(a) + Sum(b)
  {
    if b == [] {
      assert a + b == a;
    } else {
      assert (a + b)[..|a + b| - 1] == a + b[..|b| - 1];
      SumConcat(a, b[..|b| - 1]);
    }
  }

  lemma SumSnoc(extents: seq<Extent>, e: Extent)
    ensures Sum(extents + [e]) == Sum(extents) + e.length
  {
    assert (extents + [e])[..|extents|] == extents;
  }

  // ---------------------------------------------------------------------------
  // Stable sort by offset
  // ---------------------------------------------------------------------------

  /** Where a stable sort puts one more extent: behind all that do not start later. */
  function InsertAt(extents: seq<Extent>, e: Extent): (k: nat)
    ensures k <= |extents|
    ensures forall i | k <= i < |extents| :: e.offset < extents[i].offset
    ensures k > 0 ==> extents[k - 1].offset <= e.offset
  {
    if extents == [] || extents[|extents| - 1].offset <= e.offset then |extents|
    else InsertAt(extents[..|extents| - 1], e)
  }

  function Insert(extents: seq<Extent>, e: Extent): seq<Extent> {
    var k := InsertAt(extents, e);
    extents[..k] + [e] + extents[k..]
  }

  lemma InsertShape(extents: seq<Extent>, e: Extent)
    ensures var k, out := InsertAt(extents, e), Insert(extents, e);
            && |out| == |extents| + 1 && k <= |extents| && out[k] == e
            && (forall i | 0 <= i < k :: out[i] == extents[i])
            && (forall i | k < i < |out| :: out[i] == extents[i - 1])
  {
  }

  function SortByOffset(extents: seq<Extent>): seq<Extent> {
    if extents == [] then [] else Insert(SortByOffset(extents[..|extents| - 1]), extents[|extents| - 1])
  }

  lemma InsertSorted(extents: seq<Extent>, e: Extent)
    requires Sorted(extents)
    ensures Sorted(Insert(extents, e))
  {
  }

  lemma InsertPermutes(extents: seq<Extent>, e: Extent)
    ensures multiset(Insert(extents, e)) == multiset(extents) + multiset{e}
  {
    var k := InsertAt(extents, e);
    assert extents == extents[..k] + extents[k..];
  }

  lemma {:induction false} SortSorts(extents: seq<Extent>)
    ensures Sorted(SortByOffset(extents)) && multiset(SortByOffset(extents)) == multiset(extents)
  {
    hide Insert, Sorted;
    if extents == [] {
      NothingSorted();
    } else {
      var init, last := extents[..|extents| - 1], extents[|extents| - 1];
      SortSorts(init);
      InsertSorted(SortByOffset(init), last);
      InsertPermutes(SortByOffset(init), last);
      assert extents == init + [last];
    }
  }

  lemma SortPositive(extents: seq<Extent>)
    requires Positive(extents)
    ensures Positive(SortByOffset(extents))
  {
    SortSorts(extents);
    forall i | 0 <= i < |SortByOffset(extents)| ensures SortByOffset(extents)[i].length > 0 {
      assert SortByOffset(extents)[i] in multiset(SortByOffset(extents));
      assert SortByOffset(extents)[i] in extents;
    }
  }

  lemma NothingSorted()
    ensures Sorted([])
  {
  }

  lemma {:induction false} SortOfSorted(extents: seq<Extent>)
    requires Sorted(extents)
    ensures SortByOffset(extents) == extents
  {
    if extents != [] {
      var init, last := extents[..|extents| - 1], extents[|extents| - 1];
      SortOfSorted(init);
      assert InsertAt(init, last) == |init|;
      assert extents == init + [last];
    }
  }

  lemma InsertCovers(extents: seq<Extent>, e: Extent, x: int)
    ensures Covers(Insert(extents, e), x) <==> Covers(extents, x) || Holds(e, x)
  {
    var k := InsertAt(extents, e);
    var all := Insert(extents, e);
    assert all[k] == e;
    assert forall i | 0 <= i < k :: all[i] == extents[i];
    assert forall i | k <= i < |extents| :: all[i + 1] == extents[i];
    assert forall i | k < i < |all| :: all[i] == extents[i - 1];
  }

  lemma {:induction false} SortCovers(extents: seq<Extent>, x: int)
    ensures Covers(SortByOffset(extents), x) <==> Covers(extents, x)
  {
    if extents != [] {
      var init, last := extents[..|extents| - 1], extents[|extents| - 1];
      SortCovers(init, x);
      InsertCovers(SortByOffset(init), last, x);
      CoversSnoc(init, last, x);
      assert extents == init + [last];
    }
  }

  lemma CoversSnoc(extents: seq<Extent>, e: Extent, x: int)
    ensures Covers(extents + [e], x) <==> Covers(extents, x) || Holds(e, x)
  {
    var all := extents + [e];
    assert all[|extents|] == e;
    assert forall i | 0 <= i < |extents| :: all[i] == extents[i];
  }

  // ---------------------------------------------------------------------------
  // Merging
  // ---------------------------------------------------------------------------

  /** One more extent, starting no earlier than the last one kept. */
  function MergeOne(merged: seq<Extent>, e: Extent): seq<Extent> {
    if merged != [] && e.offset <= merged[|merged| - 1].End() then
      var last := merged[|merged| - 1];
      var end := if last.End() >= e.End() then last.End() else e.End();
      merged[..|merged| - 1] + [Extent(last.offset, end - last.offset)]
    else merged + [e]
  }

  function MergeAll(extents: seq<Extent>): seq<Extent> {
    if extents == [] then [] else MergeOne(MergeAll(extents[..|extents| - 1]), extents[|extents| - 1])
  }

  method MergeSorted(extents: seq<Extent>) returns (merged: seq<Extent>)
    ensures merged == MergeAll(extents)
  {
    merged := [];
    for i := 0 to |extents|
      invariant merged == MergeAll(extents[..i])
    {
      assert extents[..i + 1][..i] == extents[..i];
      var e := extents[i];
      if |merged| > 0 {
        var last := merged[|merged| - 1];
        if e.offset <= last.End() {
          var end := if last.End() >= e.End() then last.End() else e.End();
          merged := merged[..|merged| - 1] + [Extent(last.offset, end - last.offset)];
          continue;
        }
      }
      merged := merged + [e];
    }
    assert extents[..|extents|] == extents;
  }

  /** What merging keeps true of the extents kept so far. */
  ghost predicate MergedUpTo(merged: seq<Extent>, offset: nat) {
    && Separated(merged) && Positive(merged)
    && (merged != [] ==> merged[|merged| - 1].offset <= offset)
  }

  lemma MergeOneKeeps(merged: seq<Extent>, e: Extent)
    requires MergedUpTo(merged, e.offset) && e.length > 0
    ensures MergedUpTo(MergeOne(merged, e), e.offset)
  {
    if merged != [] && e.offset <= merged[|merged| - 1].End() {
      var n, out := |merged| - 1, MergeOne(merged, e);
      assert forall i | 0 <= i < n :: out[i] == merged[i];
      assert out[n].offset == merged[n].offset && out[n].length > 0;
    } else {
      assert merged != [] ==> merged[|merged| - 1].End() < e.offset;
    }
  }

  lemma MergeOneSum(merged: seq<Extent>, e: Extent)
    requires merged != [] ==> merged[|merged| - 1].End() <= e.offset
    ensures Sum(MergeOne(merged, e)) == Sum(merged) + e.length
    ensures MergeOne(merged, e) != [] && MergeOne(merged, e)[|MergeOne(merged, e)| - 1].End() == e.End()
  {
    var out := MergeOne(merged, e);
    assert out[..|out| - 1] ==
           if merged != [] && e.offset <= merged[|merged| - 1].End() then merged[..|merged| - 1] else merged;
  }

  lemma MergeOneCovers(merged: seq<Extent>, e: Extent, x: int)
    requires MergedUpTo(merged, e.offset) && e.length > 0
    ensures Covers(MergeOne(merged, e), x) <==> Covers(merged, x) || Holds(e, x)
  {
    if merged != [] && e.offset <= merged[|merged| - 1].End() {
      var n := |merged| - 1;
      var init, last := merged[..n], merged[n];
      var wide := MergeOne(merged, e)[n];
      assert merged == init + [last] && MergeOne(merged, e) == init + [wide];
      CoversSnoc(init, last, x);
      CoversSnoc(init, wide, x);
    } else {
      CoversSnoc(merged, e, x);
    }
  }

  /** Merged extents are sorted, positive and separated by gaps. */
  lemma {:induction false} MergeSeparates(extents: seq<Extent>)
    requires Sorted(extents) && Positive(extents)
    ensures Separated(MergeAll(extents)) && Positive(MergeAll(extents))
    ensures extents != [] ==> MergedUpTo(MergeAll(extents), extents[|extents| - 1].offset)
  {
    hide Covers, MergeOne;
    if extents != [] {
      var init, last := extents[..|extents| - 1], extents[|extents| - 1];
      MergeSeparates(init);
      if init != [] {
        assert init[|init| - 1].offset <= last.offset;
      }
      MergeOneKeeps(MergeAll(init), last);
    }
  }

  /** Merged extents cover exactly the same bytes. */
  lemma {:induction false} MergeCovers(extents: seq<Extent>, x: int)
    requires Sorted(extents) && Positive(extents)
    ensures Covers(MergeAll(extents), x) <==> Covers(extents, x)
  {
    hide Covers, MergeOne, Holds;
    if extents != [] {
      var init, last := extents[..|extents| - 1], extents[|extents| - 1];
      MergeCovers(init, x);
      MergeSeparates(init);
      if init != [] {
        assert init[|init| - 1].offset <= last.offset;
      }
      MergeOneCovers(MergeAll(init), last, x);
      CoversSnoc(init, last, x);
      assert extents == init + [last];
    }
  }

  /** Merging extents that do not overlap keeps their total. */
  lemma {:induction false} MergeKeepsSum(extents: seq<Extent>)
    requires Sorted(extents) && Positive(extents) && PairwiseDisjoint(extents)
    ensures Sum(MergeAll(extents)) == Sum(extents)
    ensures extents != [] ==>
              (MergeAll(extents) != []
               && MergeAll(extents)[|MergeAll(extents)| - 1].End() == extents[|extents| - 1].End())
  {
    if extents != [] {
      var init, last := extents[..|extents| - 1], extents[|extents| - 1];
      MergeKeepsSum(init);
      if init != [] {
        assert Disjoint(init[|init| - 1], last);
      }
      MergeOneSum(MergeAll(init), last);
    }
  }
}
