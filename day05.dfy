/**
 * Day 5: fresh ingredients. A database of inclusive ID ranges; `part1`
 * counts the available ingredients that fall in some range, `part2` counts
 * every ID any range covers, by sorting the ranges on their start and
 * sweeping a cursor past the IDs already counted.
 */
module Day05 {
  import opened Sorting

  /** An inclusive range `start..=end` of ingredient IDs (empty when `start > end`). */
  datatype Range = Range(start: nat, end: nat)

  /** The IDs of one range. */
  function Ids(r: Range): (ids: set<nat>)
    ensures forall x :: x in ids <==> r.start <= x <= r.end
    decreases r.end
  {
    if r.end < r.start then {}
    else if r.end == r.start then {r.end}
    else Ids(Range(r.start, r.end - 1)) + {r.end}
  }

  /** Some range of the database contains `x`. */
  predicate IsFresh(ranges: seq<Range>, x: nat) {
    exists r :: r in ranges && r.start <= x <= r.end
  }

  // ---------------------------------------------------------------------
  // part1 (05.rs:39-48)
  // ---------------------------------------------------------------------

  /** `part1`: how many of the ingredients are fresh. */
  function Part1(ranges: seq<Range>, ingredients: seq<nat>): (n: nat)
    ensures n <= |ingredients|
  {
    if ingredients == [] then 0
    else Part1(ranges, ingredients[..|ingredients| - 1]) + (if IsFresh(ranges, ingredients[|ingredients| - 1]) then 1 else 0)
  }

  /** The positions of the fresh ingredients. */
  ghost function FreshPositions(ranges: seq<Range>, ingredients: seq<nat>): set<nat> {
    set i: nat | i < |ingredients| && IsFresh(ranges, ingredients[i])
  }

  /** `part1` is the number of positions holding a fresh ingredient. */
  lemma {:induction false} Part1Counts(ranges: seq<Range>, ingredients: seq<nat>)
    ensures Part1(ranges, ingredients) == |FreshPositions(ranges, ingredients)|
    decreases |ingredients|
  {
    if ingredients != [] {
      Part1Counts(ranges, ingredients[..|ingredients| - 1]);
      FreshPositionsLast(ranges, ingredients);
    }
  }

  /** The fresh positions of a list are those of all but its last ingredient, plus the last position if that one is fresh. */
  lemma FreshPositionsLast(ranges: seq<Range>, ingredients: seq<nat>)
    requires ingredients != []
    ensures var n := |ingredients| - 1;
            FreshPositions(ranges, ingredients)
            == FreshPositions(ranges, ingredients[..n]) + (if IsFresh(ranges, ingredients[n]) then {n} else {})
  {
    var n := |ingredients| - 1;
    var init := ingredients[..n];
    forall i: nat | i < n ensures init[i] == ingredients[i] { }
  }

  /** `part1` depends on the ranges only as a collection: their order does not matter. */
  lemma {:induction false} Part1OrderFree(ranges: seq<Range>, ranges': seq<Range>, ingredients: seq<nat>)
    requires multiset(ranges) == multiset(ranges')
    ensures Part1(ranges, ingredients) == Part1(ranges', ingredients)
    decreases |ingredients|
  {
    if ingredients != [] {
      var x := ingredients[|ingredients| - 1];
      Part1OrderFree(ranges, ranges', ingredients[..|ingredients| - 1]);
      if IsFresh(ranges, x) {
        var r :| r in ranges && r.start <= x <= r.end;
        assert r in multiset(ranges');
      }
      if IsFresh(ranges', x) {
        var r :| r in ranges' && r.start <= x <= r.end;
        assert r in multiset(ranges);
      }
    }
  }

  // ---------------------------------------------------------------------
  // part2 (05.rs:50-63)
  // ---------------------------------------------------------------------

  /** Every ID some range of `ranges` covers. */
  ghost function Covered(ranges: seq<Range>): set<nat> {
    if ranges == [] then {} else Covered(ranges[..|ranges| - 1]) + Ids(ranges[|ranges| - 1])
  }

  /** An ID is covered exactly when it is fresh. */
  lemma {:induction false} CoveredIsFresh(ranges: seq<Range>, x: nat)
    ensures x in Covered(ranges) <==> IsFresh(ranges, x)
    decreases |ranges|
  {
    if ranges != [] {
      var init, last := ranges[..|ranges| - 1], ranges[|ranges| - 1];
      CoveredIsFresh(init, x);
      assert ranges == init + [last];
      if IsFresh(ranges, x) && !(last.start <= x <= last.end) {
        var r :| r in ranges && r.start <= x <= r.end;
        assert r in init;
      }
    }
  }

  /** A range holds `end - start + 1` IDs, none when it is empty. */
  lemma {:induction false} IdsCount(r: Range)
    ensures |Ids(r)| == if r.start <= r.end then r.end - r.start + 1 else 0
    decreases r.end
  {
    if r.start < r.end {
      IdsCount(Range(r.start, r.end - 1));
    }
  }

  function StartOf(r: Range): int { r.start }

  /** Sweep state after a prefix of the sorted ranges: all counted IDs lie below `cursor`, and from `low` up to it every ID is counted. */
  ghost predicate Swept(done: seq<Range>, result: nat, cursor: nat, low: nat) {
    && result == |Covered(done)|
    && (forall x :: x in Covered(done) ==> x < cursor)
    && (forall x: nat :: low <= x < cursor ==> x in Covered(done))
  }

  /** What the next range `r` adds to the covered IDs: those from the cursor, or its start if later, to its end. */
  lemma SweepAdds(done: seq<Range>, result: nat, cursor: nat, low: nat, r: Range)
    requires Swept(done, result, cursor, low) && low <= r.start
    ensures var start := if cursor < r.start then r.start else cursor;
            && Covered(done + [r]) == Covered(done) + Ids(Range(start, r.end))
            && Covered(done) * Ids(Range(start, r.end)) == {}
  {
    var start := if cursor < r.start then r.start else cursor;
    assert (done + [r])[..|done|] == done;
    forall x | x in Ids(r) && x !in Ids(Range(start, r.end))
      ensures x in Covered(done)
    {
    }
  }

  /** One sweep step over the next range `r`, whose start is at least `low`. */
  lemma SweepStep(done: seq<Range>, result: nat, cursor: nat, low: nat, r: Range)
    requires Swept(done, result, cursor, low) && low <= r.start
    ensures var start := if cursor < r.start then r.start else cursor;
            var result' := if start <= r.end then result + (r.end - start + 1) else result;
            var cursor' := if cursor < r.end + 1 then r.end + 1 else cursor;
            var low' := if cursor < r.end + 1 then r.start else low;
            Swept(done + [r], result', cursor', low')
  {
    var start := if cursor < r.start then r.start else cursor;
    SweepAdds(done, result, cursor, low, r);
    IdsCount(Range(start, r.end));
  }

  /**
   * `part2`: the number of IDs covered by at least one range. The ranges are
   * sorted by start; then each range adds the IDs from the cursor (or its
   * start, if later) to its end, and the cursor moves past its end.
   */
  method Part2(ranges: seq<Range>) returns (result: nat)
    ensures result == |Covered(ranges)|
  {
    var a := new Range[|ranges|](i requires 0 <= i < |ranges| => ranges[i]);
    assert a[..] == ranges;
    SortByKey(a, StartOf);
    result := Sweep(a[..]);
    CoveredOrderFree(a[..], ranges);
  }

  /** The sweep over ranges already sorted by start. */
  method Sweep(sorted: seq<Range>) returns (result: nat)
    requires SortedBy(sorted, StartOf)
    ensures result == |Covered(sorted)|
  {
    result := 0;
    var cursor: nat := 0;
    ghost var low: nat := 0;
    for i := 0 to |sorted|
      invariant Swept(sorted[..i], result, cursor, low)
      invariant cursor == EndBound(sorted[..i])
      invariant i < |sorted| ==> low <= sorted[i].start
    {
      var range := sorted[i];
      assert i + 1 < |sorted| ==> StartOf(sorted[i]) <= StartOf(sorted[i + 1]);
      SweepNext(sorted, i, result, cursor, low);
      EndBoundNext(sorted, i);
      var start := if cursor < range.start then range.start else cursor;
      if start <= range.end {
        result := result + (range.end - start + 1);
      }
      if cursor < range.end + 1 {
        low := range.start;
      }
      cursor := if cursor < range.end + 1 then range.end + 1 else cursor;
    }
    assert sorted[..|sorted|] == sorted;
  }

  /** The cursor after sweeping `done`: the last range's end plus one, if that is further than before. */
  function EndBound(done: seq<Range>): nat {
    if done == [] then 0
    else
      var c := EndBound(done[..|done| - 1]);
      var r := done[|done| - 1];
      if c < r.end + 1 then r.end + 1 else c
  }

  /** The cursor is one past the largest end seen, or 0 before any range. */
  lemma {:induction false} EndBoundIsMax(done: seq<Range>)
    ensures forall r :: r in done ==> r.end < EndBound(done)
    ensures EndBound(done) == 0 || exists r :: r in done && EndBound(done) == r.end + 1
    decreases |done|
  {
    if done != [] {
      var init, r := done[..|done| - 1], done[|done| - 1];
      EndBoundIsMax(init);
      assert done == init + [r];
    }
  }

  /** Sweeping one more range moves the cursor to one past its end, if that is further. */
  lemma EndBoundNext(s: seq<Range>, i: nat)
    requires i < |s|
    ensures EndBound(s[..i + 1]) == if EndBound(s[..i]) < s[i].end + 1 then s[i].end + 1 else EndBound(s[..i])
  {
    assert s[..i + 1][..i] == s[..i];
  }

  /** The cursor never moves back: sweeping more ranges never lowers it. */
  lemma {:induction false} CursorMonotone(s: seq<Range>, i: nat, j: nat)
    requires i <= j <= |s|
    ensures EndBound(s[..i]) <= EndBound(s[..j])
    decreases j - i
  {
    if i < j {
      CursorMonotone(s, i, j - 1);
      EndBoundNext(s, j - 1);
    }
  }

  /** One iteration of the sweep keeps its invariants. */
  lemma SweepNext(sorted: seq<Range>, i: nat, result: nat, cursor: nat, low: nat)
    requires i < |sorted| && low <= sorted[i].start
    requires i + 1 < |sorted| ==> sorted[i].start <= sorted[i + 1].start
    requires Swept(sorted[..i], result, cursor, low)
    ensures var r := sorted[i];
            var start := if cursor < r.start then r.start else cursor;
            var result' := if start <= r.end then result + (r.end - start + 1) else result;
            var cursor' := if cursor < r.end + 1 then r.end + 1 else cursor;
            var low' := if cursor < r.end + 1 then r.start else low;
            && Swept(sorted[..i + 1], result', cursor', low')
            && (i + 1 < |sorted| ==> low' <= sorted[i + 1].start)
  {
    var done, r := sorted[..i], sorted[i];
    assert sorted[..i + 1] == done + [r];
    SweepStep(done, result, cursor, low, r);
  }

  /** The covered IDs depend only on the collection of ranges. */
  lemma CoveredOrderFree(ranges: seq<Range>, ranges': seq<Range>)
    requires multiset(ranges) == multiset(ranges')
    ensures Covered(ranges) == Covered(ranges')
  {
    forall x | x in Covered(ranges)
      ensures x in Covered(ranges')
    {
      CoveredIsFresh(ranges, x);
      CoveredIsFresh(ranges', x);
      var r :| r in ranges && r.start <= x <= r.end;
      assert r in multiset(ranges');
    }
    forall x | x in Covered(ranges')
      ensures x in Covered(ranges)
    {
      CoveredIsFresh(ranges, x);
      CoveredIsFresh(ranges', x);
      var r :| r in ranges' && r.start <= x <= r.end;
      assert r in multiset(ranges);
    }
  }

  /** The sum of the range sizes, counting overlaps once per range. */
  function TotalSize(ranges: seq<Range>): nat {
    if ranges == [] then 0
    else
      var r := ranges[|ranges| - 1];
      TotalSize(ranges[..|ranges| - 1]) + (if r.start <= r.end then r.end - r.start + 1 else 0)
  }

  /** No ID lies in two ranges. */
  predicate PairwiseDisjoint(ranges: seq<Range>) {
    forall i, j :: 0 <= i < j < |ranges| ==> Ids(ranges[i]) * Ids(ranges[j]) == {}
  }

  /** The union is never larger than the sum of the sizes, and equal to it when the ranges are disjoint. */
  lemma {:induction false} CoveredAtMostTotal(ranges: seq<Range>)
    ensures |Covered(ranges)| <= TotalSize(ranges)
    ensures PairwiseDisjoint(ranges) ==> |Covered(ranges)| == TotalSize(ranges)
    decreases |ranges|
  {
    if ranges != [] {
      var init, r := ranges[..|ranges| - 1], ranges[|ranges| - 1];
      CoveredAtMostTotal(init);
      IdsCount(r);
      if PairwiseDisjoint(ranges) {
        DisjointParts(ranges);
      }
    }
  }

  /** Without its last range a disjoint database stays disjoint, and the last range shares no ID with the rest. */
  lemma DisjointParts(ranges: seq<Range>)
    requires ranges != [] && PairwiseDisjoint(ranges)
    ensures PairwiseDisjoint(ranges[..|ranges| - 1])
    ensures Covered(ranges[..|ranges| - 1]) * Ids(ranges[|ranges| - 1]) == {}
  {
    var init, r := ranges[..|ranges| - 1], ranges[|ranges| - 1];
    forall i, j | 0 <= i < j < |init|
      ensures Ids(init[i]) * Ids(init[j]) == {}
    {
      assert init[i] == ranges[i] && init[j] == ranges[j];
    }
    forall x | x in Covered(init)
      ensures x !in Ids(r)
    {
      CoveredIsFresh(init, x);
      var q :| q in init && q.start <= x <= q.end;
      var i :| 0 <= i < |init| && init[i] == q;
      assert Ids(ranges[i]) * Ids(ranges[|ranges| - 1]) == {};
      assert x in Ids(ranges[i]);
    }
  }
}
