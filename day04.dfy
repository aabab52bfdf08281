/**
 * Paper rolls on a grid (04.rs): a roll is accessible when fewer than four of
 * its eight neighbours hold rolls. Part 1 counts the accessible rolls; part 2
 * removes every accessible roll at once, round after round, until none is
 * accessible, and counts all the rolls removed.
 */
module Day04 {
  import opened Sorting

  /** `parse_input`: one row per line, `true` where the line has `'@'`. */
  type Grid = seq<seq<bool>>

  /**
   * All rows have the same length. `accessible` bounds the neighbour's column
   * by the length of the cell's own row, so on rows of different lengths it
   * could index past the end of a neighbour's row.
   */
  predicate Rectangular(g: Grid) {
    forall l :: 0 <= l < |g| ==> |g[l]| == |g[0]|
  }

  /** The number of neighbour offsets. */
  const DirectionCount := 8

  /** The `k`-th of the eight neighbour offsets, in the order `accessible` visits them. */
  function Direction(k: nat): (int, int)
    requires k < DirectionCount
  {
    match k
    case 0 => (-1, -1)
    case 1 => (-1, 0)
    case 2 => (-1, 1)
    case 3 => (0, -1)
    case 4 => (0, 1)
    case 5 => (1, -1)
    case 6 => (1, 0)
    case _ => (1, 1)
  }

  /** An offset to one of the eight cells around a cell. */
  predicate IsOffset(d: (int, int)) {
    -1 <= d.0 <= 1 && -1 <= d.1 <= 1 && d != (0, 0)
  }

  /** The position of an offset in the visiting order. */
  function Index(d: (int, int)): nat
    requires IsOffset(d)
  {
    var m := 3 * (d.0 + 1) + (d.1 + 1);
    if m < 4 then m else m - 1
  }

  /** Each direction is an offset, listed at its own position... */
  lemma DirectionIndex(k: nat)
    requires k < DirectionCount
    ensures IsOffset(Direction(k)) && Index(Direction(k)) == k
  {
  }

  /** ...and every offset is listed: the directions are the eight offsets, each once. */
  lemma OffsetIndex(d: (int, int))
    requires IsOffset(d)
    ensures Index(d) < DirectionCount && Direction(Index(d)) == d
  {
  }

  /** The bounds test and lookup of `accessible` for the target `(tl, tc)`, seen from row `line`. */
  predicate Occupied(g: Grid, line: nat, tl: int, tc: int)
    requires Rectangular(g) && line < |g|
  {
    0 <= tl < |g| && 0 <= tc < |g[line]| && g[tl][tc]
  }

  /** How many of the first `k` directions lead to a roll. */
  function Counted(g: Grid, line: nat, column: nat, k: nat): nat
    requires Rectangular(g) && line < |g| && k <= DirectionCount
  {
    if k == 0 then 0
    else
      var (dl, dc) := Direction(k - 1);
      Counted(g, line, column, k - 1) + (if Occupied(g, line, line + dl, column + dc) then 1 else 0)
  }

  /** The number of rolls among the eight neighbours. */
  function Adjacent(g: Grid, line: nat, column: nat): nat
    requires Rectangular(g) && line < |g|
  {
    Counted(g, line, column, DirectionCount)
  }

  /** `accessible`: fewer than four neighbouring rolls. */
  predicate Accessible(g: Grid, line: nat, column: nat)
    requires Rectangular(g) && line < |g|
  {
    Adjacent(g, line, column) < 4
  }

  /** `accessible`: walks the eight directions and counts the rolls found. */
  method IsAccessible(line: nat, column: nat, data: Grid) returns (r: bool)
    requires Rectangular(data) && line < |data|
    ensures r <==> Accessible(data, line, column)
  {
    var adjacent := 0;
    for k := 0 to DirectionCount
      invariant adjacent == Counted(data, line, column, k)
    {
      var (dl, dc) := Direction(k);
      var tl, tc := line + dl, column + dc;
      if 0 <= tl && tl < |data| && 0 <= tc && tc < |data[line]| {
        if data[tl][tc] {
          adjacent := adjacent + 1;
        }
      }
    }
    r := adjacent < 4;
  }

  // ---------------------------------------------------------------------
  // The neighbourhood as a set
  // ---------------------------------------------------------------------

  /** The cells around `(line, column)`, the cell itself excluded, that hold rolls. */
  ghost function Neighbours(g: Grid, line: nat, column: nat): set<(int, int)>
    requires Rectangular(g) && line < |g|
  {
    set tl: int, tc: int | line - 1 <= tl <= line + 1 && column - 1 <= tc <= column + 1
                           && (tl, tc) != (line, column) && Occupied(g, line, tl, tc) :: (tl, tc)
  }

  /** The targets of the first `k` directions that hold rolls. */
  ghost function Hits(g: Grid, line: nat, column: nat, k: nat): set<(int, int)>
    requires Rectangular(g) && line < |g| && k <= DirectionCount
  {
    if k == 0 then {}
    else
      var (dl, dc) := Direction(k - 1);
      Hits(g, line, column, k - 1) + (if Occupied(g, line, line + dl, column + dc) then {(line + dl, column + dc)} else {})
  }

  /** The offset from `(line, column)` to the cell `x`. */
  function Offset(x: (int, int), line: nat, column: nat): (int, int) {
    (x.0 - line, x.1 - column)
  }

  /** The cell `x` is the occupied target of one of the first `k` directions. */
  ghost predicate HitAt(g: Grid, line: nat, column: nat, k: nat, x: (int, int))
    requires Rectangular(g) && line < |g|
  {
    IsOffset(Offset(x, line, column)) && Index(Offset(x, line, column)) < k && Occupied(g, line, x.0, x.1)
  }

  /** Every cell hit is the occupied target of one of the first `k` directions. */
  lemma {:induction false} HitsSound(g: Grid, line: nat, column: nat, k: nat)
    requires Rectangular(g) && line < |g| && k <= DirectionCount
    ensures forall x :: x in Hits(g, line, column, k) ==> HitAt(g, line, column, k, x)
  {
    if k > 0 {
      HitsSound(g, line, column, k - 1);
      DirectionIndex(k - 1);
    }
  }

  /** Every occupied target of the first `k` directions is hit. */
  lemma {:induction false} HitsComplete(g: Grid, line: nat, column: nat, k: nat)
    requires Rectangular(g) && line < |g| && k <= DirectionCount
    ensures forall x :: HitAt(g, line, column, k, x) ==> x in Hits(g, line, column, k)
  {
    if k > 0 {
      HitsComplete(g, line, column, k - 1);
      forall x | HitAt(g, line, column, k, x)
        ensures x in Hits(g, line, column, k)
      {
        var offset := Offset(x, line, column);
        if Index(offset) == k - 1 {
          OffsetIndex(offset);
        } else {
          assert HitAt(g, line, column, k - 1, x);
        }
      }
    }
  }

  /** Direction `k - 1` hits a cell the earlier directions did not. */
  lemma HitsStep(g: Grid, line: nat, column: nat, k: nat, target: (int, int))
    requires Rectangular(g) && line < |g| && 0 < k <= DirectionCount
    requires target == (line + Direction(k - 1).0, column + Direction(k - 1).1)
    ensures target !in Hits(g, line, column, k - 1)
  {
    HitsSound(g, line, column, k - 1);
    DirectionIndex(k - 1);
    assert Offset(target, line, column) == Direction(k - 1);
  }

  /** The first `k` directions hit different cells, so `Counted` is the number of cells hit. */
  lemma {:induction false} HitsCounted(g: Grid, line: nat, column: nat, k: nat)
    requires Rectangular(g) && line < |g| && k <= DirectionCount
    ensures |Hits(g, line, column, k)| == Counted(g, line, column, k)
  {
    if k > 0 {
      HitsCounted(g, line, column, k - 1);
      var (dl, dc) := Direction(k - 1);
      var target := (line + dl, column + dc);
      HitsStep(g, line, column, k, target);
    }
  }

  /** The cells hit by the eight directions are the neighbours holding rolls. */
  lemma HitsAreNeighbours(g: Grid, line: nat, column: nat)
    requires Rectangular(g) && line < |g|
    ensures Hits(g, line, column, DirectionCount) == Neighbours(g, line, column)
  {
    var hits := Hits(g, line, column, DirectionCount);
    HitsSound(g, line, column, DirectionCount);
    HitsComplete(g, line, column, DirectionCount);
    forall x | x in Neighbours(g, line, column)
      ensures x in hits
    {
      OffsetIndex(Offset(x, line, column));
      assert HitAt(g, line, column, DirectionCount, x);
    }
    forall x | x in hits
      ensures x in Neighbours(g, line, column)
    {
      assert HitAt(g, line, column, DirectionCount, x);
    }
  }

  /**
   * `accessible` counts exactly the rolls on the eight cells around the cell,
   * never the cell itself.
   */
  lemma AdjacentIsNeighbours(g: Grid, line: nat, column: nat)
    requires Rectangular(g) && line < |g|
    ensures Adjacent(g, line, column) == |Neighbours(g, line, column)|
  {
    HitsCounted(g, line, column, DirectionCount);
    HitsAreNeighbours(g, line, column);
  }

  // ---------------------------------------------------------------------
  // Part 1 (04.rs:31-41)
  // ---------------------------------------------------------------------

  /** A roll that `part1` counts and a round of `part2` removes. */
  predicate Removable(g: Grid, line: nat, column: nat)
    requires Rectangular(g) && line < |g| && column < |g[line]|
  {
    g[line][column] && Accessible(g, line, column)
  }

  /** The removable cells of row `line` before column `k`, in scan order. */
  function RowPicks(g: Grid, line: nat, k: nat): seq<(nat, nat)>
    requires Rectangular(g) && line < |g| && k <= |g[line]|
  {
    if k == 0 then []
    else RowPicks(g, line, k - 1) + (if Removable(g, line, k - 1) then [(line, k - 1)] else [])
  }

  /** The removable cells of the first `n` rows, in scan order. */
  function Picks(g: Grid, n: nat): seq<(nat, nat)>
    requires Rectangular(g) && n <= |g|
  {
    if n == 0 then [] else Picks(g, n - 1) + RowPicks(g, n - 1, |g[n - 1]|)
  }

  /** Every removable cell, as a set. */
  ghost function Accessibles(g: Grid): set<(nat, nat)>
    requires Rectangular(g)
  {
    set l: nat, c: nat | l < |g| && c < |g[l]| && Removable(g, l, c) :: (l, c)
  }

  /** `RowPicks` lists exactly the removable cells of its row prefix, each once. */
  lemma {:induction false} RowPicksExact(g: Grid, line: nat, k: nat)
    requires Rectangular(g) && line < |g| && k <= |g[line]|
    ensures Distinct(RowPicks(g, line, k))
    ensures forall l: nat, c: nat :: (l, c) in RowPicks(g, line, k) <==> l == line && c < k && Removable(g, l, c)
  {
    if k > 0 {
      RowPicksExact(g, line, k - 1);
    }
  }

  /** `Picks` lists exactly the removable cells of its rows, each once. */
  lemma {:induction false} PicksExact(g: Grid, n: nat)
    requires Rectangular(g) && n <= |g|
    ensures Distinct(Picks(g, n))
    ensures forall l: nat, c: nat :: (l, c) in Picks(g, n) <==> l < n && c < |g[l]| && Removable(g, l, c)
  {
    if n > 0 {
      PicksExact(g, n - 1);
      var row := RowPicks(g, n - 1, |g[n - 1]|);
      RowPicksExact(g, n - 1, |g[n - 1]|);
      forall x | x in Picks(g, n - 1)
        ensures x !in row
      {
        assert x == (x.0, x.1);
      }
      AppendDistinct(Picks(g, n - 1), row);
    }
  }

  /** Two lists without repetitions and without common elements concatenate to one. */
  lemma AppendDistinct<T>(s: seq<T>, t: seq<T>)
    requires Distinct(s) && Distinct(t) && forall x :: x in s ==> x !in t
    ensures Distinct(s + t)
  {
    forall k, l | 0 <= k < l < |s + t|
      ensures (s + t)[k] != (s + t)[l]
    {
      if k < |s| && l >= |s| {
        assert (s + t)[k] in s && (s + t)[l] == t[l - |s|];
      }
    }
  }

  /** `part1`'s count is the number of accessible rolls. */
  lemma PicksCount(g: Grid)
    requires Rectangular(g)
    ensures |Picks(g, |g|)| == |Accessibles(g)|
  {
    var picks := Picks(g, |g|);
    PicksExact(g, |g|);
    DistinctCard(picks);
    forall x | x in Elems(picks)
      ensures x in Accessibles(g)
    {
      assert x == (x.0, x.1);
    }
    assert Elems(picks) == Accessibles(g);
  }

  /** `part1`: scans every cell and counts the accessible rolls. */
  method Part1(data: Grid) returns (result: nat)
    requires Rectangular(data)
    ensures result == |Accessibles(data)|
  {
    result := 0;
    for line := 0 to |data|
      invariant result == |Picks(data, line)|
    {
      for column := 0 to |data[line]|
        invariant result == |Picks(data, line)| + |RowPicks(data, line, column)|
      {
        if data[line][column] {
          var accessible := IsAccessible(line, column, data);
          if accessible {
            result := result + 1;
          }
        }
      }
    }
    PicksCount(data);
  }

  // ---------------------------------------------------------------------
  // Part 2 (04.rs:43-67)
  // ---------------------------------------------------------------------

  /** The cells holding rolls. */
  ghost function Rolls(g: Grid): set<(nat, nat)> {
    set l: nat, c: nat | l < |g| && c < |g[l]| && g[l][c] :: (l, c)
  }

  /** One round: every roll accessible at the start of the round is removed. */
  function Round(g: Grid): (r: Grid)
    requires Rectangular(g)
  {
    seq(|g|, l requires 0 <= l < |g| =>
      seq(|g[l]|, c requires 0 <= c < |g[l]| => g[l][c] && !Accessible(g, l, c)))
  }

  /** A round keeps the shape of the grid and removes exactly the accessible rolls. */
  lemma RoundRemoves(g: Grid)
    requires Rectangular(g)
    ensures |Round(g)| == |g| && forall l :: 0 <= l < |g| ==> |Round(g)[l]| == |g[l]|
    ensures Rectangular(Round(g))
    ensures Rolls(Round(g)) == Rolls(g) - Accessibles(g)
    ensures |Rolls(Round(g))| == |Rolls(g)| - |Accessibles(g)|
  {
    var r := Round(g);
    assert Rolls(r) == Rolls(g) - Accessibles(g);
    assert Accessibles(g) <= Rolls(g);
  }

  /** `part2`'s answer: rolls removed round after round until none is accessible. */
  ghost function Removed(g: Grid): nat
    requires Rectangular(g)
    decreases |Rolls(g)|
  {
    if Accessibles(g) == {} then 0
    else
      RoundRemoves(g);
      |Accessibles(g)| + Removed(Round(g))
  }

  /** The grid left when no roll is accessible. */
  ghost function Final(g: Grid): (r: Grid)
    requires Rectangular(g)
    decreases |Rolls(g)|
  {
    if Accessibles(g) == {} then g
    else
      RoundRemoves(g);
      Final(Round(g))
  }

  /**
   * `part2` only removes rolls, leaves none accessible, and its answer is the
   * number of rolls it removed.
   */
  lemma {:induction false} RemovedIsDifference(g: Grid)
    requires Rectangular(g)
    ensures Rectangular(Final(g)) && Accessibles(Final(g)) == {}
    ensures Rolls(Final(g)) <= Rolls(g)
    ensures Removed(g) == |Rolls(g)| - |Rolls(Final(g))|
    decreases |Rolls(g)|
  {
    if Accessibles(g) != {} {
      RoundRemoves(g);
      RemovedIsDifference(Round(g));
    }
  }

  /** The first round removes exactly what `part1` counts, so `part2` is at least `part1`. */
  lemma RemovedAtLeastPart1(g: Grid)
    requires Rectangular(g)
    ensures Removed(g) >= |Accessibles(g)|
  {
  }

  /** `remove`: the accessible rolls, in scan order. */
  method Removals(data: Grid) returns (remove: seq<(nat, nat)>)
    requires Rectangular(data)
    ensures remove == Picks(data, |data|)
  {
    remove := [];
    for line := 0 to |data|
      invariant remove == Picks(data, line)
    {
      for column := 0 to |data[line]|
        invariant remove == Picks(data, line) + RowPicks(data, line, column)
      {
        if data[line][column] {
          var accessible := IsAccessible(line, column, data);
          if accessible {
            remove := remove + [(line, column)];
          }
        }
      }
    }
  }

  /** `for (line, column) in remove { data[line][column] = false }`. */
  method ClearAll(data: Grid, remove: seq<(nat, nat)>) returns (r: Grid)
    requires forall k :: 0 <= k < |remove| ==> remove[k].0 < |data| && remove[k].1 < |data[remove[k].0]|
    ensures |r| == |data| && forall l :: 0 <= l < |data| ==> |r[l]| == |data[l]|
    ensures forall l, c :: 0 <= l < |data| && 0 <= c < |data[l]| ==> r[l][c] == (data[l][c] && (l, c) !in remove)
  {
    r := data;
    for k := 0 to |remove|
      invariant |r| == |data| && forall l :: 0 <= l < |data| ==> |r[l]| == |data[l]|
      invariant forall l, c :: 0 <= l < |data| && 0 <= c < |data[l]| ==> r[l][c] == (data[l][c] && (l, c) !in remove[..k])
    {
      var (line, column) := remove[k];
      r := r[line := r[line][column := false]];
      assert remove[..k + 1] == remove[..k] + [remove[k]];
    }
    assert remove[..|remove|] == remove;
  }

  /** Clearing the cells `part1`'s scan lists is one round. */
  lemma ClearedIsRound(data: Grid, r: Grid)
    requires Rectangular(data)
    requires |r| == |data| && forall l :: 0 <= l < |data| ==> |r[l]| == |data[l]|
    requires forall l, c :: 0 <= l < |data| && 0 <= c < |data[l]| ==> r[l][c] == (data[l][c] && (l, c) !in Picks(data, |data|))
    ensures r == Round(data)
  {
    PicksExact(data, |data|);
    forall l | 0 <= l < |data|
      ensures r[l] == Round(data)[l]
    {
      forall c | 0 <= c < |data[l]|
        ensures r[l][c] == Round(data)[l][c]
      {
        assert (l, c) in Picks(data, |data|) <==> Removable(data, l, c);
      }
    }
  }

  /** `part2`: removes the accessible rolls round by round until a round finds none. */
  method Part2(grid: Grid) returns (result: nat)
    requires Rectangular(grid)
    ensures result == Removed(grid)
  {
    var data := grid;
    result := 0;
    while true
      invariant Rectangular(data) && result + Removed(data) == Removed(grid)
      decreases |Rolls(data)|
    {
      var remove := Removals(data);
      PicksExact(data, |data|);
      PicksCount(data);
      if |remove| == 0 {
        break;
      }
      result := result + |remove|;
      var cleared := ClearAll(data, remove);
      ClearedIsRound(data, cleared);
      RoundRemoves(data);
      data := cleared;
    }
  }
}
