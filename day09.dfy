/**
 * Day 9 (src/bin/09.rs): the largest axis-aligned rectangle, with two red
 * tiles of a rectilinear loop as opposite corners.
 *
 * Part 1 takes every pair of tiles. Part 2 keeps only rectangles that lie
 * inside the loop: both axes are compressed into half-open ranges, the loop
 * is drawn on the compressed grid, the interior is flood-filled from a seed
 * found on the middle row, a 2D prefix-sum table counts the cells left
 * outside ('.'), and each candidate rectangle is checked by
 * inclusion-exclusion on that table.
 */
module Day09 {
  import opened Wrappers

  /** Upper sentinel of both coordinate axes (09.rs:35). */
  const DomainEnd: nat := 100_000

  /** A red tile: `.0` (here `row`) feeds the row compaction, `.1` the column one. */
  datatype Tile = Tile(row: nat, col: nat)

  /** A cell of the compacted grid. */
  datatype Cell = Cell(row: nat, col: nat)

  /** The half-open range `start..end` of raw coordinates. */
  datatype Range = Range(start: nat, end: nat)

  predicate Contains(r: Range, v: nat) {
    r.start <= v < r.end
  }

  // ---------------------------------------------------------------------
  // Coordinate compression (09.rs:29-39)
  // ---------------------------------------------------------------------

  function Elems(s: seq<nat>): set<nat> {
    set x | x in s
  }

  predicate StrictlyIncreasing(s: seq<nat>) {
    forall i, j :: 0 <= i < j < |s| ==> s[i] < s[j]
  }

  /** Inserts `x` into a strictly increasing sequence, dropping a duplicate. */
  function InsertDistinct(x: nat, s: seq<nat>): (r: seq<nat>)
    requires StrictlyIncreasing(s)
    ensures StrictlyIncreasing(r)
    ensures Elems(r) == Elems(s) + {x}
  {
    if s == [] then [x]
    else if x < s[0] then [x] + s
    else if x == s[0] then s
    else
      var rest := InsertDistinct(x, s[1..]);
      assert Elems(s) == {s[0]} + Elems(s[1..]);
      assert Elems([s[0]] + rest) == {s[0]} + Elems(rest);
      assert forall k :: 0 <= k < |rest| ==> s[0] < rest[k] by {
        forall k | 0 <= k < |rest|
          ensures s[0] < rest[k]
        {
          assert rest[k] in Elems(rest);
        }
      }
      [s[0]] + rest
  }

  /** `indices.sorted().dedup()`: the distinct values in ascending order. */
  function SortedDistinct(s: seq<nat>): (r: seq<nat>)
    ensures StrictlyIncreasing(r)
    ensures Elems(r) == Elems(s)
  {
    if s == [] then []
    else
      assert Elems(s) == Elems(s[..|s| - 1]) + {s[|s| - 1]};
      InsertDistinct(s[|s| - 1], SortedDistinct(s[..|s| - 1]))
  }

  lemma {:induction false} StrictlyIncreasingCard(s: seq<nat>)
    requires StrictlyIncreasing(s)
    ensures |Elems(s)| == |s|
  {
    if s != [] {
      StrictlyIncreasingCard(s[1..]);
      assert Elems(s) == {s[0]} + Elems(s[1..]);
      assert s[0] !in Elems(s[1..]);
    }
  }

  /** Consecutive pairs of the boundary list, as half-open ranges. */
  function Windows(b: seq<nat>): (r: seq<Range>)
    requires |b| >= 1
    ensures |r| == |b| - 1
    ensures forall i :: 0 <= i < |r| ==> r[i] == Range(b[i], b[i + 1])
  {
    seq(|b| - 1, i requires 0 <= i < |b| - 1 => Range(b[i], b[i + 1]))
  }

  /** `compact`: 0, the distinct values ascending, then `DomainEnd`, taken pairwise. */
  function Compact(values: seq<nat>): (r: seq<Range>)
    ensures |r| == |SortedDistinct(values)| + 1
    ensures r[0].start == 0 && r[|r| - 1].end == DomainEnd
    ensures forall i :: 0 <= i < |r| - 1 ==> r[i].end == r[i + 1].start
  {
    Windows([0] + SortedDistinct(values) + [DomainEnd])
  }

  /** The compaction has one range more than there are distinct values. */
  lemma CompactLength(values: seq<nat>)
    ensures |Compact(values)| == |Elems(values)| + 1
  {
    StrictlyIncreasingCard(SortedDistinct(values));
  }

  /** Every value is the start of some range of its compaction. */
  lemma CompactStarts(values: seq<nat>, v: nat)
    requires v in values
    ensures exists i :: 0 <= i < |Compact(values)| && Compact(values)[i].start == v
  {
    var sd := SortedDistinct(values);
    assert v in Elems(sd);
    var k :| 0 <= k < |sd| && sd[k] == v;
    assert Compact(values)[k + 1].start == v;
  }

  /**
   * A compaction the binary search can work on: it starts at 0, every range
   * is `start <= end` (possibly empty), and each range ends where the next
   * one starts.
   */
  predicate WellFormed(c: seq<Range>) {
    && |c| > 0
    && c[0].start == 0
    && (forall i :: 0 <= i < |c| ==> c[i].start <= c[i].end)
    && (forall i :: 0 <= i < |c| - 1 ==> c[i].end == c[i + 1].start)
  }

  /** With every value below `DomainEnd` (so that no range is reversed) the compaction is well formed. */
  lemma CompactWellFormed(values: seq<nat>)
    requires forall v :: v in values ==> v < DomainEnd
    ensures WellFormed(Compact(values))
  {
    var sd := SortedDistinct(values);
    var b := [0] + sd + [DomainEnd];
    forall i | 0 <= i < |b| - 1
      ensures b[i] <= b[i + 1]
    {
      if 1 <= i < |sd| {
        assert b[i] == sd[i - 1] && b[i + 1] == sd[i];
      } else if i == |sd| && i > 0 {
        assert sd[i - 1] in Elems(sd);
      } else if i == 0 && |sd| > 0 {
        assert b[1] == sd[0];
      }
    }
  }

  /** Ranges of a well-formed compaction come in order: an earlier one ends before a later one starts. */
  lemma {:induction false} Ordered(c: seq<Range>, i: nat, j: nat)
    requires WellFormed(c) && i < j < |c|
    ensures c[i].end <= c[j].start
    decreases j - i
  {
    if i + 1 < j {
      Ordered(c, i + 1, j);
    }
  }

  /** At most one range of a well-formed compaction contains a value. */
  lemma ContainedOnce(c: seq<Range>, v: nat, i: nat, j: nat)
    requires WellFormed(c) && i < |c| && j < |c|
    requires Contains(c[i], v) && Contains(c[j], v)
    ensures i == j
  {
    if i < j {
      Ordered(c, i, j);
    } else if j < i {
      Ordered(c, j, i);
    }
  }

  /** Some range contains `v`: otherwise `downgrade`'s `unwrap` panics. */
  predicate Locatable(c: seq<Range>, v: nat) {
    exists j :: 0 <= j < |c| && Contains(c[j], v)
  }

  /** A well-formed compaction locates exactly the values below its last end. */
  lemma {:induction false} LocatableBelowEnd(c: seq<Range>, v: nat)
    requires WellFormed(c)
    ensures Locatable(c, v) <==> v < c[|c| - 1].end
  {
    if v < c[|c| - 1].end {
      if v >= c[|c| - 1].start {
        assert Contains(c[|c| - 1], v);
      } else {
        var p := c[..|c| - 1];
        assert WellFormed(p);
        LocatableBelowEnd(p, v);
        var j :| 0 <= j < |p| && Contains(p[j], v);
        assert Contains(c[j], v);
      }
    } else if Locatable(c, v) {
      var j :| 0 <= j < |c| && Contains(c[j], v);
      if j < |c| - 1 {
        Ordered(c, j, |c| - 1);
      }
    }
  }

  function FindRange(c: seq<Range>, v: nat, from: nat): (i: nat)
    requires from <= |c|
    requires exists j :: from <= j < |c| && Contains(c[j], v)
    ensures from <= i < |c| && Contains(c[i], v)
    ensures forall j :: from <= j < i ==> !Contains(c[j], v)
    decreases |c| - from
  {
    if Contains(c[from], v) then from else FindRange(c, v, from + 1)
  }

  /** The index of the range containing `v`: what `downgrade` returns. */
  function RangeIndex(c: seq<Range>, v: nat): (i: nat)
    requires Locatable(c, v)
    ensures i < |c| && Contains(c[i], v)
  {
    FindRange(c, v, 0)
  }

  /**
   * `downgrade`: binary search for the range containing `coord`. A range
   * holding the value compares Equal, one starting above it Greater, any
   * other Less.
   */
  method Downgrade(c: seq<Range>, coord: nat) returns (index: nat)
    requires WellFormed(c) && Locatable(c, coord)
    ensures index < |c| && Contains(c[index], coord)
    ensures index == RangeIndex(c, coord)
  {
    var lo, hi := 0, |c|;
    while lo < hi
      invariant 0 <= lo <= hi <= |c|
      invariant forall j :: 0 <= j < lo ==> c[j].end <= coord
      invariant forall j :: hi <= j < |c| ==> coord < c[j].start
    {
      var mid := lo + (hi - lo) / 2;
      if Contains(c[mid], coord) {
        ContainedOnce(c, coord, mid, RangeIndex(c, coord));
        return mid;
      } else if c[mid].start > coord {
        forall j | mid <= j < |c|
          ensures coord < c[j].start
        {
          if mid < j {
            Ordered(c, mid, j);
          }
        }
        hi := mid;
      } else {
        forall j | 0 <= j <= mid
          ensures c[j].end <= coord
        {
          if j < mid {
            Ordered(c, j, mid);
          }
        }
        lo := mid + 1;
      }
    }
    assert false;
  }

  /** `downgrade` is monotone: a <= b maps to ranges in the same order. */
  lemma DowngradeMonotone(c: seq<Range>, a: nat, b: nat)
    requires WellFormed(c) && Locatable(c, a) && Locatable(c, b) && a <= b
    ensures RangeIndex(c, a) <= RangeIndex(c, b)
  {
    var i, j := RangeIndex(c, a), RangeIndex(c, b);
    if j < i {
      Ordered(c, j, i);
    }
  }

  /** A value of the compaction's input is mapped to the range that starts at it. */
  lemma DowngradeOfInput(values: seq<nat>, v: nat)
    requires forall x :: x in values ==> x < DomainEnd
    requires v in values
    ensures Locatable(Compact(values), v)
    ensures Compact(values)[RangeIndex(Compact(values), v)].start == v
  {
    var c := Compact(values);
    var sd := SortedDistinct(values);
    assert v in Elems(sd);
    var k :| 0 <= k < |sd| && sd[k] == v;
    if k + 1 < |sd| {
      assert c[k + 1] == Range(sd[k], sd[k + 1]);
    } else {
      assert c[k + 1] == Range(sd[k], DomainEnd);
    }
    assert Contains(c[k + 1], v);
    CompactWellFormed(values);
    ContainedOnce(c, v, k + 1, RangeIndex(c, v));
  }

  // ---------------------------------------------------------------------
  // Edges on the compacted grid (09.rs:55-73, 104-116)
  // ---------------------------------------------------------------------

  function Min(a: nat, b: nat): nat { if a <= b then a else b }
  function Max(a: nat, b: nat): nat { if a <= b then b else a }

  /**
   * `p` lies strictly between `a` and `b` on the row they share or, when
   * they do not share a row, on the column they share.
   */
  predicate StrictlyBetween(a: Cell, b: Cell, p: Cell) {
    if a.row == b.row then p.row == a.row && Min(a.col, b.col) < p.col < Max(a.col, b.col)
    else p.col == a.col && Min(a.row, b.row) < p.row < Max(a.row, b.row)
  }

  /** `between`: the cells strictly between two cells of one row or one column; a diagonal pair panics. */
  function Between(a: Cell, b: Cell): (cells: seq<Cell>)
    requires a.row == b.row || a.col == b.col
    ensures forall k :: 0 <= k < |cells| ==> StrictlyBetween(a, b, cells[k])
  {
    if a.row == b.row then
      var lo, hi := Min(a.col, b.col), Max(a.col, b.col);
      seq(if lo < hi then hi - lo - 1 else 0, k requires 0 <= k => Cell(a.row, lo + 1 + k))
    else
      var lo, hi := Min(a.row, b.row), Max(a.row, b.row);
      seq(if lo < hi then hi - lo - 1 else 0, k requires 0 <= k => Cell(lo + 1 + k, a.col))
  }

  /** `between` yields exactly the cells strictly between the endpoints, |delta| - 1 of them (none when adjacent or equal). */
  lemma BetweenExactly(a: Cell, b: Cell, p: Cell)
    requires a.row == b.row || a.col == b.col
    ensures p in Between(a, b) <==> StrictlyBetween(a, b, p)
    ensures |Between(a, b)| == if a.row == b.row then Max(a.col, b.col) - Min(a.col, b.col) - (if a.col == b.col then 0 else 1)
                               else Max(a.row, b.row) - Min(a.row, b.row) - 1
  {
    var cells := Between(a, b);
    if StrictlyBetween(a, b, p) {
      if a.row == b.row {
        assert cells[p.col - Min(a.col, b.col) - 1] == p;
      } else {
        assert cells[p.row - Min(a.row, b.row) - 1] == p;
      }
    }
  }

  /** A grid of `h` rows of `w` characters. */
  predicate IsGrid(g: seq<seq<char>>, h: nat, w: nat) {
    |g| == h && forall r :: 0 <= r < h ==> |g[r]| == w
  }

  predicate InBounds(p: Cell, h: nat, w: nat) {
    p.row < h && p.col < w
  }

  predicate InGrid(g: seq<seq<char>>, p: Cell) {
    p.row < |g| && p.col < |g[p.row]|
  }

  /** The grid with cell `p` set to `ch`. */
  function Put(g: seq<seq<char>>, p: Cell, ch: char): (g': seq<seq<char>>)
    requires InGrid(g, p)
    ensures |g'| == |g| && forall r :: 0 <= r < |g| ==> |g'[r]| == |g[r]|
    ensures g'[p.row][p.col] == ch
    ensures forall r, c :: 0 <= r < |g| && 0 <= c < |g[r]| && (r != p.row || c != p.col) ==> g'[r][c] == g[r][c]
  {
    g[p.row := g[p.row][p.col := ch]]
  }

  /** The grid with every listed cell set to `ch`. */
  function PutAll(g: seq<seq<char>>, cells: seq<Cell>, ch: char): (g': seq<seq<char>>)
    requires forall k :: 0 <= k < |cells| ==> InGrid(g, cells[k])
    ensures |g'| == |g| && forall r :: 0 <= r < |g| ==> |g'[r]| == |g[r]|
    ensures forall r, c :: 0 <= r < |g| && 0 <= c < |g[r]| ==>
              g'[r][c] == if Cell(r, c) in cells then ch else g[r][c]
    decreases |cells|
  {
    if cells == [] then g
    else
      var g1 := Put(g, cells[0], ch);
      assert forall k :: 0 <= k < |cells[1..]| ==> InGrid(g1, cells[1..][k]) by {
        forall k | 0 <= k < |cells[1..]|
          ensures InGrid(g1, cells[1..][k])
        {
          assert cells[1..][k] == cells[k + 1] && InGrid(g, cells[k + 1]);
        }
      }
      PutAll(g1, cells[1..], ch)
  }

  function Blank(h: nat, w: nat): (g: seq<seq<char>>)
    ensures IsGrid(g, h, w)
    ensures forall r, c :: 0 <= r < h && 0 <= c < w ==> g[r][c] == '.'
  {
    seq(h, _ => seq(w, _ => '.'))
  }

  /** Index of the other end of edge `i`: the closing edge goes from the last corner back to the first. */
  function Next(n: nat, i: nat): nat
    requires i < n
  {
    if i + 1 == n then 0 else i + 1
  }

  /** Every edge, the closing one included, keeps a row or a column: otherwise `between` panics. */
  predicate StraightLoop(vs: seq<Cell>) {
    forall i :: 0 <= i < |vs| ==> vs[i].row == vs[Next(|vs|, i)].row || vs[i].col == vs[Next(|vs|, i)].col
  }

  /** The first `k` edges drawn: each corner `'#'`, then the cells between it and the next corner `'X'`. */
  function Draw(g: seq<seq<char>>, h: nat, w: nat, vs: seq<Cell>, k: nat): (g': seq<seq<char>>)
    requires IsGrid(g, h, w)
    requires StraightLoop(vs) && k <= |vs|
    requires forall i :: 0 <= i < |vs| ==> InBounds(vs[i], h, w)
    ensures IsGrid(g', h, w)
  {
    if k == 0 then g
    else
      var d := Draw(g, h, w, vs, k - 1);
      var a, b := vs[k - 1], vs[Next(|vs|, k - 1)];
      BetweenInBounds(a, b, h, w);
      PutAll(Put(d, a, '#'), Between(a, b), 'X')
  }

  lemma BetweenInBounds(a: Cell, b: Cell, h: nat, w: nat)
    requires a.row == b.row || a.col == b.col
    requires InBounds(a, h, w) && InBounds(b, h, w)
    ensures forall k :: 0 <= k < |Between(a, b)| ==> InBounds(Between(a, b)[k], h, w)
  {
  }

  /** `p` is a corner among the first `k` or lies strictly inside one of the first `k` edges. */
  predicate OnLoop(vs: seq<Cell>, k: nat, p: Cell)
    requires k <= |vs|
  {
    exists i :: 0 <= i < k && (p == vs[i] || StrictlyBetween(vs[i], vs[Next(|vs|, i)], p))
  }

  /** Drawing edge `k - 1` over the first `k - 1` edges. */
  lemma DrawStep(g: seq<seq<char>>, h: nat, w: nat, vs: seq<Cell>, k: nat, p: Cell)
    requires IsGrid(g, h, w)
    requires StraightLoop(vs) && 0 < k <= |vs|
    requires forall i :: 0 <= i < |vs| ==> InBounds(vs[i], h, w)
    requires InBounds(p, h, w)
    ensures Draw(g, h, w, vs, k)[p.row][p.col] ==
      if StrictlyBetween(vs[k - 1], vs[Next(|vs|, k - 1)], p) then 'X'
      else if p == vs[k - 1] then '#'
      else Draw(g, h, w, vs, k - 1)[p.row][p.col]
  {
    var d := Draw(g, h, w, vs, k - 1);
    var a, b := vs[k - 1], vs[Next(|vs|, k - 1)];
    BetweenInBounds(a, b, h, w);
    BetweenExactly(a, b, p);
    var d1 := Put(d, a, '#');
    assert d1[p.row][p.col] == if p == a then '#' else d[p.row][p.col];
  }

  lemma OnLoopStep(vs: seq<Cell>, k: nat, p: Cell)
    requires 0 < k <= |vs|
    ensures OnLoop(vs, k, p) <==> OnLoop(vs, k - 1, p) || p == vs[k - 1] || StrictlyBetween(vs[k - 1], vs[Next(|vs|, k - 1)], p)
  {
    if OnLoop(vs, k, p) && !OnLoop(vs, k - 1, p) {
      var i :| 0 <= i < k && (p == vs[i] || StrictlyBetween(vs[i], vs[Next(|vs|, i)], p));
      assert i == k - 1;
    }
    if OnLoop(vs, k - 1, p) {
      var i :| 0 <= i < k - 1 && (p == vs[i] || StrictlyBetween(vs[i], vs[Next(|vs|, i)], p));
      assert 0 <= i < k;
    }
    if p == vs[k - 1] || StrictlyBetween(vs[k - 1], vs[Next(|vs|, k - 1)], p) {
      assert 0 <= k - 1 < k;
    }
  }

  /**
   * Drawing the loop on a blank grid marks exactly the corners and the cells
   * between consecutive corners, the closing edge included; marked cells hold
   * `'#'` or `'X'` and all others stay `'.'`.
   */
  lemma DrawMarksLoop(h: nat, w: nat, vs: seq<Cell>, k: nat, p: Cell)
    requires StraightLoop(vs) && k <= |vs|
    requires forall i :: 0 <= i < |vs| ==> InBounds(vs[i], h, w)
    requires InBounds(p, h, w)
    ensures Draw(Blank(h, w), h, w, vs, k)[p.row][p.col] in {'.', '#', 'X'}
    ensures Draw(Blank(h, w), h, w, vs, k)[p.row][p.col] != '.' <==> OnLoop(vs, k, p)
  {
    DrawIsMarks(Blank(h, w), h, w, vs, k, p);
    MarksLoop(vs, k, p);
  }

  /** The mark cell `p` carries after the first `k` edges, the last edge drawn winning. */
  function MarkAt(vs: seq<Cell>, k: nat, p: Cell): char
    requires k <= |vs|
  {
    if k == 0 then '.'
    else if StrictlyBetween(vs[k - 1], vs[Next(|vs|, k - 1)], p) then 'X'
    else if p == vs[k - 1] then '#'
    else MarkAt(vs, k - 1, p)
  }

  lemma DrawIsMarks(g: seq<seq<char>>, h: nat, w: nat, vs: seq<Cell>, k: nat, p: Cell)
    requires IsGrid(g, h, w)
    requires StraightLoop(vs) && k <= |vs|
    requires forall i :: 0 <= i < |vs| ==> InBounds(vs[i], h, w)
    requires InBounds(p, h, w) && g[p.row][p.col] == '.'
    ensures Draw(g, h, w, vs, k)[p.row][p.col] == MarkAt(vs, k, p)
  {
    for i := 0 to k
      invariant Draw(g, h, w, vs, i)[p.row][p.col] == MarkAt(vs, i, p)
    {
      DrawStep(g, h, w, vs, i + 1, p);
    }
  }

  lemma {:induction false} MarksLoop(vs: seq<Cell>, k: nat, p: Cell)
    requires k <= |vs|
    ensures MarkAt(vs, k, p) in {'.', '#', 'X'}
    ensures MarkAt(vs, k, p) != '.' <==> OnLoop(vs, k, p)
  {
    if k > 0 {
      MarksLoop(vs, k - 1, p);
      OnLoopStep(vs, k, p);
    }
  }

  // ---------------------------------------------------------------------
  // Flood fill (09.rs:75-97)
  // ---------------------------------------------------------------------

  /** The array holds the grid `g`. */
  ghost predicate Holds(a: array2<char>, g: seq<seq<char>>)
    reads a
  {
    && IsGrid(g, a.Length0, a.Length1)
    && forall r, c :: 0 <= r < a.Length0 && 0 <= c < a.Length1 ==> a[r, c] == g[r][c]
  }

  /** The grid the array holds. */
  ghost function Cells(a: array2<char>): (g: seq<seq<char>>)
    reads a
    ensures Holds(a, g)
  {
    seq(a.Length0, r requires 0 <= r < a.Length0 reads a =>
      seq(a.Length1, c requires 0 <= c < a.Length1 reads a => a[r, c]))
  }

  predicate Adjacent(p: Cell, q: Cell) {
    || (p.row == q.row && (p.col + 1 == q.col || q.col + 1 == p.col))
    || (p.col == q.col && (p.row + 1 == q.row || q.row + 1 == p.row))
  }

  /** A 4-connected walk from `s` whose every later cell is in bounds and `'.'` in `g`. */
  ghost predicate IsWalk(g: seq<seq<char>>, h: nat, w: nat, s: Cell, path: seq<Cell>)
    requires IsGrid(g, h, w)
  {
    && |path| > 0 && path[0] == s
    && forall k :: 0 < k < |path| ==>
         InBounds(path[k], h, w) && g[path[k].row][path[k].col] == '.' && Adjacent(path[k - 1], path[k])
  }

  ghost predicate Reachable(g: seq<seq<char>>, h: nat, w: nat, s: Cell, p: Cell)
    requires IsGrid(g, h, w)
  {
    exists path :: IsWalk(g, h, w, s, path) && path[|path| - 1] == p
  }

  /**
   * The grid after `fill(g, s)`: the start cell becomes `'F'`, every `'.'`
   * cell 4-connected to it through `'.'` cells becomes `'X'`, and nothing
   * else changes.
   */
  ghost function Filled(g: seq<seq<char>>, h: nat, w: nat, s: Cell): (f: seq<seq<char>>)
    requires IsGrid(g, h, w) && InBounds(s, h, w)
    ensures IsGrid(f, h, w)
  {
    seq(h, r requires 0 <= r < h => seq(w, c requires 0 <= c < w =>
      if Cell(r, c) == s then 'F'
      else if g[r][c] == '.' && Reachable(g, h, w, s, Cell(r, c)) then 'X'
      else g[r][c]))
  }

  lemma WalkExtend(g: seq<seq<char>>, h: nat, w: nat, s: Cell, p: Cell, q: Cell)
    requires IsGrid(g, h, w) && Reachable(g, h, w, s, p)
    requires InBounds(q, h, w) && g[q.row][q.col] == '.' && Adjacent(p, q)
    ensures Reachable(g, h, w, s, q)
  {
    var path :| IsWalk(g, h, w, s, path) && path[|path| - 1] == p;
    assert IsWalk(g, h, w, s, path + [q]);
  }

  /** Once every marked cell has no `'.'` neighbour left, every walk from the start stays among marked cells. */
  lemma {:induction false} WalkCovered(g: seq<seq<char>>, gf: seq<seq<char>>, h: nat, w: nat, s: Cell,
                                       marked: set<Cell>, path: seq<Cell>)
    requires IsGrid(g, h, w) && IsGrid(gf, h, w) && InBounds(s, h, w)
    requires forall r, c :: 0 <= r < h && 0 <= c < w ==>
               gf[r][c] == if Cell(r, c) == s then 'F' else if Cell(r, c) in marked then 'X' else g[r][c]
    requires forall p, q :: (p == s || p in marked) && InBounds(q, h, w) && Adjacent(p, q) ==> gf[q.row][q.col] != '.'
    requires IsWalk(g, h, w, s, path)
    ensures path[|path| - 1] == s || path[|path| - 1] in marked
    decreases |path|
  {
    if |path| > 1 {
      var prefix := path[..|path| - 1];
      assert IsWalk(g, h, w, s, prefix);
      WalkCovered(g, gf, h, w, s, marked, prefix);
      var q := path[|path| - 1];
      assert Adjacent(prefix[|prefix| - 1], q);
    }
  }

  /** The four moves of `fill`, in the source's order: up, down, left, right. */
  const Deltas: seq<(int, int)> := [(-1, 0), (1, 0), (0, -1), (0, 1)]

  /** The cell one move `e` away from `p` is off the grid or not `'.'`. */
  ghost predicate MoveDone(a: array2<char>, p: Cell, e: nat)
    requires e < |Deltas|
    reads a
  {
    var nr, nc := p.row + Deltas[e].0, p.col + Deltas[e].1;
    0 <= nr < a.Length0 && 0 <= nc < a.Length1 ==> a[nr, nc] != '.'
  }

  /** No 4-neighbour of `p` on the grid is `'.'`. */
  ghost predicate Closed(a: array2<char>, p: Cell)
    reads a
  {
    forall q :: InBounds(q, a.Length0, a.Length1) && Adjacent(p, q) ==> a[q.row, q.col] != '.'
  }

  lemma MovesClose(a: array2<char>, p: Cell)
    requires forall e :: 0 <= e < 4 ==> MoveDone(a, p, e)
    ensures Closed(a, p)
  {
    forall q | InBounds(q, a.Length0, a.Length1) && Adjacent(p, q)
      ensures a[q.row, q.col] != '.'
    {
      if q.row + 1 == p.row {
        assert MoveDone(a, p, 0);
      } else if p.row + 1 == q.row {
        assert MoveDone(a, p, 1);
      } else if q.col + 1 == p.col {
        assert MoveDone(a, p, 2);
      } else {
        assert MoveDone(a, p, 3);
      }
    }
  }

  /** The grid during the fill: the start is `'F'`, marked cells `'X'`, the rest as in `g`. */
  function Paint(g: seq<seq<char>>, s: Cell, marked: set<Cell>, r: nat, c: nat): char
    requires r < |g| && c < |g[r]|
  {
    if Cell(r, c) == s then 'F' else if Cell(r, c) in marked then 'X' else g[r][c]
  }

  ghost predicate Painted(a: array2<char>, g: seq<seq<char>>, s: Cell, marked: set<Cell>)
    reads a
  {
    && IsGrid(g, a.Length0, a.Length1)
    && forall r, c :: 0 <= r < a.Length0 && 0 <= c < a.Length1 ==> a[r, c] == Paint(g, s, marked, r, c)
  }

  /** The cells still `'.'` while the fill has marked `marked`: what bounds the fill's work. */
  ghost function FreeCells(g: seq<seq<char>>, h: nat, w: nat, s: Cell, marked: set<Cell>): set<Cell>
    requires IsGrid(g, h, w)
  {
    set r, c | 0 <= r < h && 0 <= c < w && Cell(r, c) != s && Cell(r, c) !in marked && g[r][c] == '.' :: Cell(r, c)
  }

  /** Every marked cell was `'.'` and is reachable from the start. */
  ghost predicate MarkedSound(g: seq<seq<char>>, h: nat, w: nat, s: Cell, marked: set<Cell>)
    requires IsGrid(g, h, w)
  {
    forall p :: p in marked ==> InBounds(p, h, w) && p != s && g[p.row][p.col] == '.' && Reachable(g, h, w, s, p)
  }

  /** Marks the `'.'` cell `q`: it becomes `'X'` and leaves the set of `'.'` cells. */
  method MarkCell(grid: array2<char>, q: Cell, start: Cell, ghost g: seq<seq<char>>, ghost marked: set<Cell>)
      returns (ghost marked': set<Cell>)
    requires Painted(grid, g, start, marked)
    requires InBounds(q, grid.Length0, grid.Length1) && grid[q.row, q.col] == '.'
    modifies grid
    ensures marked' == marked + {q} && q !in marked && q != start
    ensures Painted(grid, g, start, marked')
    ensures g[q.row][q.col] == '.'
    ensures forall r, c :: 0 <= r < grid.Length0 && 0 <= c < grid.Length1 && old(grid[r, c]) != '.' ==>
              grid[r, c] == old(grid[r, c])
  {
    grid[q.row, q.col] := 'X';
    marked' := marked + {q};
  }

  /** One move of the popped cell `p`: a `'.'` neighbour on the grid is marked and pushed. */
  method Move(grid: array2<char>, p: Cell, e: nat, start: Cell, ghost g: seq<seq<char>>,
              stack: seq<Cell>, ghost marked: set<Cell>)
      returns (stack': seq<Cell>, ghost marked': set<Cell>)
    requires e < 4
    requires Painted(grid, g, start, marked) && InBounds(start, grid.Length0, grid.Length1)
    requires MarkedSound(g, grid.Length0, grid.Length1, start, marked)
    requires Reachable(g, grid.Length0, grid.Length1, start, p)
    requires forall k :: 0 <= k < |stack| ==> stack[k] == start || stack[k] in marked
    modifies grid
    ensures Painted(grid, g, start, marked') && MarkedSound(g, grid.Length0, grid.Length1, start, marked')
    ensures marked <= marked'
    ensures forall q :: q in stack ==> q in stack'
    ensures forall k :: 0 <= k < |stack'| ==> stack'[k] == start || stack'[k] in marked'
    ensures forall q :: q in marked' - marked ==> q in stack'
    ensures MoveDone(grid, p, e)
    ensures forall e' :: 0 <= e' < 4 && old(MoveDone(grid, p, e')) ==> MoveDone(grid, p, e')
    ensures forall r, c :: 0 <= r < grid.Length0 && 0 <= c < grid.Length1 && old(grid[r, c]) != '.' ==>
              grid[r, c] == old(grid[r, c])
    ensures marked' == marked ==> stack' == stack
  {
    var h, w := grid.Length0, grid.Length1;
    stack', marked' := stack, marked;
    var nr, nc := p.row + Deltas[e].0, p.col + Deltas[e].1;
    if 0 <= nr < h && 0 <= nc < w {
      if grid[nr, nc] == '.' {
        var q := Cell(nr, nc);
        assert Adjacent(p, q);
        marked' := MarkCell(grid, q, start, g, marked');
        WalkExtend(g, h, w, start, p, q);
        stack' := stack' + [q];
        assert q in stack';
      }
    }
  }

  /** One iteration of `fill`'s loop body: the four moves from the popped cell `p`. */
  method Visit(grid: array2<char>, p: Cell, start: Cell, ghost g: seq<seq<char>>, stack: seq<Cell>, ghost marked: set<Cell>)
      returns (stack': seq<Cell>, ghost marked': set<Cell>)
    requires Painted(grid, g, start, marked) && InBounds(start, grid.Length0, grid.Length1)
    requires MarkedSound(g, grid.Length0, grid.Length1, start, marked)
    requires p == start || p in marked
    requires forall k :: 0 <= k < |stack| ==> stack[k] == start || stack[k] in marked
    modifies grid
    ensures Painted(grid, g, start, marked') && MarkedSound(g, grid.Length0, grid.Length1, start, marked')
    ensures marked <= marked'
    ensures forall q :: q in stack ==> q in stack'
    ensures forall k :: 0 <= k < |stack'| ==> stack'[k] == start || stack'[k] in marked'
    ensures forall q :: q in marked' - marked ==> q in stack'
    ensures Closed(grid, p)
    ensures forall r, c :: 0 <= r < grid.Length0 && 0 <= c < grid.Length1 && old(grid[r, c]) != '.' ==>
              grid[r, c] == old(grid[r, c])
    ensures marked' == marked ==> stack' == stack
  {
    var h, w := grid.Length0, grid.Length1;
    stack', marked' := stack, marked;
    assert Reachable(g, h, w, start, p) by {
      if p == start {
        assert IsWalk(g, h, w, start, [start]);
      }
    }
    for e := 0 to 4
      invariant Painted(grid, g, start, marked') && MarkedSound(g, h, w, start, marked')
      invariant marked <= marked'
      invariant forall q :: q in stack ==> q in stack'
      invariant forall k :: 0 <= k < |stack'| ==> stack'[k] == start || stack'[k] in marked'
      invariant forall q :: q in marked' - marked ==> q in stack'
      invariant forall e' :: 0 <= e' < e ==> MoveDone(grid, p, e')
      invariant forall r, c :: 0 <= r < h && 0 <= c < w && old(grid[r, c]) != '.' ==> grid[r, c] == old(grid[r, c])
      invariant marked' == marked ==> stack' == stack
    {
      stack', marked' := Move(grid, p, e, start, g, stack', marked');
    }
    MovesClose(grid, p);
  }

  /** Marking more `'.'` cells leaves fewer `'.'` cells for the fill to visit. */
  lemma FreeCellsShrink(g: seq<seq<char>>, h: nat, w: nat, s: Cell, m0: set<Cell>, m1: set<Cell>)
    requires IsGrid(g, h, w) && MarkedSound(g, h, w, s, m1) && m0 < m1
    ensures FreeCells(g, h, w, s, m1) < FreeCells(g, h, w, s, m0)
  {
    assert !(m1 <= m0);
    var q :| q in m1 && q !in m0;
    assert q in FreeCells(g, h, w, s, m0) - FreeCells(g, h, w, s, m1);
  }

  /** After the stack empties, the grid holds exactly `Filled`. */
  lemma FillComplete(a: array2<char>, g: seq<seq<char>>, start: Cell, marked: set<Cell>)
    requires Painted(a, g, start, marked) && InBounds(start, a.Length0, a.Length1)
    requires MarkedSound(g, a.Length0, a.Length1, start, marked)
    requires Closed(a, start) && forall p :: p in marked ==> Closed(a, p)
    ensures Holds(a, Filled(g, a.Length0, a.Length1, start))
  {
    var h, w := a.Length0, a.Length1;
    var gf := Cells(a);
    forall p, q | (p == start || p in marked) && InBounds(q, h, w) && Adjacent(p, q)
      ensures gf[q.row][q.col] != '.'
    {
      assert Closed(a, p);
    }
    forall r, c | 0 <= r < h && 0 <= c < w
      ensures a[r, c] == Filled(g, h, w, start)[r][c]
    {
      var p := Cell(r, c);
      if p != start && p !in marked && g[r][c] == '.' && Reachable(g, h, w, start, p) {
        var path :| IsWalk(g, h, w, start, path) && path[|path| - 1] == p;
        WalkCovered(g, gf, h, w, start, marked, path);
      }
    }
  }

  /**
   * `fill`: flood fill with an explicit stack. The start cell is set to `'F'`;
   * each popped cell turns its `'.'` 4-neighbours into `'X'` and pushes them.
   * The result is exactly `Filled`: only the start and the `'.'` cells reachable
   * from it change, walls are never crossed or overwritten, and no `'.'` cell
   * is left next to a cell the fill marked.
   */
  method Fill(grid: array2<char>, start: Cell, ghost g: seq<seq<char>>)
    requires Holds(grid, g) && InBounds(start, grid.Length0, grid.Length1)
    modifies grid
    ensures Holds(grid, Filled(g, grid.Length0, grid.Length1, start))
  {
    var h, w := grid.Length0, grid.Length1;
    var stack := [start];
    grid[start.row, start.col] := 'F';
    ghost var marked: set<Cell> := {};
    while |stack| > 0
      invariant Painted(grid, g, start, marked) && MarkedSound(g, h, w, start, marked)
      invariant forall k :: 0 <= k < |stack| ==> stack[k] == start || stack[k] in marked
      invariant start !in stack ==> Closed(grid, start)
      invariant forall p :: p in marked && p !in stack ==> Closed(grid, p)
      decreases FreeCells(g, h, w, start, marked), |stack|
    {
      label Top:
      var p := stack[|stack| - 1];
      stack := stack[..|stack| - 1];
      ghost var marked0 := marked;
      ghost var rest := stack;
      stack, marked := Visit(grid, p, start, g, stack, marked);
      if marked != marked0 {
        FreeCellsShrink(g, h, w, start, marked0, marked);
      }
      forall q | (q == start || q in marked) && q !in stack
        ensures Closed(grid, q)
      {
        if q != p {
          assert q !in rest && q in marked0 + {start};
          assert old@Top(Closed(grid, q));
          forall x | InBounds(x, h, w) && Adjacent(q, x)
            ensures grid[x.row, x.col] != '.'
          {
            assert old@Top(grid[x.row, x.col]) != '.';
          }
        }
      }
    }
    FillComplete(grid, g, start, marked);
  }

  // ---------------------------------------------------------------------
  // Drawing the loop (09.rs:99-116)
  // ---------------------------------------------------------------------

  /** The values `part2` compacts: every tile's row, then every tile's column. */
  function Rows(data: seq<Tile>): (vs: seq<nat>)
    ensures |vs| == |data| && forall i :: 0 <= i < |data| ==> vs[i] == data[i].row
  {
    seq(|data|, i requires 0 <= i < |data| => data[i].row)
  }

  function Cols(data: seq<Tile>): (vs: seq<nat>)
    ensures |vs| == |data| && forall i :: 0 <= i < |data| ==> vs[i] == data[i].col
  {
    seq(|data|, i requires 0 <= i < |data| => data[i].col)
  }

  function RowCompaction(data: seq<Tile>): seq<Range> { Compact(Rows(data)) }
  function ColCompaction(data: seq<Tile>): seq<Range> { Compact(Cols(data)) }

  /** Every coordinate lies below the upper sentinel: otherwise `downgrade` panics. */
  predicate InDomain(data: seq<Tile>) {
    forall i :: 0 <= i < |data| ==> data[i].row < DomainEnd && data[i].col < DomainEnd
  }

  lemma LocateTiles(data: seq<Tile>)
    requires InDomain(data)
    ensures WellFormed(RowCompaction(data)) && WellFormed(ColCompaction(data))
    ensures forall i :: 0 <= i < |data| ==>
              Locatable(RowCompaction(data), data[i].row) && Locatable(ColCompaction(data), data[i].col)
  {
    CompactWellFormed(Rows(data));
    CompactWellFormed(Cols(data));
    forall i | 0 <= i < |data|
      ensures Locatable(RowCompaction(data), data[i].row) && Locatable(ColCompaction(data), data[i].col)
    {
      assert Rows(data)[i] == data[i].row && Cols(data)[i] == data[i].col;
      DowngradeOfInput(Rows(data), data[i].row);
      DowngradeOfInput(Cols(data), data[i].col);
    }
  }

  /** The compacted cell of every tile. */
  function Corners(data: seq<Tile>): (vs: seq<Cell>)
    requires InDomain(data)
    ensures |vs| == |data|
    ensures forall i :: 0 <= i < |data| ==>
              && Locatable(RowCompaction(data), data[i].row) && Locatable(ColCompaction(data), data[i].col)
              && vs[i] == Cell(RangeIndex(RowCompaction(data), data[i].row), RangeIndex(ColCompaction(data), data[i].col))
  {
    LocateTiles(data);
    seq(|data|, i requires 0 <= i < |data| =>
      Cell(RangeIndex(RowCompaction(data), data[i].row), RangeIndex(ColCompaction(data), data[i].col)))
  }

  /**
   * The grid as `part2` allocates it: `cols_compaction.len()` rows of
   * `rows_compaction.len()` cells, although it is indexed by the row
   * compaction first.
   */
  function Height(data: seq<Tile>): nat { |ColCompaction(data)| }
  function Width(data: seq<Tile>): nat { |RowCompaction(data)| }

  /** Every edge, the closing one included, keeps a row or a column of the tiles. */
  predicate StraightTiles(data: seq<Tile>) {
    forall i :: 0 <= i < |data| ==> data[i].row == data[Next(|data|, i)].row || data[i].col == data[Next(|data|, i)].col
  }

  /** A straight loop of tiles compacts to a straight loop of cells. */
  lemma StraightCorners(data: seq<Tile>)
    requires InDomain(data) && StraightTiles(data)
    ensures StraightLoop(Corners(data))
  {
    var vs := Corners(data);
    forall i | 0 <= i < |vs|
      ensures vs[i].row == vs[Next(|vs|, i)].row || vs[i].col == vs[Next(|vs|, i)].col
    {
      assert data[i].row == data[Next(|data|, i)].row || data[i].col == data[Next(|data|, i)].col;
    }
  }

  /** Every tile's compacted cell lies inside the grid as allocated. */
  predicate CornersFit(data: seq<Tile>)
    requires InDomain(data)
  {
    forall i :: 0 <= i < |data| ==> InBounds(Corners(data)[i], Height(data), Width(data))
  }

  /** The loop drawn on a blank grid: corners `'#'`, the cells between them `'X'`. */
  function Outline(data: seq<Tile>): (g: seq<seq<char>>)
    requires InDomain(data) && StraightTiles(data) && CornersFit(data)
    ensures IsGrid(g, Height(data), Width(data))
  {
    StraightCorners(data);
    Draw(Blank(Height(data), Width(data)), Height(data), Width(data), Corners(data), |data|)
  }

  /** Draws one edge: the corner `a` becomes `'#'`, every cell of `between(a, b)` becomes `'X'`. */
  method DrawCells(grid: array2<char>, a: Cell, b: Cell, ghost d: seq<seq<char>>)
    requires Holds(grid, d)
    requires InBounds(a, grid.Length0, grid.Length1) && InBounds(b, grid.Length0, grid.Length1)
    requires a.row == b.row || a.col == b.col
    modifies grid
    ensures Holds(grid, PutAll(Put(d, a, '#'), Between(a, b), 'X'))
  {
    grid[a.row, a.col] := '#';
    BetweenInBounds(a, b, grid.Length0, grid.Length1);
    MarkAll(grid, Between(a, b), Put(d, a, '#'));
  }

  /** Sets every listed cell to `'X'`. */
  method MarkAll(grid: array2<char>, cells: seq<Cell>, ghost d: seq<seq<char>>)
    requires Holds(grid, d)
    requires forall k :: 0 <= k < |cells| ==> InBounds(cells[k], grid.Length0, grid.Length1)
    requires forall k :: 0 <= k < |cells| ==> InGrid(d, cells[k])
    modifies grid
    ensures Holds(grid, PutAll(d, cells, 'X'))
  {
    var h, w := grid.Length0, grid.Length1;
    for j := 0 to |cells|
      invariant forall r, c :: 0 <= r < h && 0 <= c < w ==>
                  grid[r, c] == if Cell(r, c) in cells[..j] then 'X' else d[r][c]
    {
      grid[cells[j].row, cells[j].col] := 'X';
      assert cells[..j + 1] == cells[..j] + [cells[j]];
    }
    assert cells[..|cells|] == cells;
  }

  /** Drawing one more edge over the first `k`. */
  lemma DrawNext(g: seq<seq<char>>, h: nat, w: nat, vs: seq<Cell>, k: nat)
    requires IsGrid(g, h, w)
    requires StraightLoop(vs) && k < |vs|
    requires forall i :: 0 <= i < |vs| ==> InBounds(vs[i], h, w)
    ensures InGrid(Draw(g, h, w, vs, k), vs[k])
    ensures forall j :: 0 <= j < |Between(vs[k], vs[Next(|vs|, k)])| ==>
              InGrid(Put(Draw(g, h, w, vs, k), vs[k], '#'), Between(vs[k], vs[Next(|vs|, k)])[j])
    ensures Draw(g, h, w, vs, k + 1) ==
              PutAll(Put(Draw(g, h, w, vs, k), vs[k], '#'), Between(vs[k], vs[Next(|vs|, k)]), 'X')
  {
    BetweenInBounds(vs[k], vs[Next(|vs|, k)], h, w);
  }

  /** `vs` holds the compacted cell of every tile, as `downgrade` finds it. */
  predicate Located(data: seq<Tile>, rc: seq<Range>, cc: seq<Range>, vs: seq<Cell>) {
    && |vs| == |data| && AllLocatable(data, rc, cc)
    && forall i :: 0 <= i < |data| ==> vs[i] == Cell(RangeIndex(rc, data[i].row), RangeIndex(cc, data[i].col))
  }

  /** What drawing needs of the tiles, derived from the preconditions `part2` relies on. */
  lemma LayoutFacts(data: seq<Tile>)
    requires InDomain(data) && StraightTiles(data) && CornersFit(data)
    ensures WellFormed(RowCompaction(data)) && WellFormed(ColCompaction(data))
    ensures Located(data, RowCompaction(data), ColCompaction(data), Corners(data))
    ensures StraightLoop(Corners(data))
    ensures forall i :: 0 <= i < |data| ==> InBounds(Corners(data)[i], |ColCompaction(data)|, |RowCompaction(data)|)
  {
    LocateTiles(data);
    StraightCorners(data);
  }

  /** One pass of `part2`'s drawing loop: both tiles of the edge are downgraded to cells, then the edge is drawn. */
  method DrawEdge(grid: array2<char>, rc: seq<Range>, cc: seq<Range>, t1: Tile, t2: Tile, ghost d: seq<seq<char>>)
      returns (a: Cell, b: Cell)
    requires WellFormed(rc) && WellFormed(cc)
    requires Locatable(rc, t1.row) && Locatable(cc, t1.col) && Locatable(rc, t2.row) && Locatable(cc, t2.col)
    requires Holds(grid, d)
    requires InBounds(Cell(RangeIndex(rc, t1.row), RangeIndex(cc, t1.col)), grid.Length0, grid.Length1)
    requires InBounds(Cell(RangeIndex(rc, t2.row), RangeIndex(cc, t2.col)), grid.Length0, grid.Length1)
    requires RangeIndex(rc, t1.row) == RangeIndex(rc, t2.row) || RangeIndex(cc, t1.col) == RangeIndex(cc, t2.col)
    modifies grid
    ensures a == Cell(RangeIndex(rc, t1.row), RangeIndex(cc, t1.col))
    ensures b == Cell(RangeIndex(rc, t2.row), RangeIndex(cc, t2.col))
    ensures Holds(grid, PutAll(Put(d, a, '#'), Between(a, b), 'X'))
  {
    var crow1 := Downgrade(rc, t1.row);
    var ccol1 := Downgrade(cc, t1.col);
    var crow2 := Downgrade(rc, t2.row);
    var ccol2 := Downgrade(cc, t2.col);
    a, b := Cell(crow1, ccol1), Cell(crow2, ccol2);
    DrawCells(grid, a, b, d);
  }

  /**
   * Allocates the grid as written (`|cc|` rows of `|rc|` cells) and draws
   * every edge, the closing one from the last tile to the first included.
   */
  method Rasterise(data: seq<Tile>, rc: seq<Range>, cc: seq<Range>, ghost vs: seq<Cell>) returns (grid: array2<char>)
    requires WellFormed(rc) && WellFormed(cc) && Located(data, rc, cc, vs)
    requires StraightLoop(vs) && forall i :: 0 <= i < |vs| ==> InBounds(vs[i], |cc|, |rc|)
    ensures fresh(grid) && grid.Length0 == |cc| && grid.Length1 == |rc|
    ensures Holds(grid, Draw(Blank(|cc|, |rc|), |cc|, |rc|, vs, |data|))
  {
    var h, w := |cc|, |rc|;
    grid := new char[h, w]((r, c) => '.');
    for i := 0 to |data|
      invariant Holds(grid, Draw(Blank(h, w), h, w, vs, i))
    {
      ghost var d := Draw(Blank(h, w), h, w, vs, i);
      var j := Next(|data|, i);
      DrawNext(Blank(h, w), h, w, vs, i);
      var a, b := DrawEdge(grid, rc, cc, data[i], data[j], d);
    }
  }

  // ---------------------------------------------------------------------
  // Seed scan (09.rs:118-126)
  // ---------------------------------------------------------------------

  /** Whether `ch` is `'.'` is `dot`. */
  predicate Is(ch: char, dot: bool) {
    (ch == '.') == dot
  }

  /** The first position from `from` on whose cell is (`dot`) or is not (`!dot`) `'.'`. */
  function FirstWhere(line: seq<char>, from: nat, dot: bool): (k: nat)
    requires exists j :: from <= j < |line| && Is(line[j], dot)
    ensures from <= k < |line| && Is(line[k], dot)
    ensures forall j :: from <= j < k ==> !Is(line[j], dot)
    decreases |line| - from
  {
    if Is(line[from], dot) then from else FirstWhere(line, from + 1, dot)
  }

  /** The middle row holds a wall with a `'.'` somewhere after it: otherwise the scan runs off the row. */
  predicate SeedExists(line: seq<char>) {
    exists c1, c2 :: 0 <= c1 < c2 < |line| && line[c1] != '.' && line[c2] == '.'
  }

  /** The seed column: the first `'.'` after the first wall of the row. */
  function SeedColumn(line: seq<char>): (col: nat)
    requires SeedExists(line)
    ensures col < |line| && line[col] == '.'
    ensures exists wall :: 0 <= wall < col && line[wall] != '.' && forall j :: 0 <= j < wall ==> line[j] == '.'
  {
    var c1, c2 :| 0 <= c1 < c2 < |line| && line[c1] != '.' && line[c2] == '.';
    assert Is(line[c1], false);
    var wall := FirstWhere(line, 0, false);
    assert Is(line[c2], true);
    FirstWhere(line, wall, true)
  }

  /** The two scans of the middle row: past the leading `'.'` cells, then past the wall. */
  method SeedScan(grid: array2<char>, row: nat, ghost g: seq<seq<char>>) returns (col: nat)
    requires Holds(grid, g) && row < grid.Length0 && SeedExists(g[row])
    ensures col == SeedColumn(g[row])
  {
    ghost var line := g[row];
    ghost var c1, c2 :| 0 <= c1 < c2 < |line| && line[c1] != '.' && line[c2] == '.';
    assert Is(line[c1], false);
    ghost var wall := FirstWhere(line, 0, false);
    assert Is(line[c2], true);
    ghost var seed := FirstWhere(line, wall, true);
    col := 0;
    while grid[row, col] == '.'
      invariant col <= wall
      decreases wall - col
    {
      col := col + 1;
    }
    while grid[row, col] != '.'
      invariant wall <= col <= seed
      decreases seed - col
    {
      col := col + 1;
    }
  }

  /** The filled grid `part2` measures: the outline flood-filled from the seed on the middle row. */
  predicate Fillable(data: seq<Tile>) {
    && InDomain(data) && StraightTiles(data) && CornersFit(data)
    && Width(data) / 2 < Height(data)
    && SeedExists(Outline(data)[Width(data) / 2])
  }

  function Seed(data: seq<Tile>): (s: Cell)
    requires Fillable(data)
    ensures InBounds(s, Height(data), Width(data))
  {
    Cell(Width(data) / 2, SeedColumn(Outline(data)[Width(data) / 2]))
  }

  ghost function Interior(data: seq<Tile>): (g: seq<seq<char>>)
    requires Fillable(data)
    ensures IsGrid(g, Height(data), Width(data))
  {
    Filled(Outline(data), Height(data), Width(data), Seed(data))
  }

  // ---------------------------------------------------------------------
  // Prefix sums of outside cells (09.rs:131-151, 170-193)
  // ---------------------------------------------------------------------

  function Dot(ch: char): nat {
    if ch == '.' then 1 else 0
  }

  /** The `'.'` cells of `line` in columns `c0 .. c1 - 1`. */
  function SpanDots(line: seq<char>, c0: nat, c1: nat): nat
    requires c1 <= |line|
    decreases c1
  {
    if c1 <= c0 then 0 else SpanDots(line, c0, c1 - 1) + Dot(line[c1 - 1])
  }

  /** The `'.'` cells of `g` in rows `r0 .. r1 - 1` and columns `c0 .. c1 - 1`. */
  function BoxDots(g: seq<seq<char>>, w: nat, r0: nat, r1: nat, c0: nat, c1: nat): nat
    requires r1 <= |g| && c1 <= w && forall r :: 0 <= r < |g| ==> |g[r]| == w
    decreases r1
  {
    if r1 <= r0 then 0 else BoxDots(g, w, r0, r1 - 1, c0, c1) + SpanDots(g[r1 - 1], c0, c1)
  }

  lemma {:induction false} SpanSplit(line: seq<char>, a: nat, b: nat, c: nat)
    requires a <= b <= c <= |line|
    ensures SpanDots(line, a, c) == SpanDots(line, a, b) + SpanDots(line, b, c)
    decreases c
  {
    if b < c {
      SpanSplit(line, a, b, c - 1);
    }
  }

  lemma {:induction false} SpanClear(line: seq<char>, c0: nat, c1: nat)
    requires c1 <= |line|
    ensures SpanDots(line, c0, c1) == 0 <==> forall c :: c0 <= c < c1 ==> line[c] != '.'
    decreases c1
  {
    if c0 < c1 {
      SpanClear(line, c0, c1 - 1);
    }
  }

  lemma {:induction false} BoxRowsSplit(g: seq<seq<char>>, w: nat, a: nat, b: nat, c: nat, c0: nat, c1: nat)
    requires a <= b <= c <= |g| && c1 <= w && forall r :: 0 <= r < |g| ==> |g[r]| == w
    ensures BoxDots(g, w, a, c, c0, c1) == BoxDots(g, w, a, b, c0, c1) + BoxDots(g, w, b, c, c0, c1)
    decreases c
  {
    if b < c {
      BoxRowsSplit(g, w, a, b, c - 1, c0, c1);
    }
  }

  lemma {:induction false} BoxColsSplit(g: seq<seq<char>>, w: nat, r0: nat, r1: nat, a: nat, b: nat, c: nat)
    requires r1 <= |g| && a <= b <= c <= w && forall r :: 0 <= r < |g| ==> |g[r]| == w
    ensures BoxDots(g, w, r0, r1, a, c) == BoxDots(g, w, r0, r1, a, b) + BoxDots(g, w, r0, r1, b, c)
    decreases r1
  {
    if r0 < r1 {
      BoxColsSplit(g, w, r0, r1 - 1, a, b, c);
      SpanSplit(g[r1 - 1], a, b, c);
    }
  }

  /** A box holds no `'.'` cell exactly when its count is 0. */
  lemma {:induction false} BoxClear(g: seq<seq<char>>, w: nat, r0: nat, r1: nat, c0: nat, c1: nat)
    requires r1 <= |g| && c1 <= w && forall r :: 0 <= r < |g| ==> |g[r]| == w
    ensures BoxDots(g, w, r0, r1, c0, c1) == 0 <==> forall r, c :: r0 <= r < r1 && c0 <= c < c1 ==> g[r][c] != '.'
    decreases r1
  {
    if r0 < r1 {
      BoxClear(g, w, r0, r1 - 1, c0, c1);
      SpanClear(g[r1 - 1], c0, c1);
    }
  }

  /** `px_map[r][c]` as specified: the `'.'` cells in rows `0..=r` and columns `0..=c`. */
  function Prefix(g: seq<seq<char>>, w: nat, r: nat, c: nat): nat
    requires r < |g| && c < w && forall k :: 0 <= k < |g| ==> |g[k]| == w
  {
    BoxDots(g, w, 0, r + 1, 0, c + 1)
  }

  /** The recurrence `px_map` is built by: above plus left minus above-left plus the cell itself. */
  lemma PrefixStep(g: seq<seq<char>>, w: nat, r: nat, c: nat)
    requires r < |g| && c < w && forall k :: 0 <= k < |g| ==> |g[k]| == w
    ensures Prefix(g, w, r, c) ==
      (if r > 0 then Prefix(g, w, r - 1, c) else 0)
      + (if c > 0 then Prefix(g, w, r, c - 1) else 0)
      - (if r > 0 && c > 0 then Prefix(g, w, r - 1, c - 1) else 0)
      + Dot(g[r][c])
  {
    assert SpanDots(g[r], 0, c + 1) == SpanDots(g[r], 0, c) + Dot(g[r][c]);
    assert Prefix(g, w, r, c) == BoxDots(g, w, 0, r, 0, c + 1) + SpanDots(g[r], 0, c + 1);
    if c > 0 {
      assert Prefix(g, w, r, c - 1) == BoxDots(g, w, 0, r, 0, c) + SpanDots(g[r], 0, c);
    }
    if r == 0 {
      assert BoxDots(g, w, 0, r, 0, c + 1) == 0;
      if c > 0 {
        assert BoxDots(g, w, 0, r, 0, c) == 0;
      }
    }
  }

  /** `px` holds `Prefix` of the `h` by `w` grid `g` at every cell. */
  ghost predicate PrefixTable(px: seq<seq<nat>>, g: seq<seq<char>>, h: nat, w: nat) {
    && IsGrid(g, h, w) && |px| == h
    && (forall r :: 0 <= r < h ==> |px[r]| == w)
    && forall r, c :: 0 <= r < h && 0 <= c < w ==> px[r][c] == Prefix(g, w, r, c)
  }

  /** The prefix table of the filled grid, row by row: the source's `px_map`. */
  method PrefixMap(grid: array2<char>, ghost g: seq<seq<char>>) returns (px: seq<seq<nat>>)
    requires Holds(grid, g)
    ensures PrefixTable(px, g, grid.Length0, grid.Length1)
  {
    var h, w := grid.Length0, grid.Length1;
    px := [];
    for row := 0 to h
      invariant |px| == row
      invariant forall r :: 0 <= r < row ==> |px[r]| == w
      invariant forall r, c :: 0 <= r < row && 0 <= c < w ==> px[r][c] == Prefix(g, w, r, c)
    {
      px := px + [[]];
      for col := 0 to w
        invariant |px| == row + 1 && |px[row]| == col
        invariant forall r :: 0 <= r < row ==> |px[r]| == w
        invariant forall r, c :: 0 <= r < row && 0 <= c < w ==> px[r][c] == Prefix(g, w, r, c)
        invariant forall c :: 0 <= c < col ==> px[row][c] == Prefix(g, w, row, c)
      {
        PrefixStep(g, w, row, col);
        var value: int := 0;
        if row > 0 {
          value := value + px[row - 1][col];
        }
        if col > 0 {
          value := value + px[row][col - 1];
        }
        if row > 0 && col > 0 {
          value := value - px[row - 1][col - 1];
        }
        if grid[row, col] == '.' {
          value := value + 1;
        }
        px := px[row := px[row] + [value]];
      }
    }
  }

  /** The cells `[top..=bottom] x [left..=right]` of `g` hold no `'.'`. */
  ghost predicate RectClear(g: seq<seq<char>>, top: nat, bottom: nat, left: nat, right: nat) {
    forall r, c :: top <= r <= bottom && left <= c <= right && r < |g| && c < |g[r]| ==> g[r][c] != '.'
  }

  /**
   * The rectangle query of `part2`: the count above plus the count to the
   * left minus their overlap equals the corner count exactly when the
   * rectangle `[ctop..=cbottom] x [cleft..=cright]` holds no `'.'`.
   */
  method RectQuery(px: seq<seq<nat>>, ghost g: seq<seq<char>>, ghost h: nat, ghost w: nat,
                   ctop: nat, cbottom: nat, cleft: nat, cright: nat) returns (clear: bool)
    requires PrefixTable(px, g, h, w)
    requires ctop <= cbottom < h && cleft <= cright < w
    ensures clear <==> RectClear(g, ctop, cbottom, cleft, cright)
  {
    var invalidCount: int := 0;
    if ctop > 0 {
      invalidCount := invalidCount + px[ctop - 1][cright];
    }
    if cleft > 0 {
      invalidCount := invalidCount + px[cbottom][cleft - 1];
    }
    if ctop > 0 && cleft > 0 {
      invalidCount := invalidCount - px[ctop - 1][cleft - 1];
    }
    clear := invalidCount == px[cbottom][cright];
    BoxRowsSplit(g, w, 0, ctop, cbottom + 1, 0, cright + 1);
    BoxColsSplit(g, w, ctop, cbottom + 1, 0, cleft, cright + 1);
    BoxColsSplit(g, w, 0, ctop, 0, cleft, cright + 1);
    BoxRowsSplit(g, w, 0, ctop, cbottom + 1, 0, cleft);
    BoxClear(g, w, ctop, cbottom + 1, cleft, cright + 1);
  }

  // ---------------------------------------------------------------------
  // The two parts (09.rs:17-27, 99-198)
  // ---------------------------------------------------------------------

  function Abs(x: int): nat { if x < 0 then -x else x }

  /** The rectangle with corners `a` and `b`, both included: what `part2` measures. */
  function Area(a: Tile, b: Tile): nat {
    (Max(a.row, b.row) - Min(a.row, b.row) + 1) * (Max(a.col, b.col) - Min(a.col, b.col) + 1)
  }

  /** The area as `part1` computes it, with the `+1` inside `abs`. */
  function SkewedArea(a: Tile, b: Tile): nat {
    Abs(a.row - b.row + 1) * Abs(a.col - b.col + 1)
  }

  /** The compacted rectangle with corners at tiles `a` and `b` holds no `'.'` cell of `g`. */
  ghost predicate EnclosedIn(g: seq<seq<char>>, rc: seq<Range>, cc: seq<Range>, a: Tile, b: Tile)
    requires Locatable(rc, a.row) && Locatable(rc, b.row) && Locatable(cc, a.col) && Locatable(cc, b.col)
  {
    RectClear(g, RangeIndex(rc, Min(a.row, b.row)), RangeIndex(rc, Max(a.row, b.row)),
                 RangeIndex(cc, Min(a.col, b.col)), RangeIndex(cc, Max(a.col, b.col)))
  }

  /** Every tile's coordinates lie in some range of their compaction. */
  predicate AllLocatable(data: seq<Tile>, rc: seq<Range>, cc: seq<Range>) {
    forall i :: 0 <= i < |data| ==> Locatable(rc, data[i].row) && Locatable(cc, data[i].col)
  }

  /** The pairs `a < b` of tiles whose compacted rectangle holds no `'.'` of `g`. */
  ghost function EnclosedPairs(data: seq<Tile>, g: seq<seq<char>>, rc: seq<Range>, cc: seq<Range>): set<(nat, nat)>
    requires AllLocatable(data, rc, cc)
  {
    set a: nat, b: nat | a < b < |data| && EnclosedIn(g, rc, cc, data[a], data[b]) :: (a, b)
  }

  /**
   * The pairs of tiles `i < j` whose compacted rectangle holds no cell outside
   * the filled loop: `EnclosedIn` the interior, on the tiles' own compactions.
   */
  ghost function InteriorPairs(data: seq<Tile>): set<(nat, nat)>
    requires Fillable(data)
  {
    LocateTiles(data);
    EnclosedPairs(data, Interior(data), RowCompaction(data), ColCompaction(data))
  }

  /** `m` is the largest area among the pairs of `pairs` that come before `(i, j)` in loop order, 0 if none. */
  ghost predicate BestBefore(data: seq<Tile>, pairs: set<(nat, nat)>, m: nat, i: nat, j: nat) {
    && (forall a, b :: 0 <= a < b < |data| && (a < i || (a == i && b < j)) && (a, b) in pairs ==>
          Area(data[a], data[b]) <= m)
    && (m == 0 || exists a, b :: 0 <= a < b < |data| && (a < i || (a == i && b < j)) &&
                                 (a, b) in pairs && Area(data[a], data[b]) == m)
  }

  /** One more pair `(i, j)` processed: kept if it is not in `pairs` or not larger, taken otherwise. */
  lemma BestStep(data: seq<Tile>, pairs: set<(nat, nat)>, m: nat, m': nat, i: nat, j: nat)
    requires i < j < |data|
    requires BestBefore(data, pairs, m, i, j)
    requires if m < Area(data[i], data[j]) && (i, j) in pairs then m' == Area(data[i], data[j]) else m' == m
    ensures BestBefore(data, pairs, m', i, j + 1)
  {
    if m' != m && m' != 0 {
      assert 0 <= i < j < |data| && (i, j) in pairs && Area(data[i], data[j]) == m';
    }
  }

  /** Moving to the next row of pairs: no pair `(i, b)` with `b <= i` exists, and all pairs `(i, b)` are done. */
  lemma BestNextRow(data: seq<Tile>, pairs: set<(nat, nat)>, m: nat, i: nat)
    requires i < |data|
    ensures BestBefore(data, pairs, m, i, 0) == BestBefore(data, pairs, m, i, i + 1)
    ensures BestBefore(data, pairs, m, i, |data|) == BestBefore(data, pairs, m, i + 1, 0)
  {
  }

  /** Once every pair is processed, `m` bounds the areas of `pairs` and is attained by one of them (or is 0). */
  lemma BestOf(data: seq<Tile>, pairs: set<(nat, nat)>, m: nat)
    requires BestBefore(data, pairs, m, |data|, 0)
    ensures forall a, b :: 0 <= a < b < |data| && (a, b) in pairs ==> Area(data[a], data[b]) <= m
    ensures m == 0 || exists a, b :: 0 <= a < b < |data| && (a, b) in pairs && Area(data[a], data[b]) == m
  {
  }

  /** What the pair loop works from: the compactions, the tiles' cells and the prefix table of the filled grid `g`. */
  ghost predicate Measured(data: seq<Tile>, rc: seq<Range>, cc: seq<Range>, vs: seq<Cell>, px: seq<seq<nat>>,
                           g: seq<seq<char>>) {
    && WellFormed(rc) && WellFormed(cc) && Located(data, rc, cc, vs)
    && (forall k :: 0 <= k < |vs| ==> InBounds(vs[k], |cc|, |rc|))
    && PrefixTable(px, g, |cc|, |rc|)
  }

  /** The validity test of one pair, as the loop body runs it: downgrade the bounds, then query the table. */
  method CheckPair(data: seq<Tile>, rc: seq<Range>, cc: seq<Range>, ghost vs: seq<Cell>, px: seq<seq<nat>>,
                   ghost g: seq<seq<char>>, i: nat, j: nat) returns (valid: bool)
    requires Measured(data, rc, cc, vs, px, g) && i < j < |data|
    ensures valid <==> (i, j) in EnclosedPairs(data, g, rc, cc)
  {
    var t1, t2 := data[i], data[j];
    assert vs[i] == Cell(RangeIndex(rc, t1.row), RangeIndex(cc, t1.col));
    assert vs[j] == Cell(RangeIndex(rc, t2.row), RangeIndex(cc, t2.col));
    var top := Min(t1.row, t2.row);
    var bottom := Max(t1.row, t2.row);
    var left := Min(t1.col, t2.col);
    var right := Max(t1.col, t2.col);
    var ctop := Downgrade(rc, top);
    var cbottom := Downgrade(rc, bottom);
    var cleft := Downgrade(cc, left);
    var cright := Downgrade(cc, right);
    DowngradeMonotone(rc, top, bottom);
    DowngradeMonotone(cc, left, right);
    valid := RectQuery(px, g, |cc|, |rc|, ctop, cbottom, cleft, cright);
    assert valid <==> EnclosedIn(g, rc, cc, t1, t2);
  }

  /** The pair loop of `part2`, with the `max_area < area` pruning. */
  method Search(data: seq<Tile>, rc: seq<Range>, cc: seq<Range>, ghost vs: seq<Cell>, px: seq<seq<nat>>,
                ghost g: seq<seq<char>>) returns (maxArea: nat)
    requires Measured(data, rc, cc, vs, px, g)
    ensures AllLocatable(data, rc, cc) && BestBefore(data, EnclosedPairs(data, g, rc, cc), maxArea, |data|, 0)
  {
    ghost var pairs := EnclosedPairs(data, g, rc, cc);
    maxArea := 0;
    for index1 := 0 to |data|
      invariant BestBefore(data, pairs, maxArea, index1, 0)
    {
      BestNextRow(data, pairs, maxArea, index1);
      for index2 := index1 + 1 to |data|
        invariant BestBefore(data, pairs, maxArea, index1, index2)
      {
        ghost var before := maxArea;
        var area := Area(data[index1], data[index2]);
        if maxArea < area {
          var valid := CheckPair(data, rc, cc, vs, px, g, index1, index2);
          if valid {
            maxArea := area;
          }
        }
        BestStep(data, pairs, before, maxArea, index1, index2);
      }
      BestNextRow(data, pairs, maxArea, index1);
    }
  }

  /** The compacted grid of `part2` once the loop is drawn and its inside filled. */
  method FillLoop(data: seq<Tile>, rc: seq<Range>, cc: seq<Range>) returns (grid: array2<char>)
    requires Fillable(data) && rc == RowCompaction(data) && cc == ColCompaction(data)
    ensures fresh(grid) && grid.Length0 == |cc| && grid.Length1 == |rc| && Holds(grid, Interior(data))
  {
    LayoutFacts(data);
    ghost var vs := Corners(data);
    grid := Rasterise(data, rc, cc, vs);
    ghost var outline := Draw(Blank(|cc|, |rc|), |cc|, |rc|, vs, |data|);
    assert outline == Outline(data);
    var row := |rc| / 2;
    var col := SeedScan(grid, row, outline);
    Fill(grid, Cell(row, col), outline);
    assert Filled(outline, |cc|, |rc|, Cell(row, col)) == Interior(data);
  }

  /** Everything the pair loop of `part2` reads: the compactions and the prefix table of the filled grid. */
  method Prepare(data: seq<Tile>) returns (rc: seq<Range>, cc: seq<Range>, px: seq<seq<nat>>)
    requires Fillable(data)
    ensures rc == RowCompaction(data) && cc == ColCompaction(data)
    ensures Measured(data, rc, cc, Corners(data), px, Interior(data))
  {
    rc := RowCompaction(data);
    cc := ColCompaction(data);
    var grid := FillLoop(data, rc, cc);
    px := PrefixMap(grid, Interior(data));
    LayoutFacts(data);
  }

  /**
   * `part2`: the largest inclusive area among the pairs of tiles whose
   * compacted rectangle holds no cell outside the filled loop, or 0 when
   * there is none. The `max_area < area` pruning skips only pairs that could
   * not raise the maximum.
   */
  method Part2(data: seq<Tile>) returns (maxArea: nat)
    requires Fillable(data)
    ensures forall a, b :: 0 <= a < b < |data| && (a, b) in InteriorPairs(data) ==> Area(data[a], data[b]) <= maxArea
    ensures maxArea == 0 || exists a, b :: 0 <= a < b < |data| && (a, b) in InteriorPairs(data) && Area(data[a], data[b]) == maxArea
  {
    var rc, cc, px := Prepare(data);
    maxArea := Search(data, rc, cc, Corners(data), px, Interior(data));
    BestOf(data, InteriorPairs(data), maxArea);
  }

  /** The largest of `area` over the pairs `i < j`; 0 with fewer than two tiles (`u64::MIN` start). */
  method MaxPairArea(data: seq<Tile>, area: (Tile, Tile) -> nat) returns (maxArea: nat)
    ensures forall i, j :: 0 <= i < j < |data| ==> area(data[i], data[j]) <= maxArea
    ensures if |data| < 2 then maxArea == 0
            else exists i, j :: 0 <= i < j < |data| && area(data[i], data[j]) == maxArea
  {
    maxArea := 0;
    ghost var bi, bj := 0, 1;
    for index1 := 0 to |data|
      invariant forall i, j :: 0 <= i < index1 && i < j < |data| ==> area(data[i], data[j]) <= maxArea
      invariant if index1 == 0 || |data| < 2 then maxArea == 0
                else 0 <= bi < bj < |data| && area(data[bi], data[bj]) == maxArea
    {
      for index2 := index1 + 1 to |data|
        invariant forall j :: index1 < j < index2 ==> area(data[index1], data[j]) <= maxArea
        invariant forall i, j :: 0 <= i < index1 && i < j < |data| ==> area(data[i], data[j]) <= maxArea
        invariant if (index1 == 0 && index2 == 1) || |data| < 2 then maxArea == 0
                  else 0 <= bi < bj < |data| && area(data[bi], data[bj]) == maxArea
      {
        if maxArea <= area(data[index1], data[index2]) {
          bi, bj := index1, index2;
        }
        maxArea := Max(maxArea, area(data[index1], data[index2]));
      }
    }
  }

  /** `part1` as written: the largest `|x1 - x2 + 1| * |y1 - y2 + 1|` over the pairs `i < j`. */
  method Part1(data: seq<Tile>) returns (maxArea: nat)
    ensures forall i, j :: 0 <= i < j < |data| ==> SkewedArea(data[i], data[j]) <= maxArea
    ensures if |data| < 2 then maxArea == 0
            else exists i, j :: 0 <= i < j < |data| && SkewedArea(data[i], data[j]) == maxArea
  {
    maxArea := MaxPairArea(data, SkewedArea);
  }

  /** `part1` with the inclusive area `part2` uses: the largest rectangle over all pairs of tiles. */
  method Part1Inclusive(data: seq<Tile>) returns (maxArea: nat)
    ensures forall i, j :: 0 <= i < j < |data| ==> Area(data[i], data[j]) <= maxArea
    ensures if |data| < 2 then maxArea == 0
            else exists i, j :: 0 <= i < j < |data| && Area(data[i], data[j]) == maxArea
  {
    maxArea := MaxPairArea(data, Area);
  }

  /** The inclusive area does not depend on the order of the corners and is never 0. */
  lemma AreaSymmetric(a: Tile, b: Tile)
    ensures Area(a, b) == Area(b, a) >= 1
  {
    var height, width := Max(a.row, b.row) - Min(a.row, b.row) + 1, Max(a.col, b.col) - Min(a.col, b.col) + 1;
    assert Max(b.row, a.row) - Min(b.row, a.row) + 1 == height;
    assert Max(b.col, a.col) - Min(b.col, a.col) + 1 == width;
    assert height * width >= 1 * width;
  }

  /** As written, the area undercounts and depends on the order of the tiles. */
  lemma SkewedAreaUndercounts()
    ensures SkewedArea(Tile(0, 0), Tile(5, 5)) == 16
    ensures SkewedArea(Tile(5, 5), Tile(0, 0)) == 36 == Area(Tile(0, 0), Tile(5, 5))
  {
  }

  /** Every rectangle `part2` accepts is among those the corrected `part1` ranks, so `part2` never exceeds it. */
  lemma Part2AtMostPart1(data: seq<Tile>, p1: nat, p2: nat)
    requires Fillable(data)
    requires forall i, j :: 0 <= i < j < |data| ==> Area(data[i], data[j]) <= p1
    requires p2 == 0 || exists a, b :: 0 <= a < b < |data| && (a, b) in InteriorPairs(data) && Area(data[a], data[b]) == p2
    ensures p2 <= p1
  {
  }
}
