/**
 * Tachyon beams in a manifold (07.rs). Part 1 lets beams fall from the start
 * through the grid, updating it in place row by row, and counts the splitters
 * a beam hits; part 2 counts the timelines of a single particle, which at
 * every splitter goes both left and right, with a memo table.
 */
module Day07 {
  import opened Wrappers

  /** `State`: one cell of the manifold. */
  datatype State = Start | Beam | Empty | Splitter

  /** `From<char> for State`; `None` stands for the panic on any other character. */
  function FromChar(c: char): (s: Option<State>)
    ensures s.None? <==> c !in {'S', '|', '.', '^'}
  {
    match c
    case 'S' => Some(Start)
    case '|' => Some(Beam)
    case '.' => Some(Empty)
    case '^' => Some(Splitter)
    case _ => None
  }

  /** `From<State> for char`. */
  function ToChar(s: State): char {
    match s
    case Start => 'S'
    case Beam => '|'
    case Empty => '.'
    case Splitter => '^'
  }

  /** Printing a state and reading it back gives the state. */
  lemma StateRoundTrip(s: State)
    ensures FromChar(ToChar(s)) == Some(s)
  {
  }

  /** Reading a character and printing the state gives the character back. */
  lemma CharRoundTrip(c: char)
    requires FromChar(c).Some?
    ensures ToChar(FromChar(c).value) == c
  {
  }

  type Grid = seq<seq<State>>

  // ---------------------------------------------------------------------
  // Part 1 (07.rs:44-73)
  // ---------------------------------------------------------------------

  /**
   * The `match` of `part1` on (top left, top, top right, left, self, right):
   * the next state of the cell.
   */
  function Transition(tl: State, t: State, tr: State, l: State, self: State, r: State): State {
    match (tl, t, tr, l, self, r)
    case (_, Start, _, _, Empty, _) => Beam
    case (_, _, Beam, _, Empty, Splitter) => Beam
    case (Beam, _, _, Splitter, Empty, _) => Beam
    case (_, Beam, _, _, Empty, _) => Beam
    case (_, Beam, _, _, Splitter, _) => Splitter
    case _ => self
  }

  /** Whether that `match` takes the arm that counts a split. */
  predicate SplitsHere(tl: State, t: State, tr: State, l: State, self: State, r: State) {
    match (tl, t, tr, l, self, r)
    case (_, Start, _, _, Empty, _) => false
    case (_, _, Beam, _, Empty, Splitter) => false
    case (Beam, _, _, Splitter, Empty, _) => false
    case (_, Beam, _, _, Empty, _) => false
    case (_, Beam, _, _, Splitter, _) => true
    case _ => false
  }

  /** Read as a rule, the `match` changes only empty cells. */
  lemma TransitionKeeps(tl: State, t: State, tr: State, l: State, self: State, r: State)
    requires self != Empty
    ensures Transition(tl, t, tr, l, self, r) == self
  {
  }

  /**
   * An empty cell becomes a beam exactly when a beam or the start is above
   * it, or a splitter beside it sends the beam from above into it; otherwise
   * it stays empty.
   */
  lemma TransitionFills(tl: State, t: State, tr: State, l: State, r: State)
    ensures Transition(tl, t, tr, l, Empty, r) in {Empty, Beam}
    ensures Transition(tl, t, tr, l, Empty, r) == Beam <==>
              t == Start || t == Beam || (tr == Beam && r == Splitter) || (tl == Beam && l == Splitter)
  {
  }

  /** A split is counted exactly at a splitter under a beam. */
  lemma SplitRule(tl: State, t: State, tr: State, l: State, self: State, r: State)
    ensures SplitsHere(tl, t, tr, l, self, r) <==> t == Beam && self == Splitter
  {
  }

  /** Cell `c` of the next row is the transition seen when `part1` visits it. */
  predicate RowStep(above: seq<State>, row: seq<State>, next: seq<State>, c: nat)
    requires 1 <= c && c + 1 < |row| == |next| <= |above|
  {
    next[c] == Transition(above[c - 1], above[c], above[c + 1], next[c - 1], row[c], row[c + 1])
  }

  /**
   * `next` is the row `row` after the scan of `part1` below the already
   * updated row `above`: each inner cell, from left to right, takes the
   * transition of its neighbourhood at the time of its visit (the updated row
   * above and left neighbour, its own and its right neighbour's row state);
   * the first and last cells keep their state.
   */
  predicate Propagated(above: seq<State>, row: seq<State>, next: seq<State>) {
    && 1 <= |row| == |next| <= |above|
    && next[0] == row[0] && next[|row| - 1] == row[|row| - 1]
    && forall c :: 1 <= c < |row| - 1 ==> RowStep(above, row, next, c)
  }

  /** The splits counted in the columns `1..k` of a row below `above`. */
  function SplitCount(above: seq<State>, row: seq<State>, k: nat): nat
    requires k <= |row| <= |above|
  {
    if k <= 1 then 0
    else SplitCount(above, row, k - 1) + (if above[k - 1] == Beam && row[k - 1] == Splitter then 1 else 0)
  }

  /** The inner loop of `part1`: updates one row in place, left to right, counting splits. */
  method PropagateRow(above: seq<State>, row: seq<State>) returns (next: seq<State>, splits: nat)
    requires 1 <= |row| <= |above|
    ensures Propagated(above, row, next)
    ensures splits == SplitCount(above, row, |row| - 1)
  {
    next := row;
    splits := 0;
    var column := 1;
    while column < |row| - 1
      invariant 1 <= column && (column == 1 || column <= |row| - 1) && |next| == |row| && next[0] == row[0]
      invariant forall c :: column <= c < |row| ==> next[c] == row[c]
      invariant forall c :: 1 <= c < column && c < |row| - 1 ==> RowStep(above, row, next, c)
      invariant column <= |row| && splits == SplitCount(above, row, column)
    {
      var tl, t, tr := above[column - 1], above[column], above[column + 1];
      var l, self, r := next[column - 1], next[column], next[column + 1];
      if SplitsHere(tl, t, tr, l, self, r) {
        splits := splits + 1;
      }
      ghost var before := next;
      next := next[column := Transition(tl, t, tr, l, self, r)];
      forall c | 1 <= c <= column && c < |row| - 1
        ensures RowStep(above, row, next, c)
      {
        if c < column {
          assert RowStep(above, row, before, c);
        }
      }
      column := column + 1;
    }
  }

  /** Every row is at least as long as the one below it, and rows below the first are not empty. */
  predicate Shaped(data: Grid) {
    forall l :: 1 <= l < |data| ==> 1 <= |data[l]| <= |data[l - 1]|
  }

  /** `grid` is `data` after the scan of `part1`: row 0 is kept, every later row is propagated. */
  predicate Scanned(data: Grid, grid: Grid, n: nat)
    requires n <= |data| == |grid|
  {
    && (|data| > 0 ==> grid[0] == data[0])
    && forall l :: 1 <= l < n ==> Propagated(grid[l - 1], data[l], grid[l])
  }

  /** The splits counted in rows `1..n`, each below its updated row above. */
  function TotalSplits(data: Grid, grid: Grid, n: nat): nat
    requires n <= |data| == |grid| && Shaped(data) && Scanned(data, grid, n)
  {
    if n <= 1 then 0
    else TotalSplits(data, grid, n - 1) + SplitCount(grid[n - 2], data[n - 1], |data[n - 1]| - 1)
  }

  /** `TotalSplits` reads only the rows before row `n - 1` of the grid. */
  lemma {:induction false} TotalSplitsFrame(data: Grid, g: Grid, h: Grid, n: nat)
    requires n <= |data| == |g| == |h| && Shaped(data) && Scanned(data, g, n) && Scanned(data, h, n)
    requires forall l :: 0 <= l < n - 1 ==> g[l] == h[l]
    ensures TotalSplits(data, g, n) == TotalSplits(data, h, n)
  {
    if n > 1 {
      TotalSplitsFrame(data, g, h, n - 1);
    }
  }

  /**
   * `part1`: updates a copy of the grid row by row and counts the splits;
   * the copy is returned too.
   */
  method Part1(data: Grid) returns (splits: nat, grid: Grid)
    requires Shaped(data)
    ensures |grid| == |data| && Scanned(data, grid, |data|)
    ensures splits == TotalSplits(data, grid, |data|)
  {
    grid := data;
    splits := 0;
    if |data| == 0 {
      return;
    }
    for line := 1 to |data|
      invariant |grid| == |data| && grid[line..] == data[line..] && Scanned(data, grid, line)
      invariant splits == TotalSplits(data, grid, line)
    {
      var newRow, s := PropagateRow(grid[line - 1], grid[line]);
      ghost var before := grid;
      grid := grid[line := newRow];
      assert Scanned(data, grid, line);
      TotalSplitsFrame(data, before, grid, line);
      assert Scanned(data, grid, line + 1);
      splits := splits + s;
    }
  }

  /** The scan has one outcome: two grids that both satisfy it agree. */
  lemma {:induction false} ScanUnique(data: Grid, g: Grid, h: Grid, n: nat)
    requires n <= |data| == |g| == |h| && Scanned(data, g, n) && Scanned(data, h, n)
    ensures forall l :: 0 <= l < n ==> g[l] == h[l]
  {
    if n > 1 {
      ScanUnique(data, g, h, n - 1);
      RowUnique(g[n - 2], data[n - 1], g[n - 1], h[n - 1]);
    }
  }

  /** A row propagated below a given row has one outcome. */
  lemma RowUnique(above: seq<State>, row: seq<State>, a: seq<State>, b: seq<State>)
    requires Propagated(above, row, a) && Propagated(above, row, b)
    ensures a == b
  {
    var c := 1;
    while c < |row| - 1
      invariant 1 <= c <= |row| && forall k :: 0 <= k < c ==> a[k] == b[k]
    {
      assert RowStep(above, row, a, c) && RowStep(above, row, b, c);
      c := c + 1;
    }
    assert forall k :: 0 <= k < |row| ==> a[k] == b[k];
  }

  /**
   * What the scan keeps: row 0, the first and last columns, and every cell
   * that was not empty; an empty cell ends empty or a beam.
   */
  lemma ScanKeeps(data: Grid, grid: Grid)
    requires |data| == |grid| && Scanned(data, grid, |data|)
    ensures |data| > 0 ==> grid[0] == data[0]
    ensures forall l :: 0 <= l < |data| ==> |grid[l]| == |data[l]|
    ensures forall l, c :: 0 <= l < |data| && 0 <= c < |data[l]| && data[l][c] != Empty ==> grid[l][c] == data[l][c]
    ensures forall l, c :: 0 <= l < |data| && 0 <= c < |data[l]| && data[l][c] == Empty ==> grid[l][c] in {Empty, Beam}
    ensures forall l :: 0 <= l < |data| && |data[l]| > 0 ==>
              grid[l][0] == data[l][0] && grid[l][|data[l]| - 1] == data[l][|data[l]| - 1]
  {
    forall l | 0 <= l < |data|
      ensures |grid[l]| == |data[l]|
    {
      if l > 0 {
        assert Propagated(grid[l - 1], data[l], grid[l]);
      }
    }
    forall l, c | 0 <= l < |data| && 0 <= c < |data[l]|
      ensures grid[l][c] == data[l][c] || (data[l][c] == Empty && grid[l][c] == Beam)
      ensures c == 0 || c == |data[l]| - 1 ==> grid[l][c] == data[l][c]
    {
      if 1 <= l {
        assert Propagated(grid[l - 1], data[l], grid[l]);
        if 1 <= c < |data[l]| - 1 {
          assert RowStep(grid[l - 1], data[l], grid[l], c);
          var above, cur := grid[l - 1], grid[l];
          if data[l][c] == Empty {
            TransitionFills(above[c - 1], above[c], above[c + 1], cur[c - 1], data[l][c + 1]);
          } else {
            TransitionKeeps(above[c - 1], above[c], above[c + 1], cur[c - 1], data[l][c], data[l][c + 1]);
          }
        }
      }
    }
  }

  // ---------------------------------------------------------------------
  // Part 2 (07.rs:75-105)
  // ---------------------------------------------------------------------

  /**
   * The number of timelines of a particle at `(line, column)`, without the
   * memo table; `None` where `part2_recursive` panics: a column outside the
   * row, a beam cell, or a splitter in column 0 (where `column - 1` underflows).
   */
  function Paths(data: Grid, line: nat, column: nat): (r: Option<nat>)
    decreases |data| - line
  {
    if |data| <= line then Some(1)
    else if |data[line]| <= column then None
    else
      match data[line][column]
      case Empty => Paths(data, line + 1, column)
      case Start => Paths(data, line + 1, column)
      case Splitter =>
        if column == 0 then None
        else
          var left, right := Paths(data, line + 1, column - 1), Paths(data, line + 1, column + 1);
          if left.Some? && right.Some? then Some(left.value + right.value) else None
      case Beam => None
  }

  /** Every completed walk counts at least one timeline. */
  lemma {:induction false} PathsPositive(data: Grid, line: nat, column: nat)
    requires Paths(data, line, column).Some?
    ensures Paths(data, line, column).value >= 1
    decreases |data| - line
  {
    if line < |data| {
      match data[line][column]
      case Empty => PathsPositive(data, line + 1, column);
      case Start => PathsPositive(data, line + 1, column);
      case Splitter =>
        PathsPositive(data, line + 1, column - 1);
        PathsPositive(data, line + 1, column + 1);
    }
  }

  /** Every entry of the memo table is the un-memoised count of its cell. */
  ghost predicate MemoSound(data: Grid, memo: map<(nat, nat), nat>) {
    forall key :: key in memo ==> Paths(data, key.0, key.1) == Some(memo[key])
  }

  /**
   * `part2_recursive`: the memoised count. The table only grows and stays
   * sound, and the answer is the un-memoised count, so the memo is invisible.
   */
  method Part2Recursive(data: Grid, line: nat, column: nat, memo: map<(nat, nat), nat>)
    returns (result: Option<nat>, memo': map<(nat, nat), nat>)
    requires MemoSound(data, memo)
    ensures result == Paths(data, line, column)
    ensures MemoSound(data, memo') && memo.Keys <= memo'.Keys
    decreases |data| - line
  {
    if |data| <= line {
      return Some(1), memo;
    }
    if (line, column) in memo {
      return Some(memo[(line, column)]), memo;
    }
    memo' := memo;
    if |data[line]| <= column {
      return None, memo';
    }
    match data[line][column] {
      case Empty =>
        result, memo' := Part2Recursive(data, line + 1, column, memo');
      case Start =>
        result, memo' := Part2Recursive(data, line + 1, column, memo');
      case Splitter =>
        if column == 0 {
          return None, memo';
        }
        var left, right;
        left, memo' := Part2Recursive(data, line + 1, column - 1, memo');
        if left.None? {
          return None, memo';
        }
        right, memo' := Part2Recursive(data, line + 1, column + 1, memo');
        if right.None? {
          return None, memo';
        }
        result := Some(left.value + right.value);
      case Beam =>
        return None, memo';
    }
    if result.Some? {
      memo' := memo'[(line, column) := result.value];
    }
  }

  /** The index of the first `Start` of a row, if any. */
  function FirstStart(row: seq<State>): (r: Option<nat>)
    ensures r.Some? ==> r.value < |row| && row[r.value] == Start && Start !in row[..r.value]
    ensures r.None? ==> Start !in row
  {
    if row == [] then None
    else if row[0] == Start then Some(0)
    else
      var rest := FirstStart(row[1..]);
      if rest.Some? then
        assert row[..rest.value + 1] == [row[0]] + row[1..][..rest.value];
        Some(rest.value + 1)
      else None
  }

  /**
   * `part2`: the timelines of the particle entering at the first start of
   * row 0; `None` where the program panics (no row, no start, or a panic of
   * `part2_recursive`).
   */
  method Part2(data: Grid) returns (result: Option<nat>)
    ensures |data| == 0 || FirstStart(data[0]).None? ==> result.None?
    ensures |data| > 0 && FirstStart(data[0]).Some? ==> result == Paths(data, 0, FirstStart(data[0]).value)
    ensures result.Some? ==> result.value >= 1
  {
    if |data| == 0 {
      return None;
    }
    var start := FirstStart(data[0]);
    if start.None? {
      return None;
    }
    var memo;
    result, memo := Part2Recursive(data, 0, start.value, map[]);
    if result.Some? {
      PathsPositive(data, 0, start.value);
    }
  }
}
