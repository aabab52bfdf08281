# Advent of Code 2025, days 1 to 10, in Dafny

This project models the puzzle solutions in `src/bin/01.rs` to `src/bin/10.rs`. Each day has its own
module (`Day01` to `Day10`, one per file); the literal checks of day 2's tests are restated in
`Day02Examples`. Four shared modules support them:

- `Sorting`: an insertion sort on an array by a key, used by days 5 and 8, and lists without
  repetitions.
- `Ordering`: the ascending arrangement of a list of sizes, used by day 8.
- `Wrappers`: an `Option` type.
- `Powers`: powers of ten, used by days 2 and 3.

The model follows each solution's own shape:

- Loops that update variables become methods with loops and invariants.
- The grids that days 4, 7 and 9 update in place become sequences or an `array2` that the methods
  change.
- The circuit bookkeeping of day 8 becomes a class (`Day08.Playground`).
- Pure computations become functions.

Each method is proved against a reference definition. The lemmas then prove what the puzzle asks of
that reference.

- **Day 1**: a dial of 100 positions, turned left and right from 50.
  - Part 1 counts the turns that end on 0.
  - Part 2 counts every click that passes 0, by a closed formula per turn.
- **Day 2**: identifiers that are a number written twice (part 1) or repeated at least twice
  (part 2), added up over ranges.
  - Part 1 does not scan the range. It computes the first and last half to double.
- **Day 3**: the largest joltage made of `k` batteries of a bank, taken in order.
  - The solution chooses greedily: the leftmost largest digit that leaves room for the rest.
- **Day 4**: rolls of paper in a grid. A roll is accessible when fewer than four of its eight
  neighbours hold rolls.
  - Part 2 removes accessible rolls round after round.
- **Day 5**: fresh-ingredient ranges.
  - Part 1 counts the fresh ingredients.
  - Part 2 counts the IDs covered by the union of the ranges, by a sweep over the ranges sorted by
    start.
- **Day 6**: a worksheet of arithmetic problems.
  - Part 1 reads the problems row-wise.
  - Part 2 reads them column-wise: the lines are padded and transposed, then split at blank
    columns.
  - Both read the input through `str::lines`, `split_whitespace`, `trim` and `parse::<u64>`, which
    are modelled too.
- **Day 7**: a tachyon beam falling through splitters.
  - Part 1 propagates the beam row by row and counts the splits.
  - Part 2 counts timelines with a memoised recursion.
- **Day 8**: junction boxes joined closest-pair first.
  - Part 1 connects a fixed number of pairs and multiplies the three largest circuit sizes.
  - Part 2 connects pairs until one circuit holds every box.
- **Day 9**: red tiles at the corners of a rectilinear loop.
  - Part 1 finds the largest rectangle with two tiles as opposite corners.
  - Part 2 keeps the rectangles that lie inside the loop. It uses:
    - coordinate compression (`compact` and `downgrade`, a binary search);
    - drawing the loop on the compressed grid;
    - a flood fill with an explicit stack;
    - a prefix-sum table that answers rectangle queries.
- **Day 10**: machines whose buttons toggle lights.
  - Part 1 finds the fewest presses that light the diagram, by iterative deepening.

## Model

| member | source | states |
|---|---|---|
| Day01.Turn | src/bin/01.rs:36-37 | the dial after one turn is always one of the 100 positions |
| Day01.Div100 | src/bin/01.rs:52-56 | `/ 100` on `i16` truncates toward zero: the remainder has the sign of the dividend and is less than 100 in size |
| Day01.FinalDial | src/bin/01.rs:33-41 | the dial after all turns, from 50, stays on the dial |
| Day01.StopsBounded | src/bin/01.rs:31-44 | part 1 counts at most one stop per instruction |
| Day01.Part1 | src/bin/01.rs:31-44 | the count is the number of instructions after which the dial rests on 0 |
| Day01.LeftStep | src/bin/01.rs:52 | the left-turn formula grows by one exactly when the next click lands on 0 |
| Day01.Passes | src/bin/01.rs:50-58 | the formula per turn; no contract of its own, Day01.PassesCountsClicks proves it counts the clicks that land on 0 |
| Day01.PassesCountsClicks | src/bin/01.rs:50-58 | for a non-negative distance, the per-turn formula equals the number of clicks of the turn that land on 0, counted one click at a time |
| Day01.TotalPassesCountsClicks | src/bin/01.rs:46-60 | summed over the instructions, the formula counts every click that lands on 0 |
| Day01.Part2 | src/bin/01.rs:46-65 | as written: the summed formula, plus one when the dial ends on 0 |
| Day01.Part2DoubleCounts | src/bin/01.rs:61-63 | as written, `R50` from 50 is counted twice although one click lands on 0 |
| Day01.Part2Corrected | src/bin/01.rs:46-60 | without the final adjustment, the answer is exactly the number of clicks landing on 0 |
| Day01.HelperValues | src/bin/01.rs:93-126 | the formula values the test helpers `l` and `r` are checked against |
| Day02.NumDigitsRange | src/bin/02.rs:18 | `ilog10() + 1` is the digit count: the number lies between the matching powers of ten |
| Day02.DecimalLength | src/bin/02.rs:61 | `to_string` has one character per digit |
| Day02.DecimalConcat | src/bin/02.rs:89-93 | writing `x` and then the `d` digits of `y` is the decimal string of `x * 10^d + y` |
| Day02.DoubleDecimal | src/bin/02.rs:89-93 | the decimal string of `double(x)` is that of `x` written twice |
| Day02.DoubleBounds | src/bin/02.rs:89-93 | the double of a `d`-digit number has `2d` digits |
| Day02.DoubleOrder | src/bin/02.rs:89-93 | doubles compare as their halves do, strictly and not |
| Day02.DoubleIncreasing | src/bin/02.rs:89-93 | `double` is strictly increasing |
| Day02.Double | src/bin/02.rs:89-93 | `double`; no contract of its own, Day02.DoubleDecimal proves its decimal string is that of `x` written twice |
| Day02.Halves | src/bin/02.rs:19-21 | an even-length number splits into a left half of `h` digits and a right half |
| Day02.RangeStartBoundary | src/bin/02.rs:18-33 | the double of the computed start reaches the range's beginning, and the double before it does not |
| Day02.RangeEndBoundary | src/bin/02.rs:35-47 | the double of the computed end stays within the range's end, and the double after it does not |
| Day02.RangeStartIsLeast | src/bin/02.rs:18-33 | the doubles at or above the range's beginning are exactly those from the computed start on |
| Day02.RangeEndIsGreatest | src/bin/02.rs:35-47 | the doubles at or below the range's end are exactly those up to the computed end |
| Day02.RangeStart | src/bin/02.rs:18-33 | the first half to double; no contract of its own, Day02.RangeStartBoundary and Day02.RangeStartIsLeast prove it is the least whose double reaches the range |
| Day02.RangeEnd | src/bin/02.rs:35-47 | the last half to double; no contract of its own, Day02.RangeEndBoundary and Day02.RangeEndIsGreatest prove it is the greatest whose double stays within the range |
| Day02.Reindex | src/bin/02.rs:49-51 | adding the doubles of `start..=end` is adding the identifiers of the range that are doubles |
| Day02.Part1SingleRangeSumsDoubles | src/bin/02.rs:17-52 | `part1_single_range` adds exactly the identifiers of the range that are some number written twice |
| Day02.Part1SingleRange | src/bin/02.rs:17-52 | `part1_single_range`; no contract of its own, Day02.Part1SingleRangeSumsDoubles proves it adds exactly the doubles of the range |
| Day02.Part1 | src/bin/02.rs:54-58 | `part1`; no contract of its own, Day02.Part1AtMostPart2 bounds it by part 2 |
| Day02.DoubleExamples | src/bin/02.rs:106-111 | the values `test_double` checks |
| Day02.Part1SingleRangeExamples | src/bin/02.rs:113-117 | the values `test_part1_single_range` checks |
| Day02.RepeatPrefix | src/bin/02.rs:68-70 | the first `c` copies of a chunk begin every longer repetition of it |
| Day02.PeriodicChunk | src/bin/02.rs:68-70 | in a string whose chunks all equal the first, every chunk at a multiple of the length is the first |
| Day02.ChunksMatch | src/bin/02.rs:68-70 | true exactly when every chunk of the given length equals the first |
| Day02.IsRepeating | src/bin/02.rs:60-75 | true exactly when some chunk length of at most half the decimal string makes it a repetition |
| Day02.DoubleIsRepeating | src/bin/02.rs:60-75 | every number written twice is repeating |
| Day02.DoublesInAtMost | src/bin/02.rs:77-81 | over any range, part 2 adds at least what part 1 adds |
| Day02.RangeSumInvalid | src/bin/02.rs:77-81 | `part2_range_sum_invalid`; no contract of its own, Day02.DoublesInAtMost and Day02.RangeSumInvalidHasBoth relate it to the identifiers it adds |
| Day02.RangeSumInvalidHas | src/bin/02.rs:77-81 | every repeating identifier of the range is part of the sum |
| Day02.RangeSumInvalidHasBoth | src/bin/02.rs:77-81 | two repeating identifiers of the range are both part of the sum |
| Day02.Part2 | src/bin/02.rs:83-87 | `part2`; no contract of its own, Day02.Part1AtMostPart2 bounds part 1 by it |
| Day02Examples.TwoDigitRepeating | src/bin/02.rs:60-75 | a two-digit identifier repeats exactly when its two digits agree |
| Day02Examples.ThreeDigitRepeating | src/bin/02.rs:60-75 | a three-digit identifier repeats exactly when its three digits agree |
| Day02Examples.FourDigitRepeating | src/bin/02.rs:60-75 | a four-digit identifier repeats exactly when its two halves agree |
| Day02Examples.IsRepeatingExamples | src/bin/02.rs:134-143 | the answers `test_is_invalid_part2` expects: 12341234, 123123123, 1212121212 and 1111111 repeat; 12312312, 11118111 and 12 do not |
| Day02Examples.RangeSumInvalidExamples | src/bin/02.rs:146-157 | the sums `test_part2_range_sum_invalid` expects for its first ten ranges, and 2121212121 for the range from 2121212118 to 2121212124 |
| Day02Examples.LastRangeTestAsWritten | src/bin/02.rs:158 | as written, the range from 1212121218 to 2121212124 adds at least 1313131313 + 2121212121, not the 2121212121 the test expects |
| Day02.Part1AtMostPart2 | src/bin/02.rs:54-87 | part 1's answer never exceeds part 2's |
| Day03.ValueAppend | src/bin/03.rs:15 | accumulating `result * 10 + digit` shifts the number one place |
| Day03.ValueFront | src/bin/03.rs:15 | read from the front, the first digit weighs `10^(k-1)` |
| Day03.ValueBound | src/bin/03.rs:15 | a `k`-digit joltage is below `10^k` |
| Day03.LeadingDigitWins | src/bin/03.rs:9-15 | a larger leading digit wins whatever follows |
| Day03.SameLeadingDigit | src/bin/03.rs:9-15 | with equal leading digits, the rest decides |
| Day03.FirstMaxIsLeftmostMax | src/bin/03.rs:9-14 | the chosen index holds a maximum, and every earlier character is smaller |
| Day03.FirstMaxUnique | src/bin/03.rs:9-14 | only one index is the leftmost maximum |
| Day03.GreedyIsSubsequence | src/bin/03.rs:5-19 | the greedy digits are digits of the bank, taken in order |
| Day03.GreedyIsLargest | src/bin/03.rs:5-19 | no `k` batteries taken in order give a larger joltage than the greedy choice |
| Day03.GreedyIsMaximum | src/bin/03.rs:5-19 | the greedy joltage is a choice of `k` batteries in order, none beats it, and it has at most `k` digits |
| Day03.SubIsBank | src/bin/03.rs:16 | characters taken from a bank are digits |
| Day03.PickMax | src/bin/03.rs:9-14 | the reverse scan that keeps the last maximum seen finds the leftmost maximum |
| Day03.PickStep | src/bin/03.rs:8-16 | after each pick, the picked digits and the greedy choice on the rest still spell the greedy answer |
| Day03.LargestJoltage | src/bin/03.rs:5-19 | `largest_joltage` returns the value of the greedy choice, which is the maximum |
| Day03.SumJoltage | src/bin/03.rs:21-27 | the sum of the greedy joltages over the banks |
| Day03.Part1 | src/bin/03.rs:21-23 | the sum with two batteries per bank |
| Day03.Part2 | src/bin/03.rs:25-27 | the sum with twelve batteries per bank |
| Day03.LargestJoltageExamples | src/bin/03.rs:58-63 | the values `test_largest_joltage` checks: 98, 89, 78 and 92 with two batteries |
| Day04.DirectionIndex | src/bin/04.rs:10-12 | every listed direction is one of the eight offsets around a cell, at its own position |
| Day04.OffsetIndex | src/bin/04.rs:10-12 | every one of the eight offsets is listed |
| Day04.IsAccessible | src/bin/04.rs:8-29 | true exactly when fewer than four listed neighbours inside the grid hold rolls |
| Day04.HitsCounted | src/bin/04.rs:13-27 | the directions hit different cells, so the count is the number of cells hit |
| Day04.HitsSound | src/bin/04.rs:13-27 | every cell hit is the occupied target of a listed direction |
| Day04.HitsComplete | src/bin/04.rs:13-27 | every occupied target of a listed direction is hit |
| Day04.AdjacentIsNeighbours | src/bin/04.rs:8-29 | `accessible` counts exactly the rolls on the eight cells around the cell, never the cell itself |
| Day04.PicksExact | src/bin/04.rs:31-41 | the scan lists exactly the accessible rolls, each once |
| Day04.RowPicksExact | src/bin/04.rs:33-39 | the scan of one row lists exactly its accessible rolls, each once |
| Day04.PicksCount | src/bin/04.rs:31-41 | the scan's count is the number of accessible rolls |
| Day04.Part1 | src/bin/04.rs:31-41 | `part1` is the number of accessible rolls |
| Day04.RoundRemoves | src/bin/04.rs:47-64 | a round keeps the grid's shape and removes exactly the rolls accessible at its start |
| Day04.RemovedIsDifference | src/bin/04.rs:43-67 | part 2 only removes rolls, leaves none accessible, and answers the number of rolls removed |
| Day04.RemovedAtLeastPart1 | src/bin/04.rs:43-67 | part 2's answer is at least part 1's |
| Day04.Removals | src/bin/04.rs:47-54 | the list of accessible rolls in scan order |
| Day04.ClearAll | src/bin/04.rs:62-64 | exactly the listed cells are cleared, and the shape is kept |
| Day04.ClearedIsRound | src/bin/04.rs:47-64 | clearing the listed cells is one round |
| Day04.Part2 | src/bin/04.rs:43-67 | `part2` is the number of rolls removed round after round until none is accessible |
| Day05.Ids | src/bin/05.rs:43-44 | an ID lies in a range exactly when `start <= id <= end` |
| Day05.Part1Counts | src/bin/05.rs:39-48 | `part1` is the number of positions holding a fresh ingredient |
| Day05.FreshPositionsLast | src/bin/05.rs:39-48 | the last ingredient adds its position exactly when it is fresh |
| Day05.Part1OrderFree | src/bin/05.rs:39-48 | the order of the ranges does not matter to part 1 |
| Day05.CoveredIsFresh | src/bin/05.rs:43-44 | an ID is covered by the union exactly when it is fresh |
| Day05.IdsCount | src/bin/05.rs:57-58 | a range holds `end - start + 1` IDs, none when it is empty |
| Day05.SweepAdds | src/bin/05.rs:56-59 | the next range adds the IDs from the cursor, or its start if later, to its end |
| Day05.EndBoundIsMax | src/bin/05.rs:60 | the cursor is one past the largest end seen, or 0 before any range |
| Day05.CursorMonotone | src/bin/05.rs:60 | the cursor never moves back |
| Day05.SweepNext | src/bin/05.rs:55-61 | one iteration of the sweep keeps its invariants |
| Day05.SweepStep | src/bin/05.rs:56-60 | one step adds exactly the new IDs of the range and moves the cursor past them |
| Day05.Sweep | src/bin/05.rs:55-61 | over ranges sorted by start, the sweep counts exactly the IDs of the union |
| Day05.Part2 | src/bin/05.rs:50-63 | `part2` is the number of IDs covered by at least one range |
| Day05.CoveredOrderFree | src/bin/05.rs:54 | the union depends only on the collection of ranges, not on their order |
| Day05.CoveredAtMostTotal | src/bin/05.rs:50-63 | the union is no larger than the sum of the range sizes, and equal to it for disjoint ranges |
| Day06.ReduceAppend | src/bin/06.rs:64-65 | folding a concatenation combines the folds of the parts |
| Day06.ReduceOrderFree | src/bin/06.rs:64-65 | any rearrangement of the numbers has the same sum and product |
| Day06.ProductZero | src/bin/06.rs:65 | a product is zero exactly when one of its factors is |
| Day06.SumZero | src/bin/06.rs:64 | a sum is zero exactly when all its terms are |
| Day06.EvaluateZero | src/bin/06.rs:63-67 | a problem is worth 0 exactly when its operator is neither `+` nor `*`, or a sum of zeros, or a product with a zero factor |
| Day06.Evaluate | src/bin/06.rs:63-67 | the value of one problem; no contract of its own, Day06.EvaluateZero and Day06.EvaluateOrderFree state when it is 0 and that the order of the numbers does not matter |
| Day06.EvaluateOrderFree | src/bin/06.rs:63-67 | a problem's value does not depend on the order of its numbers |
| Day06.Part1Append | src/bin/06.rs:61-69 | the total of a worksheet split in two is the sum of the totals of the parts |
| Day06.Part1 | src/bin/06.rs:61-69 | `part1`; no contract of its own, Day06.Part1Append proves the total splits over the problems |
| Day06.LineEnd | src/bin/06.rs:4 | the index of the first line break, with no line break before it |
| Day06.LinesHaveNoNewline | src/bin/06.rs:4 | no line holds a line break |
| Day06.LinesStep | src/bin/06.rs:4 | the lines of a string are its first line, then the lines after that line's break |
| Day06.UnlinesLines | src/bin/06.rs:4 | without carriage returns, the lines joined again give the input, with a final line break added if missing |
| Day06.LinesOfUnlines | src/bin/06.rs:4 | lines without breaks or a final carriage return come back from their joining |
| Day06.Span | src/bin/06.rs:6 | the first whitespace character, with no whitespace before it |
| Day06.WordsAreSolid | src/bin/06.rs:6 | every word from `split_whitespace` is non-empty and holds no whitespace |
| Day06.WordsOfSpaced | src/bin/06.rs:6 | splitting words joined by spaces gives the words back |
| Day06.TrimStartSplits | src/bin/06.rs:53 | `trim_start` drops a blank prefix and keeps the rest, which starts with no whitespace |
| Day06.TrimEndSplits | src/bin/06.rs:53 | `trim_end` drops a blank suffix and keeps the rest, which ends with no whitespace |
| Day06.TrimEmptyIffBlank | src/bin/06.rs:50 | a column trims to nothing exactly when it is blank |
| Day06.TrimPadded | src/bin/06.rs:53 | a solid string padded with blanks on both sides trims back to itself |
| Day06.TrimStartPadded | src/bin/06.rs:53 | a blank prefix before a string that starts solid is dropped by `trim_start` |
| Day06.TrimEndPadded | src/bin/06.rs:53 | a blank suffix after a string that ends solid is dropped by `trim_end` |
| Day06.Decimal | src/bin/06.rs:53 | a number's decimal representation is a non-empty string of digits |
| Day06.ParseDecimal | src/bin/06.rs:53 | `parse::<u64>` of a number's decimal representation accepts it and gives the number back |
| Day06.LeadingZero | src/bin/06.rs:53 | leading zeros do not change a numeral's value |
| Day06.ParseInput | src/bin/06.rs:3-21 | one problem per token of the first row; its numbers are that column of the number rows, parsed, and its operator is the first character of the operator token |
| Day06.WorksheetTable | src/bin/06.rs:4-7 | each line of a written-out worksheet splits into the tokens it was written from |
| Day06.WorksheetParses | src/bin/06.rs:3-21 | a worksheet written out from problems is one `parse_input` accepts, and it reads back the same problems |
| Day06.Resize | src/bin/06.rs:32-34 | `resize` gives the target length, the line's characters first and then spaces |
| Day06.MaxLength | src/bin/06.rs:28 | the longest line's length: no line is longer, and some line reaches it |
| Day06.PaddedRows | src/bin/06.rs:28-35 | padding keeps each line as a prefix and adds only spaces, up to the longest length |
| Day06.Padded | src/bin/06.rs:28-35 | every line gets the same length, at least that of the first |
| Day06.PadRows | src/bin/06.rs:28-35 | the loop pads every line to the longest line's length |
| Day06.TransposedTwice | src/bin/06.rs:38-48 | transposing a non-empty rectangle twice gives it back |
| Day06.Transpose | src/bin/06.rs:38-48 | column `i` is the string of the rows' `i`-th characters, top to bottom, one per position of the first row |
| Day06.GroupsPartition | src/bin/06.rs:50 | `split` gives one group more than there are blank columns, and the groups in order are exactly the other columns |
| Day06.GroupsHaveNoSeparator | src/bin/06.rs:50 | no group holds a blank column |
| Day06.ReadColumn | src/bin/06.rs:51-53 | a column holding a number's digits between blanks, above any operator character, reads as that number |
| Day06.ParseInputPart2 | src/bin/06.rs:23-59 | one problem per group of columns, in order; each column without its last character is a number, and the operator is the last character of the group's first column |
| Day07.FromChar | src/bin/07.rs:14-24 | the conversion fails exactly on characters other than `S`, `\|`, `.` and `^` |
| Day07.StateRoundTrip | src/bin/07.rs:14-35 | printing a state and reading it back gives the state |
| Day07.ToChar | src/bin/07.rs:26-35 | `From<State> for char`; no contract of its own, Day07.StateRoundTrip and Day07.CharRoundTrip prove it inverse to reading a character |
| Day07.CharRoundTrip | src/bin/07.rs:14-35 | reading a valid character and printing the state gives the character back |
| Day07.TransitionKeeps | src/bin/07.rs:52-69 | the `match` changes only empty cells |
| Day07.Transition | src/bin/07.rs:52-68 | the `match` of `part1`; no contract of its own, Day07.TransitionKeeps proves it changes only empty cells |
| Day07.TransitionFills | src/bin/07.rs:52-69 | an empty cell becomes a beam exactly when a beam or the start is above it, or a splitter beside it sends a beam from above into it |
| Day07.SplitRule | src/bin/07.rs:64-67 | a split is counted exactly at a splitter under a beam |
| Day07.PropagateRow | src/bin/07.rs:48-71 | the row is updated left to right by the `match`, and the count is the splits in that row |
| Day07.Part1 | src/bin/07.rs:44-73 | every row below the first is propagated from the updated row above, and the count is the total of the splits |
| Day07.ScanUnique | src/bin/07.rs:44-73 | the scan has one outcome |
| Day07.TotalSplitsFrame | src/bin/07.rs:44-73 | the count of splits in the rows so far depends only on those rows |
| Day07.RowUnique | src/bin/07.rs:48-71 | a row propagated below a given row has one outcome |
| Day07.ScanKeeps | src/bin/07.rs:44-73 | the scan keeps row 0, the edge columns and every non-empty cell; an empty cell ends empty or a beam |
| Day07.PathsPositive | src/bin/07.rs:75-95 | every completed walk counts at least one timeline |
| Day07.Part2Recursive | src/bin/07.rs:75-95 | the memoised count equals the un-memoised count, and the table only grows and stays sound |
| Day07.FirstStart | src/bin/07.rs:98-102 | the first start of the row, or none when the row has no start |
| Day07.Part2 | src/bin/07.rs:97-105 | the timelines from the first start of row 0, none when the program panics, and at least one otherwise |
| Day08.Distance | src/bin/08.rs:44-49 | the squared distance is 0 exactly between equal positions |
| Day08.DistanceSymmetric | src/bin/08.rs:44-49 | the distance does not depend on which box comes first |
| Day08.PairsBeforeAll | src/bin/08.rs:52-61 | all rows of the pair loop together hold `n (n - 1) / 2` pairs |
| Day08.Pairs | src/bin/08.rs:52-61 | every pair `i < j` with its distance, each once, in generation order, `n (n - 1) / 2` of them |
| Day08.PairsFrom | src/bin/08.rs:54-60 | the inner loop appends the pairs of the box with every later box, in order |
| Day08.RankOrder | src/bin/08.rs:63 | the key orders pairs by distance, ties in generation order, as the stable sort does, and tells pairs apart |
| Day08.SortedIsConnectOrder | src/bin/08.rs:63 | sorting the generated pairs by the key puts them in connection order |
| Day08.ConnectOrder | src/bin/08.rs:52-63 | every pair once, in the order both parts connect them |
| Day08.SingletonsPartitioned | src/bin/08.rs:22-39 | initially each box is alone in a circuit named by its index, one circuit per box |
| Day08.MovedIsRelabel | src/bin/08.rs:74-78 | moving the boxes of one circuit is relabelling that circuit |
| Day08.MergePartitioned | src/bin/08.rs:74-81 | merging two different circuits keeps a partition of the boxes and leaves one circuit fewer |
| Day08.MergedList | src/bin/08.rs:79-81 | the merged list has no repetitions, and all its boxes carry the surviving circuit id |
| Day08.LinkedSymmetric | src/bin/08.rs:65-83 | chains of connections can be followed backwards |
| Day08.LinkedTransitive | src/bin/08.rs:65-83 | two chains meeting at a box make one |
| Day08.LinkedGrows | src/bin/08.rs:65-83 | chains survive further connections |
| Day08.SameCircuitIffLinked | src/bin/08.rs:65-83 | two boxes share a circuit exactly when a chain of connections joins them |
| Day08.TracksMerge | src/bin/08.rs:70-81 | after a merge, the circuit ids still describe the connections made |
| Day08.FullCircuit | src/bin/08.rs:127-129 | a circuit list holds all boxes exactly when its length is the number of boxes |
| Day08.OneCircuitAllLinked | src/bin/08.rs:127-129 | a circuit holding every box means every box is linked |
| Day08.AllLinkedFull | src/bin/08.rs:127-129 | when every box is linked, every circuit holds all boxes |
| Day08.StillApart | src/bin/08.rs:108-130 | a connection that leaves no circuit holding every box does not link every box either |
| Day08.PrefixShort | src/bin/08.rs:108-132 | a prefix that does not link every box, of a list that does, is proper |
| Day08.AllPairsLinkAll | src/bin/08.rs:108-132 | connecting every pair links every box, so the loop ends before the unreachable point |
| Day08.SortedIsAscending | src/bin/08.rs:90 | `sort` on the sizes gives an ascending list |
| Day08.AnyListingSorts | src/bin/08.rs:85-91 | sorting any listing of the circuit sizes gives the same list, whatever order the map yields them in |
| Day08.TopThree | src/bin/08.rs:90-91 | the product of the three largest sizes of the ascending arrangement, or of all when fewer |
| Day08.Playground.constructor | src/bin/08.rs:19-42 | each box starts alone in a circuit named by its index, and the bookkeeping is a partition |
| Day08.Playground.Connect | src/bin/08.rs:65-83 | joining a pair in one circuit changes nothing; otherwise the second circuit is relabelled and merged into the first; the bookkeeping stays valid |
| Day08.Playground.MoveBoxes | src/bin/08.rs:76-78 | exactly the listed boxes get the new circuit id |
| Day08.Playground.ConnectAll | src/bin/08.rs:65-83 | every given pair is connected in turn, and the bookkeeping stays valid |
| Day08.Playground.Lengths | src/bin/08.rs:85-89 | the size of every circuit, by circuit id |
| Day08.Playground.Part1 | src/bin/08.rs:51-92 | the first `connections` pairs in connection order are made, and the answer is the product of the three largest circuit sizes |
| Day08.Playground.ConnectAndCheck | src/bin/08.rs:109-129 | after the connection, done exactly when every box is linked |
| Day08.Playground.Part2 | src/bin/08.rs:94-133 | the last pair is the first whose connection links every box, and the answer is the product of its boxes' x coordinates |
| Day09.InsertDistinct | src/bin/09.rs:34 | inserting into a strictly increasing list keeps it strictly increasing and adds exactly the value |
| Day09.SortedDistinct | src/bin/09.rs:34 | `sorted().dedup()` is strictly increasing and holds exactly the input's values |
| Day09.Compact | src/bin/09.rs:29-39 | one range more than there are distinct values, from 0 to the upper sentinel, each range ending where the next starts |
| Day09.Windows | src/bin/09.rs:36-37 | `tuple_windows` then `from..to`: one range fewer than boundaries, the `i`-th from the `i`-th boundary to the next |
| Day09.CompactLength | src/bin/09.rs:29-39 | the compaction has one range more than there are distinct values |
| Day09.CompactStarts | src/bin/09.rs:29-39 | every value is the start of a range of its compaction |
| Day09.CompactWellFormed | src/bin/09.rs:29-39 | with values below the sentinel, the compaction starts at 0 and its ranges are in order and adjacent |
| Day09.ContainedOnce | src/bin/09.rs:41-53 | at most one range of a well-formed compaction contains a value |
| Day09.Ordered | src/bin/09.rs:29-39 | an earlier range of a well-formed compaction ends before a later one starts |
| Day09.RangeIndex | src/bin/09.rs:41-53 | an index whose range contains the value |
| Day09.LocatableBelowEnd | src/bin/09.rs:41-53 | `downgrade` finds a range exactly for the values below the last end |
| Day09.Downgrade | src/bin/09.rs:41-53 | the binary search returns the index of the range containing the coordinate |
| Day09.DowngradeMonotone | src/bin/09.rs:41-53 | `downgrade` keeps the order of coordinates |
| Day09.DowngradeOfInput | src/bin/09.rs:29-53 | an input value maps to the range that starts at it |
| Day09.BetweenExactly | src/bin/09.rs:55-73 | `between` yields exactly the cells strictly between the two ends of a row or column, `\|delta\| - 1` of them |
| Day09.Between | src/bin/09.rs:55-73 | every cell yielded lies strictly between the two ends |
| Day09.DrawMarksLoop | src/bin/09.rs:106-116 | drawing on a blank grid marks exactly the corners and the cells between consecutive corners, the closing edge included |
| Day09.DrawCells | src/bin/09.rs:110-115 | the corner becomes `#` and every cell between the two corners becomes `X` |
| Day09.MarkAll | src/bin/09.rs:112-114 | every listed cell becomes `X` |
| Day09.DrawEdge | src/bin/09.rs:106-116 | both tiles of the edge are downgraded to their cells and the edge is drawn |
| Day09.LocateTiles | src/bin/09.rs:106-109 | with coordinates below the sentinel, both compactions are well formed and every tile is located |
| Day09.Corners | src/bin/09.rs:106-109 | one cell per tile: the downgraded row and column |
| Day09.Rasterise | src/bin/09.rs:105-116 | the grid is allocated as written and holds the whole loop drawn |
| Day09.StraightCorners | src/bin/09.rs:106-116 | a loop of tiles along rows and columns compacts to one along rows and columns |
| Day09.MarkCell | src/bin/09.rs:85-93 | the cell becomes `X` and joins the marked set |
| Day09.Move | src/bin/09.rs:85-93 | a `.` neighbour on the grid is marked and pushed; every marked cell was `.` and is reachable from the start |
| Day09.Visit | src/bin/09.rs:83-95 | the four moves from the popped cell keep the fill's invariants |
| Day09.FreeCellsShrink | src/bin/09.rs:75-97 | marking a cell leaves fewer `.` cells, so the fill ends |
| Day09.FillComplete | src/bin/09.rs:75-97 | when the stack empties, the grid is the start as `F` and exactly the `.` cells reachable from it as `X` |
| Day09.Fill | src/bin/09.rs:75-97 | the flood fill turns exactly the `.` cells 4-connected to the start into `X` |
| Day09.FirstWhere | src/bin/09.rs:118-126 | the first position from a start whose cell is (or is not) `.` |
| Day09.SeedColumn | src/bin/09.rs:118-126 | the seed is a `.` cell after the first wall of the middle row |
| Day09.SeedScan | src/bin/09.rs:118-126 | the two scans of the middle row find the seed column |
| Day09.SpanClear | src/bin/09.rs:131-151 | a row span counts no `.` cell exactly when it holds none |
| Day09.BoxClear | src/bin/09.rs:170-193 | a box counts no `.` cell exactly when it holds none |
| Day09.PrefixStep | src/bin/09.rs:131-151 | the prefix count is the count above plus the count to the left minus their overlap plus the cell |
| Day09.PrefixMap | src/bin/09.rs:131-151 | every entry of the table is the number of `.` cells above and to the left of it, itself included |
| Day09.RectQuery | src/bin/09.rs:170-193 | the rectangle test holds exactly when the rectangle holds no `.` cell |
| Day09.BestStep | src/bin/09.rs:159-196 | one more pair keeps the running maximum over the pairs processed |
| Day09.BestOf | src/bin/09.rs:153-197 | after all pairs, the maximum bounds every accepted area and is attained, or is 0 |
| Day09.CheckPair | src/bin/09.rs:165-193 | a pair is accepted exactly when its compacted rectangle holds no `.` cell of the filled grid |
| Day09.Search | src/bin/09.rs:153-197 | with the pruning, the result is the largest accepted area |
| Day09.FillLoop | src/bin/09.rs:105-129 | the compacted grid holds the loop drawn and its inside filled |
| Day09.Prepare | src/bin/09.rs:101-151 | the compactions and the prefix table of the filled grid |
| Day09.Part2 | src/bin/09.rs:99-198 | the largest inclusive area among the pairs whose rectangle lies inside the filled loop, attained by one of them, or 0 |
| Day09.Part1 | src/bin/09.rs:17-27 | as written: the largest `\|x1 - x2 + 1\| * \|y1 - y2 + 1\|` over the pairs, attained, or 0 with fewer than two tiles |
| Day09.MaxPairArea | src/bin/09.rs:17-27 | the largest value of an area over the pairs `i < j`, or 0 with fewer than two tiles |
| Day09.SkewedAreaUndercounts | src/bin/09.rs:21-22 | as written, the area of `(0,0)`-`(5,5)` is 16 in one order and 36 in the other |
| Day09.SkewedArea | src/bin/09.rs:21-22 | the area as `part1` computes it; no contract of its own, Day09.SkewedAreaUndercounts shows it depends on the order of the tiles |
| Day09.Part1Inclusive | src/bin/09.rs:17-27 | corrected: the largest inclusive area over all pairs of tiles, attained, or 0 |
| Day09.AreaSymmetric | src/bin/09.rs:21-22 | the inclusive area does not depend on the order of the corners and is at least 1 |
| Day09.Part2AtMostPart1 | src/bin/09.rs:17-198 | part 2 never exceeds the corrected part 1 |
| Day10.Xor | src/bin/10.rs:91 | a bit is set in `a ^ b` exactly when it is set in one operand |
| Day10.XorTwice | src/bin/10.rs:91 | pressing the same button twice changes nothing |
| Day10.LightMaskBits | src/bin/10.rs:30-36 | bit `i` of the diagram is set exactly when light `i` exists and is on |
| Day10.LightMaskFits | src/bin/10.rs:30-36 | a diagram of at most 32 lights fits in a `u32` |
| Day10.ButtonMaskBits | src/bin/10.rs:44-46 | bit `i` of a button is set exactly when `i` is one of its indexes |
| Day10.ButtonMaskBySet | src/bin/10.rs:44-46 | the order and repetition of a button's indexes do not matter |
| Day10.ButtonMaskFits | src/bin/10.rs:44-46 | indexes below 32 give a button that fits in a `u32` |
| Day10.PressFirst | src/bin/10.rs:89-94 | a press sequence from the status after a button works from the status before it, one press longer |
| Day10.FirstPress | src/bin/10.rs:89-94 | a successful sequence from a status off the diagram starts with some button |
| Day10.DepthZero | src/bin/10.rs:85-87 | with no presses left, only the diagram itself is reached |
| Day10.AlreadyLit | src/bin/10.rs:81-83 | the diagram itself is reached with no press |
| Day10.Monotone | src/bin/10.rs:102-108 | success at one depth is success at every larger depth |
| Day10.Part1Recursive | src/bin/10.rs:80-97 | true exactly when at most `depth` presses light the diagram from the status |
| Day10.LeastDepthIsLeast | src/bin/10.rs:102-108 | the least depth of at least 1 succeeds, and no smaller depth of at least 1 does |
| Day10.LeastDepthUnique | src/bin/10.rs:102-108 | any depth that succeeds with no smaller depth succeeding is the least depth |
| Day10.DarkDiagramCostsOne | src/bin/10.rs:102-108 | a diagram that is all off still counts one press |
| Day10.SearchDepth | src/bin/10.rs:102-108 | iterative deepening returns the least depth from 1 on that succeeds |
| Day10.Part1 | src/bin/10.rs:99-112 | the sum over the machines of the least number of presses |
| Sorting.Swap | src/bin/05.rs:54 | two elements are exchanged, and the contents stay the same multiset |
| Sorting.InsertLast | src/bin/05.rs:54 | the element moves left past every larger one, and the prefix becomes sorted with the same contents |
| Sorting.SortByKey | src/bin/05.rs:54 | the array is sorted by the key and is a permutation of the input |
| Sorting.DistinctPermutation | src/bin/08.rs:74-81 | reordering keeps a list free of repetitions |
| Sorting.DistinctCard | src/bin/08.rs:85-89 | a list without repetitions has as many elements as entries |
| Ordering.InsertAdds | src/bin/08.rs:90 | inserting adds exactly the element |
| Ordering.InsertSorted | src/bin/08.rs:90 | inserting into an ascending list keeps it ascending |
| Ordering.AscendingSorts | src/bin/08.rs:90 | the reference sort gives an ascending permutation |
| Ordering.SortedUnique | src/bin/08.rs:85-91 | two ascending permutations of each other are equal, so the map's order does not matter |
| Ordering.LastIsLargest | src/bin/08.rs:91 | the last element of an ascending list is its largest |

## Left out

- Parsing:
  - The `parse_input` functions of days 1 to 5 and 7 to 10, including the `nom` parsers of day 10,
    are left out.
  - The models take the parsed values: instructions, ranges, banks, grids of booleans or states,
    box positions, tiles, and machines with their masks.
  - Day 6's two parsers are modelled, because reading the worksheet is the puzzle.
- `main`, `include_str!` and the example files are not part of this model.
  - Consequently the tests that compare against answers for `examples/NN.txt` are not restated.
  - The tests with literal arguments are restated:
    - `l` and `r` of day 1;
    - `double`, `part1_single_range`, `test_is_invalid_part2` and `test_part2_range_sum_invalid`
      of day 2 (the last range of that test as the Findings table explains);
    - `test_largest_joltage` of day 3.
- Fixed-width integers:
  - Integers are unbounded. The overflow of `u64`, `u32`, `usize` and `i16` arithmetic is not
    modelled, so neither are the panics it raises in debug builds. This includes:
    - `10u32.pow` in 02.rs:23;
    - the sums and products of days 2, 6 and 8;
    - the `i16` dial arithmetic of day 1.
  - The models work on the mathematical values.
  - Day01.Div100 keeps Rust's truncating division for negative distances.
- Narrowing casts:
  - Day08.Playground: the `u16` casts `id as CircuitId` (08.rs:3-4, 08.rs:24) and
    `index1 as BoxId`, `index2 as BoxId` (08.rs:56-57, 08.rs:99-100) are not modelled. Box and
    circuit numbers are naturals, so the model does not show the collisions that more than 65536
    boxes would cause in the source.
  - Day08.Distance and Day09.SkewedArea: the `as i64` casts (08.rs:45-47, 09.rs:21-22) are not
    modelled. Coordinates of 2^63 or more, which wrap in the source, are taken at their value.
- Day10.Xor: a `u32` mask is modelled as the set of positions of its one bits, with XOR as
  symmetric difference.
  - Nothing excludes a light or button index of 32 or more. Day10.LightMask and Day10.ButtonMask keep
    such a position as a set element.
  - In Rust, `1 << i` for `i >= 32` panics in debug builds and shifts by `i % 32` in release builds.
    Neither is modelled.
  - Day10.LightMaskFits and Day10.ButtonMaskFits only state when a mask fits in 32 bits.
- Day10.Part1: `part1` loops forever on a machine whose diagram cannot be lit. The model requires
  every machine to be solvable, by a ghost predicate.
- Day08.ConnectOrder:
  - the stable `sort_by` on distance is modelled as an insertion sort by a key, distance first
    then generation order;
  - the key order is proved to be the stable sort's order;
  - the order of `HashMap` iteration is left open: Ordering.SortedUnique shows it cannot change the
    answer.
- Day03.LargestJoltage: every character of a bank is required to be a decimal digit.
  - The source unwraps `to_digit(10)` only on the characters it picks, so it also accepts some banks
    with other characters: `largest_joltage("9 9", 2)` is 99.
  - It panics only when it picks a non-digit. Such banks are outside the model, and so are
    Day03.Part1 and Day03.Part2 on them.
- Day08.Playground.Part2: fewer than two boxes is excluded by the requires. On such input the pair
  list is empty and the source reaches `unreachable!()` (08.rs:132).
- Day04.Part1: the grid is required to be rectangular. `accessible` bounds a neighbour's column by
  the cell's own row length, so on ragged rows it can index past a shorter neighbouring row.
- Day07.Part1: the rows are required to shrink or stay equal in length downwards, for the same kind
  of indexing. Day 7's part 2 panics are modelled as `None`.
- Day09.Part2:
  - the preconditions that keep `downgrade`'s `unwrap`, `between` and the grid indexing from
    panicking are required, not modelled as errors;
  - the grid keeps the source's dimensions: `cols_compaction.len()` rows of
    `rows_compaction.len()` cells.
- Day06:
  - strings are sequences of characters, and byte slicing is taken as character slicing, so
    non-ASCII input is outside the model;
  - `parse::<u64>`'s range limit is not modelled;
  - the preconditions of Day06.ParseInput and Day06.ParseInputPart2 exclude the inputs on which the
    source panics.
- Day02.Part1SingleRangeSumsDoubles assumes both ends are at least 1, since `ilog10(0)` panics.
- Day02.IsRepeating works on the decimal string as characters, as the byte chunks of an ASCII
  string are.

## Findings

| source | as written | input that shows it | evidently intended | confidence | as-written member | corrected member |
|---|---|---|---|---|---|---|
| src/bin/09.rs:21-22 | the `+1` is added inside `abs`: `(x1 - x2 + 1).abs() * (y1 - y2 + 1).abs()` | tiles (0,0) and (5,5): 16, while (5,5) and (0,0) gives 36 | the inclusive area `(\|x1 - x2\| + 1) * (\|y1 - y2\| + 1)`, as part 2 computes it | not executed | Day09.SkewedAreaUndercounts | Day09.Part1Inclusive |
| src/bin/02.rs:158 | `test_part2_range_sum_invalid` checks the range from 1212121218 to 2121212124 | that range also holds 1313131313, 1414141414 and more repeating identifiers, so the sum is at least 1313131313 + 2121212121 | the range from 2121212118 to 2121212124, whose only repeating identifier is 2121212121 | not executed; the intended range is inferred from the expected sum | Day02Examples.LastRangeTestAsWritten | Day02Examples.RangeSumInvalidExamples |
| src/bin/01.rs:61-63 | one more zero is added when the dial ends on 0 | the single instruction `R50` from 50: 2, but one click lands on 0 | the per-turn formula alone, which already counts the landing | not executed | Day01.Part2DoubleCounts | Day01.Part2Corrected |
