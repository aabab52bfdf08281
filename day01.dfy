/**
 * The safe dial (01.rs): a dial numbered 0 to 99 starts at 50 and turns left
 * or right by the distance of each instruction. Part 1 counts the
 * instructions after which the dial rests on 0; part 2 counts how often the
 * dial points at 0 while turning.
 */
module Day01 {

  datatype Direction = Left | Right

  /** `Instruction`: a direction and a distance, an `i16`. */
  datatype Instruction = Instruction(direction: Direction, distance: int)

  /** Rust's `/` by 100 on `i16`, which truncates toward zero. */
  function Div100(a: int): (r: int)
    ensures a >= 0 ==> 0 <= a - 100 * r < 100
    ensures a < 0 ==> -100 < a - 100 * r <= 0
  {
    if a >= 0 then a / 100 else -((-a) / 100)
  }

  /** The dial after one instruction (`rem_euclid(100)`). */
  function Turn(dial: int, ins: Instruction): (r: int)
    ensures 0 <= r < 100
  {
    match ins.direction
    case Left => (dial - ins.distance) % 100
    case Right => (dial + ins.distance) % 100
  }

  /** The dial after all of `data`, starting from 50; always on the dial. */
  function FinalDial(data: seq<Instruction>): (r: int)
    ensures 0 <= r < 100
  {
    if data == [] then 50 else Turn(FinalDial(data[..|data| - 1]), data[|data| - 1])
  }

  // ---------------------------------------------------------------------
  // Part 1 (01.rs:31-44)
  // ---------------------------------------------------------------------

  /** The number of instructions after which the dial rests on 0. */
  function Stops(data: seq<Instruction>): nat {
    if data == [] then 0
    else Stops(data[..|data| - 1]) + (if FinalDial(data) == 0 then 1 else 0)
  }

  /** `part1` counts at most one stop per instruction. */
  lemma {:induction false} StopsBounded(data: seq<Instruction>)
    ensures Stops(data) <= |data|
  {
    if data != [] {
      StopsBounded(data[..|data| - 1]);
    }
  }

  /** `part1`: turns the dial instruction by instruction, counting the stops on 0. */
  method Part1(data: seq<Instruction>) returns (result: nat)
    ensures result == Stops(data)
  {
    result := 0;
    var dial := 50;
    for i := 0 to |data|
      invariant dial == FinalDial(data[..i]) && result == Stops(data[..i])
    {
      assert data[..i + 1][..i] == data[..i];
      match data[i].direction {
        case Left => dial := (dial - data[i].distance) % 100;
        case Right => dial := (dial + data[i].distance) % 100;
      }
      if dial == 0 {
        result := result + 1;
      }
    }
    assert data[..|data|] == data;
  }

  // ---------------------------------------------------------------------
  // Part 2 (01.rs:46-65)
  // ---------------------------------------------------------------------

  /** The zeros `part2` adds for one instruction, by the formula of 01.rs:52 and 01.rs:56. */
  function Passes(dial: int, ins: Instruction): int {
    match ins.direction
    case Left => Div100((100 - dial) % 100 + ins.distance)
    case Right => Div100(dial + ins.distance)
  }

  /** The position after the `k`-th click of a turn, before wrapping. */
  function Click(dial: int, direction: Direction, k: nat): int {
    match direction
    case Left => dial - k
    case Right => dial + k
  }

  /** Click by click: how many of the first `n` clicks of a turn land on 0. */
  function ZeroClicks(dial: int, direction: Direction, n: nat): nat {
    if n == 0 then 0
    else ZeroClicks(dial, direction, n - 1) + (if Click(dial, direction, n) % 100 == 0 then 1 else 0)
  }

  /** A multiple of 100 negated is one. */
  lemma MultipleNegated(x: int)
    ensures x % 100 == 0 <==> (-x) % 100 == 0
  {
    if x % 100 == 0 {
      assert -x == 100 * (-(x / 100));
    }
    if (-x) % 100 == 0 {
      assert x == 100 * (-((-x) / 100));
    }
  }

  /** One more click adds one to the quotient exactly when it reaches a multiple of 100. */
  lemma QuotientStep(x: int)
    requires x >= 1
    ensures x / 100 == (x - 1) / 100 + (if x % 100 == 0 then 1 else 0)
  {
  }

  /** Adding a full turn does not change the remainder. */
  lemma FullTurn(x: int)
    ensures (x + 100) % 100 == x % 100
  {
  }

  /** The left-turn formula's argument differs from `n - dial` by a whole turn or not at all. */
  lemma LeftOffset(dial: int, n: int)
    requires 0 <= dial < 100
    ensures ((100 - dial) % 100 + n) % 100 == 0 <==> (dial - n) % 100 == 0
  {
    var e := (100 - dial) % 100;
    if dial == 0 {
      assert e + n == n - dial;
    } else {
      assert e + n == (n - dial) + 100;
      FullTurn(n - dial);
    }
    MultipleNegated(dial - n);
  }

  /** A left turn's formula gains one exactly when the `n`-th click lands on 0. */
  lemma LeftStep(dial: int, n: nat)
    requires 0 <= dial < 100 && n > 0
    ensures Passes(dial, Instruction(Left, n))
            == Passes(dial, Instruction(Left, n - 1)) + (if (dial - n) % 100 == 0 then 1 else 0)
  {
    var e := (100 - dial) % 100;
    QuotientStep(e + n);
    LeftOffset(dial, n);
  }

  /**
   * For a non-negative distance, the formula counts exactly the clicks that
   * land on 0, including the last one.
   */
  lemma {:induction false} PassesCountsClicks(dial: int, direction: Direction, n: nat)
    requires 0 <= dial < 100
    ensures Passes(dial, Instruction(direction, n)) == ZeroClicks(dial, direction, n)
  {
    if n > 0 {
      PassesCountsClicks(dial, direction, n - 1);
      match direction
      case Right => QuotientStep(dial + n);
      case Left => LeftStep(dial, n);
    }
  }

  /** The sum of the formula over the instructions. */
  function TotalPasses(data: seq<Instruction>): int {
    if data == [] then 0
    else TotalPasses(data[..|data| - 1]) + Passes(FinalDial(data[..|data| - 1]), data[|data| - 1])
  }

  /** Every distance is non-negative, as in the puzzle's instructions. */
  predicate Forward(data: seq<Instruction>) {
    forall k :: 0 <= k < |data| ==> data[k].distance >= 0
  }

  /** Click by click: how many clicks of all the turns land on 0. */
  function TotalClicks(data: seq<Instruction>): nat
    requires Forward(data)
  {
    if data == [] then 0
    else
      var last := data[|data| - 1];
      TotalClicks(data[..|data| - 1]) + ZeroClicks(FinalDial(data[..|data| - 1]), last.direction, last.distance)
  }

  /** With non-negative distances the summed formula counts every click that lands on 0. */
  lemma {:induction false} TotalPassesCountsClicks(data: seq<Instruction>)
    requires Forward(data)
    ensures TotalPasses(data) == TotalClicks(data)
  {
    if data != [] {
      var init, last := data[..|data| - 1], data[|data| - 1];
      TotalPassesCountsClicks(init);
      PassesCountsClicks(FinalDial(init), last.direction, last.distance);
    }
  }

  /**
   * `part2` as written: the per-instruction formula, plus one more when the
   * dial ends on 0.
   */
  method Part2(data: seq<Instruction>) returns (result: int)
    ensures result == TotalPasses(data) + (if FinalDial(data) == 0 then 1 else 0)
  {
    result := 0;
    var dial := 50;
    for i := 0 to |data|
      invariant dial == FinalDial(data[..i]) && result == TotalPasses(data[..i])
    {
      assert data[..i + 1][..i] == data[..i];
      match data[i].direction {
        case Left =>
          result := result + Div100((100 - dial) % 100 + data[i].distance);
          dial := (dial - data[i].distance) % 100;
        case Right =>
          result := result + Div100(dial + data[i].distance);
          dial := (dial + data[i].distance) % 100;
      }
    }
    assert data[..|data|] == data;
    if dial == 0 {
      result := result + 1;
    }
  }

  /**
   * A single turn `R50` from 50 lands on 0 once, but `part2` as written
   * counts it twice: the formula already counts the landing.
   */
  lemma Part2DoubleCounts()
    ensures var data := [Instruction(Right, 50)];
            TotalClicks(data) == 1 && TotalPasses(data) + (if FinalDial(data) == 0 then 1 else 0) == 2
  {
    var data := [Instruction(Right, 50)];
    assert data[..0] == [];
    assert ZeroClicks(50, Right, 50) == 1 by {
      PassesCountsClicks(50, Right, 50);
    }
  }

  /**
   * `part2` without the final adjustment: with non-negative distances it
   * counts exactly the clicks that land on 0.
   */
  method Part2Corrected(data: seq<Instruction>) returns (result: int)
    ensures result == TotalPasses(data)
    ensures Forward(data) ==> result == TotalClicks(data)
  {
    result := 0;
    var dial := 50;
    for i := 0 to |data|
      invariant dial == FinalDial(data[..i]) && result == TotalPasses(data[..i])
    {
      assert data[..i + 1][..i] == data[..i];
      match data[i].direction {
        case Left =>
          result := result + Div100((100 - dial) % 100 + data[i].distance);
          dial := (dial - data[i].distance) % 100;
        case Right =>
          result := result + Div100(dial + data[i].distance);
          dial := (dial + data[i].distance) % 100;
      }
    }
    assert data[..|data|] == data;
    if Forward(data) {
      TotalPassesCountsClicks(data);
    }
  }

  /** The values the test helpers `l` and `r` (copies of the two formulas) are checked against. */
  lemma HelperValues()
    ensures Passes(0, Instruction(Left, 1)) == 0 && Passes(0, Instruction(Left, 99)) == 0
    ensures Passes(0, Instruction(Left, 100)) == 1
    ensures Passes(10, Instruction(Left, 9)) == 0 && Passes(10, Instruction(Left, 10)) == 1
    ensures Passes(10, Instruction(Left, 11)) == 1
    ensures Passes(10, Instruction(Left, 109)) == 1 && Passes(10, Instruction(Left, 110)) == 2
    ensures Passes(10, Instruction(Left, 111)) == 2
    ensures Passes(10, Instruction(Right, 89)) == 0 && Passes(10, Instruction(Right, 90)) == 1
    ensures Passes(10, Instruction(Right, 91)) == 1
    ensures Passes(10, Instruction(Right, 189)) == 1 && Passes(10, Instruction(Right, 190)) == 2
    ensures Passes(10, Instruction(Right, 191)) == 2
    ensures Passes(0, Instruction(Right, 1)) == 0 && Passes(0, Instruction(Right, 99)) == 0
    ensures Passes(0, Instruction(Right, 100)) == 1
  {
  }
}
