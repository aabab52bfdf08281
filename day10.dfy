/**
 * Machines with indicator lights (10.rs): a machine shows a light diagram
 * and has buttons, each toggling a set of lights. Both are `u32` bitmasks;
 * pressing a button XORs its mask into the lights. Part 1 searches, by
 * iterative deepening, for the fewest presses that light the diagram from
 * all lights off.
 *
 * A `u32` bitmask is modelled by the set of positions of its one bits:
 * OR is union and XOR is symmetric difference.
 */
module Day10 {

  /** The positions of the one bits of a `u32`. */
  type Mask = set<nat>

  /** The mask of a `u32` with its one bits below 32. */
  predicate Fits(m: Mask) {
    forall i :: i in m ==> i < 32
  }

  /** `^` on `u32`: the bits set in exactly one operand. */
  function Xor(a: Mask, b: Mask): (r: Mask)
    ensures forall i :: i in r <==> (i in a <==> i !in b)
  {
    (a - b) + (b - a)
  }

  /** XOR with the same mask twice changes nothing. */
  lemma XorTwice(a: Mask, b: Mask)
    ensures Xor(Xor(a, b), b) == a
  {
  }

  datatype Light = On | Off

  /** `Machine`: the target diagram and the button masks. */
  datatype Machine = Machine(lightDiagram: Mask, buttons: seq<Mask>)

  // ---------------------------------------------------------------------
  // The bitmask folds (10.rs:30-36 and 10.rs:44-46)
  // ---------------------------------------------------------------------

  /** `parse_light_diagram`'s fold: light `i` that is `On` sets bit `i`. */
  function LightMask(lights: seq<Light>): Mask {
    if lights == [] then {}
    else
      var n := |lights| - 1;
      match lights[n]
      case On => LightMask(lights[..n]) + {n}
      case Off => LightMask(lights[..n])
  }

  /** Bit `i` of the diagram is set exactly when light `i` exists and is on. */
  lemma {:induction false} LightMaskBits(lights: seq<Light>, i: nat)
    ensures i in LightMask(lights) <==> i < |lights| && lights[i] == On
  {
    if lights != [] {
      var n := |lights| - 1;
      LightMaskBits(lights[..n], i);
    }
  }

  /** A diagram of at most 32 lights fits in a `u32`. */
  lemma LightMaskFits(lights: seq<Light>)
    requires |lights| <= 32
    ensures Fits(LightMask(lights))
  {
    forall i | i in LightMask(lights) ensures i < 32 {
      LightMaskBits(lights, i);
    }
  }

  /** `parse_button`'s fold: the OR of `1 << index` over the listed indexes. */
  function ButtonMask(indexes: seq<nat>): Mask {
    if indexes == [] then {}
    else ButtonMask(indexes[..|indexes| - 1]) + {indexes[|indexes| - 1]}
  }

  /** Bit `i` of a button is set exactly when `i` is one of its indexes. */
  lemma {:induction false} ButtonMaskBits(indexes: seq<nat>, i: nat)
    ensures i in ButtonMask(indexes) <==> i in indexes
  {
    if indexes != [] {
      var n := |indexes| - 1;
      ButtonMaskBits(indexes[..n], i);
      assert indexes == indexes[..n] + [indexes[n]];
    }
  }

  /** The order and repetition of a button's indexes do not matter. */
  lemma ButtonMaskBySet(xs: seq<nat>, ys: seq<nat>)
    requires forall x :: x in xs <==> x in ys
    ensures ButtonMask(xs) == ButtonMask(ys)
  {
    forall i | i in ButtonMask(xs) || i in ButtonMask(ys)
      ensures i in ButtonMask(xs) <==> i in ButtonMask(ys)
    {
      ButtonMaskBits(xs, i);
      ButtonMaskBits(ys, i);
    }
  }

  /** Indexes below 32 give a button that fits in a `u32`. */
  lemma ButtonMaskFits(indexes: seq<nat>)
    requires forall k :: 0 <= k < |indexes| ==> indexes[k] < 32
    ensures Fits(ButtonMask(indexes))
  {
    forall i | i in ButtonMask(indexes) ensures i < 32 {
      ButtonMaskBits(indexes, i);
    }
  }

  // ---------------------------------------------------------------------
  // The search (10.rs:80-97)
  // ---------------------------------------------------------------------

  /** The status after pressing `presses` in order, from `status`. */
  function Press(status: Mask, presses: seq<Mask>): Mask
    decreases |presses|
  {
    if presses == [] then status else Press(Xor(status, presses[0]), presses[1..])
  }

  /** Some sequence of at most `depth` presses of the machine's buttons lights the diagram. */
  ghost predicate ReachableWithin(m: Machine, status: Mask, depth: nat) {
    exists presses: seq<Mask> ::
      |presses| <= depth && (forall k :: 0 <= k < |presses| ==> presses[k] in m.buttons)
      && Press(status, presses) == m.lightDiagram
  }

  /** A press sequence that works from `Xor(status, b)` works from `status` after pressing `b` first. */
  lemma PressFirst(m: Machine, status: Mask, b: Mask, depth: nat)
    requires b in m.buttons && ReachableWithin(m, Xor(status, b), depth)
    ensures ReachableWithin(m, status, depth + 1)
  {
    var presses: seq<Mask> :| |presses| <= depth && (forall k :: 0 <= k < |presses| ==> presses[k] in m.buttons)
                              && Press(Xor(status, b), presses) == m.lightDiagram;
    var longer := [b] + presses;
    assert longer[1..] == presses;
    assert forall k :: 0 <= k < |longer| ==> longer[k] in m.buttons by {
      forall k | 0 <= k < |longer| ensures longer[k] in m.buttons {
        if k > 0 {
          assert longer[k] == presses[k - 1];
        }
      }
    }
    assert Press(status, longer) == m.lightDiagram;
  }

  /** A successful sequence from a status off the diagram starts with some button. */
  lemma FirstPress(m: Machine, status: Mask, depth: nat) returns (b: Mask)
    requires ReachableWithin(m, status, depth) && status != m.lightDiagram
    ensures depth > 0 && b in m.buttons && ReachableWithin(m, Xor(status, b), depth - 1)
  {
    var presses: seq<Mask> :| |presses| <= depth && (forall k :: 0 <= k < |presses| ==> presses[k] in m.buttons)
                              && Press(status, presses) == m.lightDiagram;
    b := presses[0];
    var rest := presses[1..];
    assert forall k :: 0 <= k < |rest| ==> rest[k] in m.buttons by {
      forall k | 0 <= k < |rest| ensures rest[k] in m.buttons {
        assert rest[k] == presses[k + 1];
      }
    }
    assert Press(Xor(status, b), rest) == m.lightDiagram;
  }

  /** The diagram itself needs no press. */
  lemma AlreadyLit(m: Machine, status: Mask, depth: nat)
    requires status == m.lightDiagram
    ensures ReachableWithin(m, status, depth)
  {
    var none: seq<Mask> := [];
    assert Press(status, none) == m.lightDiagram;
  }

  /** Success at one depth is success at every larger depth. */
  lemma Monotone(m: Machine, status: Mask, depth: nat, deeper: nat)
    requires depth <= deeper && ReachableWithin(m, status, depth)
    ensures ReachableWithin(m, status, deeper)
  {
  }

  /** With no presses left, only the diagram itself is reached. */
  lemma DepthZero(m: Machine, status: Mask)
    ensures ReachableWithin(m, status, 0) <==> status == m.lightDiagram
  {
    if status == m.lightDiagram {
      AlreadyLit(m, status, 0);
    } else if ReachableWithin(m, status, 0) {
      var b := FirstPress(m, status, 0);
    }
  }

  /**
   * `part1_recursive`: true exactly when at most `depth` presses light the
   * diagram from `status`; it tries the buttons in order and stops at the
   * first that leads to success.
   */
  method Part1Recursive(m: Machine, status: Mask, depth: nat) returns (found: bool)
    ensures found <==> ReachableWithin(m, status, depth)
    decreases depth
  {
    if status == m.lightDiagram {
      AlreadyLit(m, status, depth);
      return true;
    }
    if depth == 0 {
      DepthZero(m, status);
      return false;
    }
    for i := 0 to |m.buttons|
      invariant forall j :: 0 <= j < i ==> !ReachableWithin(m, Xor(status, m.buttons[j]), depth - 1)
    {
      var button := m.buttons[i];
      var next := Xor(status, button);
      found := Part1Recursive(m, next, depth - 1);
      if found {
        PressFirst(m, status, button, depth - 1);
        return true;
      }
    }
    if ReachableWithin(m, status, depth) {
      var b := FirstPress(m, status, depth);
      assert false;
    }
    return false;
  }

  /** The diagram can be lit at all. */
  ghost predicate Solvable(m: Machine) {
    exists depth: nat :: ReachableWithin(m, {}, depth)
  }

  /** The first depth from `d` on that succeeds, below the known-good `bound`. */
  ghost function FirstFrom(m: Machine, d: nat, bound: nat): (r: nat)
    requires 1 <= d <= bound && ReachableWithin(m, {}, bound)
    ensures d <= r <= bound && ReachableWithin(m, {}, r)
    ensures forall e :: d <= e < r ==> !ReachableWithin(m, {}, e)
    decreases bound - d
  {
    if ReachableWithin(m, {}, d) then d else FirstFrom(m, d + 1, bound)
  }

  /** The least depth of at least 1 that succeeds: what `part1` adds for the machine. */
  ghost function LeastDepth(m: Machine): nat
    requires Solvable(m)
  {
    var depth: nat :| ReachableWithin(m, {}, depth);
    Monotone(m, {}, depth, depth + 1);
    FirstFrom(m, 1, depth + 1)
  }

  /** `LeastDepth` succeeds, and no smaller depth of at least 1 does. */
  lemma LeastDepthIsLeast(m: Machine)
    requires Solvable(m)
    ensures LeastDepth(m) >= 1 && ReachableWithin(m, {}, LeastDepth(m))
    ensures forall d :: 1 <= d < LeastDepth(m) ==> !ReachableWithin(m, {}, d)
  {
  }

  /** Any depth with those two properties is `LeastDepth`. */
  lemma LeastDepthUnique(m: Machine, r: nat)
    requires Solvable(m) && r >= 1 && ReachableWithin(m, {}, r)
    requires forall d :: 1 <= d < r ==> !ReachableWithin(m, {}, d)
    ensures r == LeastDepth(m)
  {
    LeastDepthIsLeast(m);
  }

  /** A machine whose diagram is all off still counts one press. */
  lemma DarkDiagramCostsOne(m: Machine)
    requires m.lightDiagram == {}
    ensures Solvable(m) && LeastDepth(m) == 1
  {
    AlreadyLit(m, {}, 1);
    LeastDepthUnique(m, 1);
  }

  /** The iterative deepening of 10.rs:102-108: the least depth from 1 on that succeeds. */
  method SearchDepth(m: Machine) returns (depth: nat)
    requires Solvable(m)
    ensures depth == LeastDepth(m)
  {
    ghost var known: nat :| ReachableWithin(m, {}, known);
    ghost var bound := known + 1;
    Monotone(m, {}, known, bound);
    depth := 1;
    while true
      invariant 1 <= depth <= bound
      invariant forall d :: 1 <= d < depth ==> !ReachableWithin(m, {}, d)
      decreases bound - depth
    {
      var found := Part1Recursive(m, {}, depth);
      if found {
        break;
      }
      depth := depth + 1;
    }
    LeastDepthUnique(m, depth);
  }

  /** The sum of the least depths of the machines. */
  ghost function TotalDepth(data: seq<Machine>): nat
    requires forall i :: 0 <= i < |data| ==> Solvable(data[i])
  {
    if data == [] then 0 else TotalDepth(data[..|data| - 1]) + LeastDepth(data[|data| - 1])
  }

  /** `part1`: adds up the least number of presses per machine. */
  method Part1(data: seq<Machine>) returns (result: nat)
    requires forall i :: 0 <= i < |data| ==> Solvable(data[i])
    ensures result == TotalDepth(data)
  {
    result := 0;
    for i := 0 to |data|
      invariant result == TotalDepth(data[..i])
    {
      assert data[..i + 1][..i] == data[..i];
      var depth := SearchDepth(data[i]);
      result := result + depth;
    }
    assert data[..|data|] == data;
  }
}
