/**
 * Day 8: junction boxes in a playground. Boxes are joined into circuits by
 * connecting pairs of boxes in order of increasing squared distance. A
 * `Playground` keeps, per box, the id of its circuit and, per circuit id,
 * the list of its boxes; connecting two boxes of different circuits moves
 * every box of the second circuit into the first.
 */
module Day08 {
  import opened Sorting
  import opened Ordering

  /** A box position `(x, y, z)`. */
  datatype Position = Position(x: nat, y: nat, z: nat)

  /** `|a - b|` on unsigned coordinates. */
  function Gap(a: nat, b: nat): nat {
    if a < b then b - a else a - b
  }

  /** `calculate_distance`: the squared Euclidean distance. */
  function Distance(p: Position, q: Position): (d: nat)
    ensures d == 0 <==> p == q
  {
    var dx, dy, dz := Gap(p.x, q.x), Gap(p.y, q.y), Gap(p.z, q.z);
    assert dx * dx == 0 <==> dx == 0;
    assert dy * dy == 0 <==> dy == 0;
    assert dz * dz == 0 <==> dz == 0;
    dx * dx + dy * dy + dz * dz
  }

  /** The distance does not depend on which box comes first. */
  lemma DistanceSymmetric(p: Position, q: Position)
    ensures Distance(p, q) == Distance(q, p)
  {
    assert Gap(p.x, q.x) == Gap(q.x, p.x);
    assert Gap(p.y, q.y) == Gap(q.y, p.y);
    assert Gap(p.z, q.z) == Gap(q.z, p.z);
  }

  // ---------------------------------------------------------------------
  // The list of pairs (08.rs:52-63)
  // ---------------------------------------------------------------------

  /** A candidate connection `(box_id1, box_id2, distance)`. */
  datatype Pair = Pair(i: nat, j: nat, dist: nat)

  /** The pair of boxes `i` and `j` with their distance. */
  function PairOf(ps: seq<Position>, i: nat, j: nat): Pair
    requires i < |ps| && j < |ps|
  {
    Pair(i, j, Distance(ps[i], ps[j]))
  }

  /** `p` is generated before `q`: by first box, then by second. */
  predicate Earlier(p: Pair, q: Pair) {
    p.i < q.i || (p.i == q.i && p.j < q.j)
  }

  /** `p` is connected before `q`: by distance, ties in generation order. */
  predicate Closer(p: Pair, q: Pair) {
    p.dist < q.dist || (p.dist == q.dist && Earlier(p, q))
  }

  /** Every entry of `pairs` is a pair `i < j` of boxes with its distance, and every such pair is listed. */
  ghost predicate ListsAllPairs(ps: seq<Position>, pairs: seq<Pair>) {
    && (forall k :: 0 <= k < |pairs| ==> pairs[k].i < pairs[k].j < |ps| && pairs[k] == PairOf(ps, pairs[k].i, pairs[k].j))
    && (forall i, j :: 0 <= i < j < |ps| ==> PairOf(ps, i, j) in pairs)
  }

  /** `pairs` lists every pair once, in the order both parts connect them. */
  ghost predicate InConnectOrder(ps: seq<Position>, pairs: seq<Pair>) {
    ListsAllPairs(ps, pairs) && forall k, l :: 0 <= k < l < |pairs| ==> Closer(pairs[k], pairs[l])
  }

  /** The number of pairs `(a, b)` with `a < i` and `a < b < n`. */
  function PairsBefore(n: nat, i: nat): nat
    requires i <= n
  {
    if i == 0 then 0 else PairsBefore(n, i - 1) + (n - i)
  }

  /** All rows together hold `n (n - 1) / 2` pairs. */
  lemma {:induction false} PairsBeforeAll(n: nat, i: nat)
    requires i <= n
    ensures 2 * PairsBefore(n, i) == i * (2 * n - i - 1)
    decreases i
  {
    if i > 0 {
      PairsBeforeAll(n, i - 1);
      calc {
        2 * PairsBefore(n, i);
        2 * PairsBefore(n, i - 1) + 2 * (n - i);
        (i - 1) * (2 * n - i) + 2 * (n - i);
        i * (2 * n - i - 1);
      }
    }
  }

  /** The pair loops of both parts: every pair `index1 < index2` with its distance, in generation order. */
  method Pairs(ps: seq<Position>) returns (pairs: seq<Pair>)
    ensures ListsAllPairs(ps, pairs)
    ensures forall k, l :: 0 <= k < l < |pairs| ==> Earlier(pairs[k], pairs[l])
    ensures 2 * |pairs| == |ps| * (|ps| - 1)
  {
    var n := |ps|;
    pairs := [];
    for index1 := 0 to n
      invariant forall k :: 0 <= k < |pairs| ==> pairs[k].i < index1 && pairs[k].i < pairs[k].j < n && pairs[k] == PairOf(ps, pairs[k].i, pairs[k].j)
      invariant forall i, j :: 0 <= i < index1 && i < j < n ==> PairOf(ps, i, j) in pairs
      invariant forall k, l :: 0 <= k < l < |pairs| ==> Earlier(pairs[k], pairs[l])
      invariant |pairs| == PairsBefore(n, index1)
    {
      pairs := PairsFrom(ps, index1, pairs);
    }
    PairsBeforeAll(n, n);
  }

  /** The inner loop: appends the pairs `(index1, index2)` for every later box. */
  method PairsFrom(ps: seq<Position>, index1: nat, pairs: seq<Pair>) returns (pairs': seq<Pair>)
    requires index1 < |ps|
    requires forall k :: 0 <= k < |pairs| ==> pairs[k].i < index1 && pairs[k].i < pairs[k].j < |ps| && pairs[k] == PairOf(ps, pairs[k].i, pairs[k].j)
    requires forall k, l :: 0 <= k < l < |pairs| ==> Earlier(pairs[k], pairs[l])
    ensures forall k :: 0 <= k < |pairs'| ==> pairs'[k].i <= index1 && pairs'[k].i < pairs'[k].j < |ps| && pairs'[k] == PairOf(ps, pairs'[k].i, pairs'[k].j)
    ensures forall k, l :: 0 <= k < l < |pairs'| ==> Earlier(pairs'[k], pairs'[l])
    ensures forall j :: index1 < j < |ps| ==> PairOf(ps, index1, j) in pairs'
    ensures forall p :: p in pairs ==> p in pairs'
    ensures |pairs'| == |pairs| + (|ps| - index1 - 1)
  {
    pairs' := pairs;
    for index2 := index1 + 1 to |ps|
      invariant forall k :: 0 <= k < |pairs'| ==> (pairs'[k].i < index1 || (pairs'[k].i == index1 && pairs'[k].j < index2)) && pairs'[k].i < pairs'[k].j < |ps| && pairs'[k] == PairOf(ps, pairs'[k].i, pairs'[k].j)
      invariant forall k, l :: 0 <= k < l < |pairs'| ==> Earlier(pairs'[k], pairs'[l])
      invariant forall j :: index1 < j < index2 ==> PairOf(ps, index1, j) in pairs'
      invariant forall p :: p in pairs ==> p in pairs'
      invariant |pairs'| == |pairs| + (index2 - index1 - 1)
    {
      pairs' := pairs' + [PairOf(ps, index1, index2)];
    }
  }

  // ---------------------------------------------------------------------
  // Sorting the pairs (08.rs:63)
  // ---------------------------------------------------------------------

  /**
   * The sort key. The source sorts by distance with a stable sort, so pairs at
   * equal distance keep their generation order; with both boxes below `n` this
   * key orders by distance, then first box, then second box.
   */
  function Rank(n: nat, p: Pair): int {
    (p.dist * n + p.i) * n + p.j
  }

  /** Two-digit numbers in base `n` compare by their digits. */
  lemma Digits(n: nat, a: nat, b: nat, c: nat, d: nat)
    requires b < n && d < n
    ensures a * n + b < c * n + d <==> a < c || (a == c && b < d)
    ensures a * n + b == c * n + d <==> a == c && b == d
  {
    if a < c {
      Below(n, a, b, c, d);
    } else if c < a {
      Below(n, c, d, a, b);
    }
  }

  /** A smaller high digit gives a smaller number. */
  lemma Below(n: nat, a: nat, b: nat, c: nat, d: nat)
    requires b < n && a < c
    ensures a * n + b < c * n + d
  {
    var k := c - a - 1;
    Distribute(a + 1, k, n);
    Distribute(a, 1, n);
    assert k * n >= 0;
  }

  /** Multiplication distributes over addition. */
  lemma Distribute(x: nat, y: nat, n: nat)
    ensures (x + y) * n == x * n + y * n
  {
  }

  /** The key orders pairs of boxes below `n` exactly as they are connected, and tells them apart. */
  lemma RankOrder(n: nat, p: Pair, q: Pair)
    requires p.i < n && p.j < n && q.i < n && q.j < n
    ensures Rank(n, p) < Rank(n, q) <==> Closer(p, q)
    ensures Rank(n, p) == Rank(n, q) <==> p == q
  {
    Digits(n, p.dist, p.i, q.dist, q.i);
    Digits(n, p.dist * n + p.i, p.j, q.dist * n + q.i, q.j);
  }

  /** Sorting the generated pairs by the key puts them in connection order. */
  lemma SortedIsConnectOrder(ps: seq<Position>, pairs: seq<Pair>, order: seq<Pair>)
    requires ListsAllPairs(ps, pairs)
    requires forall k, l :: 0 <= k < l < |pairs| ==> Earlier(pairs[k], pairs[l])
    requires multiset(order) == multiset(pairs)
    requires SortedBy(order, p => Rank(|ps|, p))
    ensures InConnectOrder(ps, order)
  {
    forall k | 0 <= k < |order|
      ensures order[k].i < order[k].j < |ps| && order[k] == PairOf(ps, order[k].i, order[k].j)
    {
      assert order[k] in multiset(pairs);
    }
    forall i, j | 0 <= i < j < |ps|
      ensures PairOf(ps, i, j) in order
    {
      assert PairOf(ps, i, j) in multiset(order);
    }
    DistinctPermutation(pairs, order);
    forall k, l | 0 <= k < l < |order|
      ensures Closer(order[k], order[l])
    {
      RankOrder(|ps|, order[k], order[l]);
    }
  }

  /** Both parts' pair list, sorted by distance. */
  method ConnectOrder(ps: seq<Position>) returns (order: seq<Pair>)
    ensures InConnectOrder(ps, order)
  {
    var pairs := Pairs(ps);
    var n := |ps|;
    var a := new Pair[|pairs|](k requires 0 <= k < |pairs| => pairs[k]);
    assert a[..] == pairs;
    SortByKey(a, p => Rank(n, p));
    order := a[..];
    SortedIsConnectOrder(ps, pairs, order);
  }

  // ---------------------------------------------------------------------
  // Circuits as a partition of the boxes (08.rs:7-17, 36-39, 65-83)
  // ---------------------------------------------------------------------

  /**
   * The circuit bookkeeping is consistent: each circuit id names a list of
   * distinct boxes that contains the box with that id; every box in the list
   * carries that circuit id; and every box is in the list of its circuit id.
   */
  ghost predicate Partitioned(circuitOf: seq<nat>, circuits: map<nat, seq<nat>>) {
    && (forall k :: k in circuits ==> Distinct(circuits[k]) && k in circuits[k] && Labelled(circuitOf, circuits[k], k))
    && (forall b :: 0 <= b < |circuitOf| ==> circuitOf[b] in circuits && b in circuits[circuitOf[b]])
  }

  /** Every box of `list` has circuit id `k`. */
  ghost predicate Labelled(circuitOf: seq<nat>, list: seq<nat>, k: nat) {
    forall b :: b in list ==> b < |circuitOf| && circuitOf[b] == k
  }

  /** Initially every box is its own circuit, named by the box's index (08.rs:22-39). */
  function Identity(n: nat): seq<nat> {
    seq(n, b => b)
  }

  /** One singleton circuit per box. */
  function Singletons(n: nat): map<nat, seq<nat>> {
    map b | 0 <= b < n :: [b]
  }

  /** The initial singleton circuits partition the boxes, one circuit per box. */
  lemma SingletonsPartitioned(n: nat)
    ensures Partitioned(Identity(n), Singletons(n))
    ensures |Singletons(n).Keys| == n
  {
    var circuitOf, circuits := Identity(n), Singletons(n);
    forall k | k in circuits
      ensures Distinct(circuits[k]) && k in circuits[k] && Labelled(circuitOf, circuits[k], k)
    {
      assert circuits[k] == [k] && circuitOf[k] == k;
    }
    forall b | 0 <= b < n
      ensures circuitOf[b] in circuits && b in circuits[circuitOf[b]]
    {
      assert circuitOf[b] == b && circuits[b] == [b];
    }
    assert circuits.Keys == Boxes(n);
    BoxesCard(n);
  }

  /** Every box whose circuit id was `from` now has `to`. */
  function Relabel(circuitOf: seq<nat>, from: nat, to: nat): (r: seq<nat>)
    ensures |r| == |circuitOf|
  {
    seq(|circuitOf|, b requires 0 <= b < |circuitOf| => if circuitOf[b] == from then to else circuitOf[b])
  }

  /** Moving exactly the boxes of circuit `from` to `to` is the relabelling of `from` as `to`. */
  lemma MovedIsRelabel(before: seq<nat>, circuits: map<nat, seq<nat>>, after: seq<nat>, from: nat, to: nat)
    requires Partitioned(before, circuits) && from in circuits && |after| == |before|
    requires forall b :: 0 <= b < |after| ==> after[b] == if b in circuits[from] then to else before[b]
    ensures after == Relabel(before, from, to)
  {
    forall b | 0 <= b < |before|
      ensures after[b] == Relabel(before, from, to)[b]
    {
      assert before[b] == from ==> b in circuits[before[b]];
      assert b in circuits[from] ==> before[b] == from by {
        assert Labelled(before, circuits[from], from);
      }
    }
  }

  /** The `from` list is removed and appended to the `to` list. */
  function Merge(circuits: map<nat, seq<nat>>, from: nat, to: nat): map<nat, seq<nat>>
    requires from in circuits && to in circuits
  {
    (circuits - {from})[to := circuits[to] + circuits[from]]
  }

  /** Merging two different circuits keeps a partition and leaves one circuit fewer. */
  lemma MergePartitioned(circuitOf: seq<nat>, circuits: map<nat, seq<nat>>, from: nat, to: nat)
    requires Partitioned(circuitOf, circuits) && from in circuits && to in circuits && from != to
    ensures Partitioned(Relabel(circuitOf, from, to), Merge(circuits, from, to))
    ensures |Merge(circuits, from, to).Keys| == |circuits.Keys| - 1
  {
    var relabelled, merged := Relabel(circuitOf, from, to), Merge(circuits, from, to);
    MergedList(circuitOf, circuits, from, to);
    forall k, x | k in merged && x in merged[k]
      ensures x < |relabelled| && relabelled[x] == k
    {
      if k == to {
        assert merged[k] == circuits[to] + circuits[from];
      } else {
        assert k in circuits && x in circuits[k];
        assert circuitOf[x] == k && k != from;
        assert relabelled[x] == circuitOf[x];
      }
    }
    forall k | k in merged
      ensures Distinct(merged[k]) && k in merged[k]
    {
      if k == to {
        assert to in circuits[to];
      }
    }
    forall x | 0 <= x < |relabelled|
      ensures relabelled[x] in merged && x in merged[relabelled[x]]
    {
      var k := circuitOf[x];
      assert x in circuits[k];
      if k == from || k == to {
        assert relabelled[x] == to && x in circuits[to] + circuits[from];
      } else {
        assert relabelled[x] == k && merged[k] == circuits[k];
      }
    }
    assert merged.Keys == circuits.Keys - {from};
  }

  /** The merged list has no repetitions, and all its boxes get the circuit id `to`. */
  lemma MergedList(circuitOf: seq<nat>, circuits: map<nat, seq<nat>>, from: nat, to: nat)
    requires Partitioned(circuitOf, circuits) && from in circuits && to in circuits && from != to
    ensures Distinct(circuits[to] + circuits[from])
    ensures forall x :: x in circuits[to] + circuits[from] ==> x < |circuitOf| && Relabel(circuitOf, from, to)[x] == to
  {
    var left, right := circuits[to], circuits[from];
    var joined := left + right;
    assert Distinct(left) && Distinct(right);
    forall x | x in joined
      ensures x < |circuitOf| && Relabel(circuitOf, from, to)[x] == to
    {
      if x in left {
        assert circuitOf[x] == to;
      } else {
        assert x in right && circuitOf[x] == from;
      }
    }
    forall k, l | 0 <= k < l < |joined|
      ensures joined[k] != joined[l]
    {
      if l < |left| {
        assert joined[k] == left[k] && joined[l] == left[l];
      } else if |left| <= k {
        assert joined[k] == right[k - |left|] && joined[l] == right[l - |left|];
      } else {
        assert joined[k] == left[k] && joined[l] == right[l - |left|];
        Apart(circuitOf, circuits, to, from, joined[k], joined[l]);
      }
    }
  }

  /** Boxes of two different circuits are different boxes. */
  lemma Apart(circuitOf: seq<nat>, circuits: map<nat, seq<nat>>, k1: nat, k2: nat, x: nat, y: nat)
    requires Partitioned(circuitOf, circuits) && k1 in circuits && k2 in circuits && k1 != k2
    requires x in circuits[k1] && y in circuits[k2]
    ensures x != y
  {
    assert circuitOf[x] == k1 && circuitOf[y] == k2;
  }

  /** Boxes `a` and `b` are joined directly by one of the connections. */
  ghost predicate Wire(edges: seq<Pair>, a: nat, b: nat) {
    exists e :: e in edges && ((e.i == a && e.j == b) || (e.i == b && e.j == a))
  }

  /** `w` is a walk along the connections. */
  ghost predicate Walk(edges: seq<Pair>, w: seq<nat>) {
    |w| > 0 && forall k :: 0 <= k < |w| - 1 ==> Wire(edges, w[k], w[k + 1])
  }

  /** Boxes `a` and `b` are joined by a chain of connections. */
  ghost predicate Linked(edges: seq<Pair>, a: nat, b: nat) {
    exists w :: Walk(edges, w) && w[0] == a && w[|w| - 1] == b
  }

  /** A box is linked to itself. */
  lemma LinkedSelf(edges: seq<Pair>, a: nat)
    ensures Linked(edges, a, a)
  {
    assert Walk(edges, [a]);
  }

  /** One more connection extends a chain. */
  lemma LinkedWire(edges: seq<Pair>, a: nat, b: nat, c: nat)
    requires Linked(edges, a, b) && Wire(edges, b, c)
    ensures Linked(edges, a, c)
  {
    var w :| Walk(edges, w) && w[0] == a && w[|w| - 1] == b;
    var w' := w + [c];
    forall k | 0 <= k < |w'| - 1
      ensures Wire(edges, w'[k], w'[k + 1])
    {
      if k < |w| - 1 {
        assert w'[k] == w[k] && w'[k + 1] == w[k + 1];
      }
    }
    assert Walk(edges, w');
  }

  /** Chains can be followed backwards. */
  lemma LinkedSymmetric(edges: seq<Pair>, a: nat, b: nat)
    requires Linked(edges, a, b)
    ensures Linked(edges, b, a)
  {
    var w :| Walk(edges, w) && w[0] == a && w[|w| - 1] == b;
    var r := seq(|w|, k requires 0 <= k < |w| => w[|w| - 1 - k]);
    forall k | 0 <= k < |r| - 1
      ensures Wire(edges, r[k], r[k + 1])
    {
      var m := |w| - 2 - k;
      assert Wire(edges, w[m], w[m + 1]);
      var e :| e in edges && ((e.i == w[m] && e.j == w[m + 1]) || (e.i == w[m + 1] && e.j == w[m]));
    }
    assert Walk(edges, r);
  }

  /** Two chains meeting at `b` make one. */
  lemma LinkedTransitive(edges: seq<Pair>, a: nat, b: nat, c: nat)
    requires Linked(edges, a, b) && Linked(edges, b, c)
    ensures Linked(edges, a, c)
  {
    var w1 :| Walk(edges, w1) && w1[0] == a && w1[|w1| - 1] == b;
    var w2 :| Walk(edges, w2) && w2[0] == b && w2[|w2| - 1] == c;
    var w := w1 + w2[1..];
    forall k | 0 <= k < |w| - 1
      ensures Wire(edges, w[k], w[k + 1])
    {
      if k < |w1| - 1 {
        assert w[k] == w1[k] && w[k + 1] == w1[k + 1];
      } else {
        var m := k - (|w1| - 1);
        assert w[k] == w2[m] && w[k + 1] == w2[m + 1];
      }
    }
    assert Walk(edges, w);
  }

  /** Chains survive further connections. */
  lemma LinkedGrows(edges: seq<Pair>, p: Pair, a: nat, b: nat)
    requires Linked(edges, a, b)
    ensures Linked(edges + [p], a, b)
  {
    var w :| Walk(edges, w) && w[0] == a && w[|w| - 1] == b;
    forall k | 0 <= k < |w| - 1
      ensures Wire(edges + [p], w[k], w[k + 1])
    {
      assert Wire(edges, w[k], w[k + 1]);
      var e :| e in edges && ((e.i == w[k] && e.j == w[k + 1]) || (e.i == w[k + 1] && e.j == w[k]));
      assert e in edges + [p];
    }
    assert Walk(edges + [p], w);
  }

  /**
   * The circuit ids describe the connections made so far: both boxes of a
   * connection share a circuit, and boxes sharing a circuit are linked.
   */
  ghost predicate Tracks(circuitOf: seq<nat>, edges: seq<Pair>) {
    && (forall e :: e in edges ==> e.i < |circuitOf| && e.j < |circuitOf| && circuitOf[e.i] == circuitOf[e.j])
    && (forall a, b :: 0 <= a < |circuitOf| && 0 <= b < |circuitOf| && circuitOf[a] == circuitOf[b] ==> Linked(edges, a, b))
  }

  /** A walk never leaves the circuit it starts in. */
  lemma WalkInside(circuitOf: seq<nat>, edges: seq<Pair>, w: seq<nat>)
    requires Tracks(circuitOf, edges) && Walk(edges, w) && w[0] < |circuitOf|
    ensures w[|w| - 1] < |circuitOf| && circuitOf[w[|w| - 1]] == circuitOf[w[0]]
  {
    for k := 0 to |w| - 1
      invariant w[k] < |circuitOf| && circuitOf[w[k]] == circuitOf[w[0]]
    {
      assert Wire(edges, w[k], w[k + 1]);
    }
  }

  /** Two boxes share a circuit exactly when a chain of connections joins them. */
  lemma SameCircuitIffLinked(circuitOf: seq<nat>, edges: seq<Pair>, a: nat, b: nat)
    requires Tracks(circuitOf, edges) && a < |circuitOf| && b < |circuitOf|
    ensures circuitOf[a] == circuitOf[b] <==> Linked(edges, a, b)
  {
    if Linked(edges, a, b) {
      var w :| Walk(edges, w) && w[0] == a && w[|w| - 1] == b;
      WalkInside(circuitOf, edges, w);
    }
  }

  /** A connection inside one circuit changes nothing, and the ids still describe the connections. */
  lemma TracksSame(circuitOf: seq<nat>, edges: seq<Pair>, p: Pair)
    requires Tracks(circuitOf, edges) && p.i < |circuitOf| && p.j < |circuitOf| && circuitOf[p.i] == circuitOf[p.j]
    ensures Tracks(circuitOf, edges + [p])
  {
    forall a, b | 0 <= a < |circuitOf| && 0 <= b < |circuitOf| && circuitOf[a] == circuitOf[b]
      ensures Linked(edges + [p], a, b)
    {
      LinkedGrows(edges, p, a, b);
    }
  }

  /** After merging the circuit of `p.j` into that of `p.i`, the ids describe the connections including `p`. */
  lemma TracksMerge(circuitOf: seq<nat>, edges: seq<Pair>, p: Pair)
    requires Tracks(circuitOf, edges) && p.i < |circuitOf| && p.j < |circuitOf| && circuitOf[p.i] != circuitOf[p.j]
    ensures Tracks(Relabel(circuitOf, circuitOf[p.j], circuitOf[p.i]), edges + [p])
  {
    var to, from := circuitOf[p.i], circuitOf[p.j];
    var relabelled := Relabel(circuitOf, from, to);
    var edges' := edges + [p];
    assert Wire(edges', p.i, p.j) by {
      assert p in edges';
    }
    forall a, b | 0 <= a < |circuitOf| && 0 <= b < |circuitOf| && relabelled[a] == relabelled[b]
      ensures Linked(edges', a, b)
    {
      if circuitOf[a] == circuitOf[b] {
        LinkedGrows(edges, p, a, b);
      } else {
        var x, y := if circuitOf[a] == to then a else b, if circuitOf[a] == to then b else a;
        assert circuitOf[x] == to && circuitOf[y] == from;
        LinkedGrows(edges, p, x, p.i);
        LinkedWire(edges', x, p.i, p.j);
        LinkedGrows(edges, p, p.j, y);
        LinkedTransitive(edges', x, p.j, y);
        if x != a {
          LinkedSymmetric(edges', x, y);
        }
      }
    }
  }

  // ---------------------------------------------------------------------
  // Counting boxes
  // ---------------------------------------------------------------------

  /** The box ids `0..n`. */
  function Boxes(n: nat): (r: set<nat>)
    ensures forall b: int :: b in r <==> 0 <= b < n
  {
    if n == 0 then {} else Boxes(n - 1) + {n - 1}
  }

  /** There are `n` box ids. */
  lemma {:induction false} BoxesCard(n: nat)
    ensures |Boxes(n)| == n
  {
    if n > 0 {
      var r := Boxes(n - 1);
      BoxesCard(n - 1);
      assert n - 1 !in r;
      assert Boxes(n) == r + {n - 1};
    }
  }

  /** A subset is no larger. */
  lemma {:induction false} SubsetCard(a: set<nat>, b: set<nat>)
    requires a <= b
    ensures |a| <= |b|
    decreases |a|
  {
    if a != {} {
      var x :| x in a;
      SubsetCard(a - {x}, b - {x});
    }
  }

  /** A circuit list holds all `n` boxes exactly when its length is `n`. */
  lemma FullCircuit(list: seq<nat>, n: nat)
    requires Distinct(list) && forall x :: x in list ==> x < n
    ensures |list| <= n
    ensures |list| == n <==> forall b :: 0 <= b < n ==> b in list
  {
    DistinctCard(list);
    BoxesCard(n);
    SubsetCard(Elems(list), Boxes(n));
    if forall b :: 0 <= b < n ==> b in list {
      SubsetCard(Boxes(n), Elems(list));
    } else {
      var b :| 0 <= b < n && b !in list;
      SubsetCard(Elems(list), Boxes(n) - {b});
    }
  }

  // ---------------------------------------------------------------------
  // Connectivity facts used by both parts
  // ---------------------------------------------------------------------

  /** Every box is linked to box 0: one circuit holds them all. */
  ghost predicate AllLinked(edges: seq<Pair>, n: nat) {
    forall b :: 0 <= b < n ==> Linked(edges, 0, b)
  }

  /** Before any connection only a box is linked to itself. */
  lemma {:induction false} TracksNone(n: nat)
    ensures Tracks(Identity(n), [])
  {
    forall a, b | 0 <= a < n && 0 <= b < n && Identity(n)[a] == Identity(n)[b]
      ensures Linked([], a, b)
    {
      LinkedSelf([], a);
    }
  }

  /** With two boxes and no connection, not every box is linked. */
  lemma NoneNotAllLinked(n: nat)
    requires n >= 2
    ensures !AllLinked([], n)
  {
    forall w | Walk([], w)
      ensures |w| == 1
    {
      assert |w| == 1 || Wire([], w[0], w[1]);
    }
    assert !Linked([], 0, 1);
  }

  /** A circuit holding all `n` boxes means every box is linked. */
  lemma OneCircuitAllLinked(circuitOf: seq<nat>, circuits: map<nat, seq<nat>>, edges: seq<Pair>, k: nat)
    requires Partitioned(circuitOf, circuits) && Tracks(circuitOf, edges)
    requires k in circuits && |circuits[k]| == |circuitOf| > 0
    ensures AllLinked(edges, |circuitOf|)
  {
    var n := |circuitOf|;
    assert Labelled(circuitOf, circuits[k], k);
    FullCircuit(circuits[k], n);
    forall b | 0 <= b < n
      ensures Linked(edges, 0, b)
    {
      assert 0 in circuits[k] && b in circuits[k];
      SameCircuitIffLinked(circuitOf, edges, 0, b);
    }
  }

  /** When every box is linked, each circuit holds all `n` boxes. */
  lemma AllLinkedFull(circuitOf: seq<nat>, circuits: map<nat, seq<nat>>, edges: seq<Pair>, k: nat)
    requires Partitioned(circuitOf, circuits) && Tracks(circuitOf, edges)
    requires k in circuits && AllLinked(edges, |circuitOf|)
    ensures |circuits[k]| == |circuitOf|
  {
    var n := |circuitOf|;
    assert Labelled(circuitOf, circuits[k], k) && k in circuits[k];
    forall b | 0 <= b < n
      ensures b in circuits[k]
    {
      SameCircuitIffLinked(circuitOf, edges, 0, b);
      SameCircuitIffLinked(circuitOf, edges, 0, k);
      assert b in circuits[circuitOf[b]];
    }
    FullCircuit(circuits[k], n);
  }

  /**
   * A connection that does not leave one circuit of all `n` boxes does not
   * link every box either: neither a wire inside one circuit nor a merge that
   * falls short of `n` boxes.
   */
  lemma StillApart(before: seq<nat>, sets: map<nat, seq<nat>>, edges: seq<Pair>, p: Pair,
                   after: seq<nat>, merged: map<nat, seq<nat>>)
    requires Partitioned(before, sets) && Tracks(before, edges) && !AllLinked(edges, |before|)
    requires p.i < |before| && p.j < |before|
    requires Partitioned(after, merged) && Tracks(after, edges + [p]) && |after| == |before|
    requires before[p.i] == before[p.j] ==> after == before && merged == sets
    requires before[p.i] != before[p.j] ==> before[p.i] in merged && |merged[before[p.i]]| != |before|
    ensures !AllLinked(edges + [p], |before|)
  {
    var k := before[p.i];
    if AllLinked(edges + [p], |before|) {
      if before[p.i] == before[p.j] {
        AllLinkedFull(after, merged, edges + [p], k);
        OneCircuitAllLinked(before, sets, edges, k);
      } else {
        AllLinkedFull(after, merged, edges + [p], k);
      }
    }
  }

  /** A prefix that does not link every box, of a list that does, is a proper prefix. */
  lemma PrefixShort(edges: seq<Pair>, t: nat, n: nat)
    requires t <= |edges| && AllLinked(edges, n) && !AllLinked(edges[..t], n)
    ensures t < |edges|
  {
    assert edges[..|edges|] == edges;
  }

  /** The answer of `part2`: the product of the x coordinates of two boxes. */
  function XProduct(a: Position, b: Position): nat {
    a.x * b.x
  }

  /** Connecting every pair links every box. */
  lemma AllPairsLinkAll(ps: seq<Position>, pairs: seq<Pair>)
    requires ListsAllPairs(ps, pairs)
    ensures AllLinked(pairs, |ps|)
  {
    forall b | 0 <= b < |ps|
      ensures Linked(pairs, 0, b)
    {
      LinkedSelf(pairs, 0);
      if b > 0 {
        assert PairOf(ps, 0, b) in pairs;
        assert Wire(pairs, 0, b);
        LinkedWire(pairs, 0, 0, b);
      }
    }
  }

  // ---------------------------------------------------------------------
  // Circuit sizes (08.rs:85-90)
  // ---------------------------------------------------------------------

  /** The sizes of the circuits whose ids are below `m`, by id. */
  function CircuitSizes(circuits: map<nat, seq<nat>>, m: nat): seq<nat> {
    if m == 0 then []
    else CircuitSizes(circuits, m - 1) + (if m - 1 in circuits then [|circuits[m - 1]|] else [])
  }

  /** The product of a sequence; 1 when empty, as `Iterator::product`. */
  function Product(s: seq<nat>): nat {
    if s == [] then 1 else Product(s[..|s| - 1]) * s[|s| - 1]
  }

  /** `lengths.iter().rev().take(3).product()` on ascending `lengths`: the product of the three largest, or of all when fewer. */
  function TopThreeProduct(sorted: seq<nat>): nat {
    Product(sorted[if |sorted| < 3 then 0 else |sorted| - 3..])
  }

  /** The sort key of `lengths.sort()`: a size is its own key. */
  function Id(x: nat): int {
    x
  }

  /** Sorted by its own value is ascending. */
  lemma SortedIsAscending(s: seq<nat>)
    requires SortedBy(s, Id)
    ensures IsAscending(s)
  {
    forall k, l | 0 <= k < l < |s|
      ensures s[k] <= s[l]
    {
      assert Id(s[k]) <= Id(s[l]);
    }
  }

  /**
   * Sorting any listing of the circuit sizes gives the reference arrangement,
   * so the answer does not depend on the order in which `HashMap` yields them.
   */
  lemma AnyListingSorts(listing: seq<nat>, sorted: seq<nat>)
    requires multiset(sorted) == multiset(listing) && SortedBy(sorted, Id)
    ensures sorted == Ascending(listing)
  {
    AscendingSorts(listing);
    SortedIsAscending(sorted);
    SortedUnique(sorted, Ascending(listing));
  }

  /**
   * `lengths.sort(); lengths.iter().rev().take(3).product()`: sorts the sizes
   * in place and multiplies the three largest.
   */
  method TopThree(lengths: seq<nat>) returns (result: nat)
    ensures result == TopThreeProduct(Ascending(lengths))
  {
    var a := new nat[|lengths|](k requires 0 <= k < |lengths| => lengths[k]);
    assert a[..] == lengths;
    SortByKey(a, Id);
    AnyListingSorts(lengths, a[..]);
    result := TopThreeProduct(a[..]);
  }

  // ---------------------------------------------------------------------
  // The playground (08.rs:7-17, 36-39, 52-129)
  // ---------------------------------------------------------------------

  class Playground {
    /** Each box's position (`Box::position`). */
    const positions: seq<Position>
    /** Each box's circuit id (`Box::circuit_id`). */
    var circuitOf: seq<nat>
    /** `circuits`: the boxes of each circuit, by circuit id. */
    var circuits: map<nat, seq<nat>>
    /** The connections made so far. */
    ghost var made: seq<Pair>

    /** The bookkeeping is a partition that describes the connections made. */
    ghost predicate Valid()
      reads this
    {
      |circuitOf| == |positions| && Partitioned(circuitOf, circuits) && Tracks(circuitOf, made)
    }

    /** `parse_input`: each box starts alone in a circuit named by its index. */
    constructor (positions: seq<Position>)
      ensures Valid() && this.positions == positions && made == []
      ensures circuitOf == Identity(|positions|) && circuits == Singletons(|positions|)
    {
      this.positions := positions;
      circuitOf := Identity(|positions|);
      circuits := Singletons(|positions|);
      made := [];
      SingletonsPartitioned(|positions|);
      TracksNone(|positions|);
    }

    /**
     * One step of the merge loop for the pair `p`: if both boxes are already
     * in one circuit nothing changes; otherwise every box of the second box's
     * circuit moves into the first box's circuit and the second circuit is
     * removed.
     */
    method Connect(p: Pair)
      requires Valid() && p.i < |positions| && p.j < |positions|
      modifies this
      ensures Valid() && made == old(made) + [p]
      ensures old(circuitOf[p.i] == circuitOf[p.j]) ==> circuitOf == old(circuitOf) && circuits == old(circuits)
      ensures old(circuitOf[p.i] != circuitOf[p.j]) ==>
                && circuitOf == Relabel(old(circuitOf), old(circuitOf[p.j]), old(circuitOf[p.i]))
                && circuits == Merge(old(circuits), old(circuitOf[p.j]), old(circuitOf[p.i]))
                && |circuits.Keys| == |old(circuits).Keys| - 1
    {
      var to := circuitOf[p.i];
      var from := circuitOf[p.j];
      if to == from {
        TracksSame(circuitOf, made, p);
        made := made + [p];
        return;
      }
      MergePartitioned(circuitOf, circuits, from, to);
      TracksMerge(circuitOf, made, p);
      ghost var before := circuitOf;
      var members := circuits[from];
      assert Labelled(before, members, from);
      MoveBoxes(members, to);
      MovedIsRelabel(before, circuits, circuitOf, from, to);
      circuits := (circuits - {from})[to := circuits[to] + members];
      made := made + [p];
    }

    /** `for box_id in circuits[from] { boxes[box_id].circuit_id = to }`. */
    method MoveBoxes(members: seq<nat>, to: nat)
      requires forall b :: b in members ==> b < |circuitOf|
      modifies this`circuitOf
      ensures |circuitOf| == |old(circuitOf)|
      ensures forall b :: 0 <= b < |circuitOf| ==> circuitOf[b] == if b in members then to else old(circuitOf[b])
    {
      for t := 0 to |members|
        invariant |circuitOf| == |old(circuitOf)|
        invariant forall b :: 0 <= b < |circuitOf| ==> circuitOf[b] == if b in members[..t] then to else old(circuitOf[b])
      {
        assert members[t] in members;
        circuitOf := circuitOf[members[t] := to];
        assert members[..t + 1] == members[..t] + [members[t]];
      }
      assert members[..|members|] == members;
    }

    /** `for (box_id1, box_id2, _) in pairs.iter().take(connections)`: connects each pair in turn. */
    method ConnectAll(pairs: seq<Pair>)
      requires Valid() && forall k :: 0 <= k < |pairs| ==> pairs[k].i < |positions| && pairs[k].j < |positions|
      modifies this
      ensures Valid() && made == old(made) + pairs
    {
      for t := 0 to |pairs|
        invariant Valid() && made == old(made) + pairs[..t]
      {
        Connect(pairs[t]);
        assert pairs[..t + 1] == pairs[..t] + [pairs[t]];
      }
      assert pairs[..|pairs|] == pairs;
    }

    /** `lengths`: the size of every circuit, listed by circuit id. */
    method Lengths() returns (lengths: seq<nat>)
      ensures lengths == CircuitSizes(circuits, |positions|)
    {
      lengths := [];
      for b := 0 to |positions|
        invariant lengths == CircuitSizes(circuits, b)
      {
        if b in circuits {
          lengths := lengths + [|circuits[b]|];
        }
      }
    }

    /**
     * `part1`: connects the first `connections` pairs of the connection order
     * and multiplies the sizes of the three largest circuits.
     */
    method Part1(connections: nat) returns (result: nat, order: seq<Pair>)
      requires Valid() && made == []
      modifies this
      ensures Valid() && InConnectOrder(positions, order)
      ensures made == order[..if connections < |order| then connections else |order|]
      ensures result == TopThreeProduct(Ascending(CircuitSizes(circuits, |positions|)))
    {
      order := ConnectOrder(positions);
      var take := if connections < |order| then connections else |order|;
      ConnectAll(order[..take]);
      var lengths := Lengths();
      result := TopThree(lengths);
    }

    /**
     * One step of `part2`'s loop: connects `p` and reports whether one circuit
     * now holds every box, which is exactly when every box is linked.
     */
    method ConnectAndCheck(p: Pair) returns (done: bool)
      requires Valid() && p.i < |positions| && p.j < |positions| && !AllLinked(made, |positions|)
      modifies this
      ensures Valid() && made == old(made) + [p]
      ensures done <==> AllLinked(made, |positions|)
    {
      var to, from := circuitOf[p.i], circuitOf[p.j];
      ghost var before, sets, edges := circuitOf, circuits, made;
      Connect(p);
      done := to != from && |circuits[to]| == |positions|;
      if done {
        OneCircuitAllLinked(circuitOf, circuits, made, to);
      } else {
        StillApart(before, sets, edges, p, circuitOf, circuits);
      }
    }

    /**
     * `part2`: connects pairs in connection order until one circuit holds every
     * box, and multiplies the x coordinates of the two boxes of that last pair.
     */
    method Part2() returns (result: nat, order: seq<Pair>, last: nat)
      requires Valid() && made == [] && |positions| >= 2
      modifies this
      ensures InConnectOrder(positions, order) && last < |order|
      ensures AllLinked(order[..last + 1], |positions|) && !AllLinked(order[..last], |positions|)
      ensures result == XProduct(positions[order[last].i], positions[order[last].j])
    {
      var n := |positions|;
      order := ConnectOrder(positions);
      AllPairsLinkAll(positions, order);
      NoneNotAllLinked(n);
      assert PairOf(positions, 0, 1) in order;
      var t := 0;
      while t < |order|
        invariant 0 <= t < |order|
        invariant Valid() && made == order[..t] && !AllLinked(made, n)
        decreases |order| - t
      {
        var p := order[t];
        var done := ConnectAndCheck(p);
        assert order[..t + 1] == order[..t] + [p];
        if done {
          last := t;
          result := XProduct(positions[p.i], positions[p.j]);
          return;
        }
        PrefixShort(order, t + 1, n);
        t := t + 1;
      }
      assert false;
    }
  }
}
