/**
 * A reference sort of natural numbers into ascending order, and the fact that
 * an ascending arrangement of a multiset is unique.
 */
module Ordering {

  /** The ascending arrangement of a list of sizes (a reference insertion sort). */
  function Ascending(s: seq<nat>): seq<nat> {
    if s == [] then [] else Insert(s[|s| - 1], Ascending(s[..|s| - 1]))
  }

  /** Inserts `x` before the first larger element. */
  function Insert(x: nat, s: seq<nat>): seq<nat> {
    if s == [] || x <= s[0] then [x] + s else [s[0]] + Insert(x, s[1..])
  }

  /** `s` is in ascending order. */
  predicate IsAscending(s: seq<nat>) {
    forall k, l :: 0 <= k < l < |s| ==> s[k] <= s[l]
  }

  /** Inserting adds exactly `x`. */
  lemma {:induction false} InsertAdds(x: nat, s: seq<nat>)
    ensures multiset(Insert(x, s)) == multiset(s) + multiset{x}
    decreases |s|
  {
    if s != [] && x > s[0] {
      InsertAdds(x, s[1..]);
      assert s == [s[0]] + s[1..];
    }
  }

  /** Inserting into an ascending list keeps it ascending. */
  lemma {:induction false} InsertSorted(x: nat, s: seq<nat>)
    requires IsAscending(s)
    ensures IsAscending(Insert(x, s))
    decreases |s|
  {
    if s != [] && x > s[0] {
      var rest := s[1..];
      InsertSorted(x, rest);
      InsertAdds(x, rest);
      var r := Insert(x, rest);
      AboveHead(x, s, r);
      PrependAscending(s[0], r);
      assert Insert(x, s) == [s[0]] + r;
    } else {
      PrependAscending(x, s);
    }
  }

  /** What is left after the head of an ascending list, plus a larger `x`, lies above the head. */
  lemma AboveHead(x: nat, s: seq<nat>, r: seq<nat>)
    requires IsAscending(s) && s != [] && x > s[0]
    requires multiset(r) == multiset(s[1..]) + multiset{x}
    ensures forall k :: 0 <= k < |r| ==> s[0] <= r[k]
  {
    forall k | 0 <= k < |r|
      ensures s[0] <= r[k]
    {
      assert r[k] in multiset(r);
      if r[k] != x {
        assert r[k] in multiset(s[1..]);
        var m :| 1 <= m < |s| && s[m] == r[k];
      }
    }
  }

  /** A head no larger than any element of an ascending list keeps it ascending. */
  lemma PrependAscending(h: nat, r: seq<nat>)
    requires IsAscending(r) && forall k :: 0 <= k < |r| ==> h <= r[k]
    ensures IsAscending([h] + r)
  {
    var out := [h] + r;
    forall k, l | 0 <= k < l < |out|
      ensures out[k] <= out[l]
    {
      if k > 0 {
        assert out[k] == r[k - 1];
      }
      assert out[l] == r[l - 1];
    }
  }

  /** `Ascending` sorts: the result is ascending and a permutation. */
  lemma {:induction false} AscendingSorts(s: seq<nat>)
    ensures IsAscending(Ascending(s)) && multiset(Ascending(s)) == multiset(s)
    decreases |s|
  {
    if s != [] {
      AscendingSorts(s[..|s| - 1]);
      InsertSorted(s[|s| - 1], Ascending(s[..|s| - 1]));
      InsertAdds(s[|s| - 1], Ascending(s[..|s| - 1]));
      assert s == s[..|s| - 1] + [s[|s| - 1]];
    }
  }

  /** Two ascending permutations of each other are equal: the order of `HashMap` iteration does not matter. */
  lemma {:induction false} SortedUnique(s: seq<nat>, t: seq<nat>)
    requires IsAscending(s) && IsAscending(t) && multiset(s) == multiset(t)
    ensures s == t
    decreases |s|
  {
    SameLast(s, t);
    if s != [] {
      var m := |s| - 1;
      DropLast(s);
      DropLast(t);
      SortedUnique(s[..m], t[..m]);
      EqualByLast(s, t);
    }
  }

  /** Lists that agree up to their last element and on it are equal. */
  lemma EqualByLast(s: seq<nat>, t: seq<nat>)
    requires |s| == |t| > 0 && s[..|s| - 1] == t[..|t| - 1] && s[|s| - 1] == t[|t| - 1]
    ensures s == t
  {
    assert s == s[..|s| - 1] + [s[|s| - 1]];
    assert t == t[..|t| - 1] + [t[|t| - 1]];
  }

  /** Ascending permutations of each other have the same length and the same last element. */
  lemma SameLast(s: seq<nat>, t: seq<nat>)
    requires IsAscending(s) && IsAscending(t) && multiset(s) == multiset(t)
    ensures |s| == |t| && (s != [] ==> s[|s| - 1] == t[|t| - 1])
  {
    assert |s| == |multiset(s)| == |t|;
    if s != [] {
      assert s[|s| - 1] in multiset(t) && t[|t| - 1] in multiset(s);
      LastIsLargest(s, t[|t| - 1]);
      LastIsLargest(t, s[|s| - 1]);
    }
  }

  /** Dropping the last element of an ascending list leaves an ascending list of the other elements. */
  lemma DropLast(s: seq<nat>)
    requires IsAscending(s) && s != []
    ensures IsAscending(s[..|s| - 1])
    ensures multiset(s[..|s| - 1]) == multiset(s) - multiset{s[|s| - 1]}
  {
    assert s == s[..|s| - 1] + [s[|s| - 1]];
  }

  /** The last element of an ascending list is its largest. */
  lemma LastIsLargest(s: seq<nat>, x: nat)
    requires IsAscending(s) && x in multiset(s)
    ensures x <= s[|s| - 1]
  {
    var k :| 0 <= k < |s| && s[k] == x;
  }
}
