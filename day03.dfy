/**
 * Battery banks (03.rs): a bank is a line of digits; turning on `k` of its
 * batteries, in order, gives the joltage read as a `k`-digit number.
 * `largest_joltage` picks the batteries greedily; the model proves the
 * greedy choice gives the largest joltage of any `k` batteries.
 */
module Day03 {
  import opened Powers

  /**
   * A bank of decimal digits. The model takes only such banks; the source
   * unwraps `to_digit(10)` only on the characters it picks, and panics only
   * when it picks a non-digit.
   */
  predicate IsBank(bank: string) {
    forall i :: 0 <= i < |bank| ==> '0' <= bank[i] <= '9'
  }

  /** The value of a digit character (`to_digit(10)`); the model's banks hold nothing else. */
  function Digit(c: char): (r: nat)
    ensures r < 10
  {
    if '0' <= c <= '9' then c as int - '0' as int else 0
  }

  /** The number the digits spell, accumulated as `result * 10 + digit`. */
  function Value(ds: string): nat {
    if ds == [] then 0 else Value(ds[..|ds| - 1]) * 10 + Digit(ds[|ds| - 1])
  }

  /** Appending a digit shifts the number one place. */
  lemma ValueAppend(ds: string, c: char)
    ensures Value(ds + [c]) == Value(ds) * 10 + Digit(c)
  {
    assert (ds + [c])[..|ds|] == ds;
  }

  /** The arithmetic step of `ValueFront`. */
  lemma Distribute(lead: int, p: int, v: int, d: int)
    ensures (lead * p + v) * 10 + d == lead * (p * 10) + (v * 10 + d)
  {
  }

  /** Read from the front: the first digit weighs `10^(|rest|)`. */
  lemma {:induction false} ValueFront(ds: string)
    requires ds != []
    ensures Value(ds) == Digit(ds[0]) * Pow10(|ds| - 1) + Value(ds[1..])
  {
    var n := |ds|;
    if n > 1 {
      var init, tail := ds[..n - 1], ds[1..];
      ValueFront(init);
      assert init[0] == ds[0];
      assert tail[..n - 2] == init[1..];
      assert Value(tail) == Value(init[1..]) * 10 + Digit(ds[n - 1]);
      Distribute(Digit(ds[0]), Pow10(n - 2), Value(init[1..]), Digit(ds[n - 1]));
    } else {
      assert ds[1..] == [] && ds[..0] == [];
    }
  }

  /** A `k`-digit joltage is below `10^k`. */
  lemma {:induction false} ValueBound(ds: string)
    ensures Value(ds) < Pow10(|ds|)
  {
    if ds != [] {
      ValueBound(ds[..|ds| - 1]);
    }
  }

  /** A larger leading digit wins whatever follows. */
  lemma LeadingDigitWins(a: string, b: string)
    requires IsBank(a) && IsBank(b) && |a| == |b| > 0 && a[0] > b[0]
    ensures Value(b) < Value(a)
  {
    ValueFront(a);
    ValueFront(b);
    ValueBound(b[1..]);
    var p := Pow10(|a| - 1);
    assert Digit(b[0]) + 1 <= Digit(a[0]);
    assert Value(b) < (Digit(b[0]) + 1) * p;
  }

  /** An equal leading digit leaves the comparison to the rest. */
  lemma SameLeadingDigit(a: string, b: string)
    requires |a| == |b| > 0 && a[0] == b[0]
    requires Value(b[1..]) <= Value(a[1..])
    ensures Value(b) <= Value(a)
  {
    ValueFront(a);
    ValueFront(b);
  }

  // ---------------------------------------------------------------------
  // Subsequences: which batteries may be turned on
  // ---------------------------------------------------------------------

  /** `t` is made of characters of `s` at or after `lo`, taken in order. */
  predicate Sub(t: string, s: string, lo: nat)
    decreases |s| - lo
  {
    t == [] ||
    (lo < |s| && ((s[lo] == t[0] && Sub(t[1..], s, lo + 1)) || Sub(t, s, lo + 1)))
  }

  /** A subsequence of what follows `i` is one of what follows any earlier `lo`. */
  lemma {:induction false} SubEarlier(t: string, s: string, lo: nat, i: nat)
    requires lo <= i && Sub(t, s, i)
    ensures Sub(t, s, lo)
    decreases i - lo
  {
    if lo < i {
      SubEarlier(t, s, lo + 1, i);
    }
  }

  /** The first character of a subsequence sits at some `j`, the rest after it, with room for it. */
  lemma {:induction false} FirstPick(t: string, s: string, lo: nat) returns (j: nat)
    requires Sub(t, s, lo) && t != []
    ensures lo <= j && j + |t| <= |s| && s[j] == t[0] && Sub(t[1..], s, j + 1)
    decreases |s| - lo
  {
    if s[lo] == t[0] && Sub(t[1..], s, lo + 1) {
      j := lo;
      if t[1..] != [] {
        var j' := FirstPick(t[1..], s, lo + 1);
      }
    } else {
      j := FirstPick(t, s, lo + 1);
    }
  }

  /** Characters taken from a bank are digits. */
  lemma {:induction false} SubIsBank(t: string, s: string, lo: nat)
    requires IsBank(s) && Sub(t, s, lo)
    ensures IsBank(t)
    decreases |t|
  {
    if t != [] {
      var j := FirstPick(t, s, lo);
      SubIsBank(t[1..], s, j + 1);
      assert forall i :: 1 <= i < |t| ==> t[i] == t[1..][i - 1];
    }
  }

  // ---------------------------------------------------------------------
  // The greedy choice
  // ---------------------------------------------------------------------

  /** The index of the leftmost largest character of `s[lo..hi]`. */
  function FirstMaxIn(s: string, lo: nat, hi: nat): (r: nat)
    requires lo < hi <= |s|
    ensures lo <= r < hi
    decreases hi
  {
    if hi == lo + 1 then lo
    else
      var m := FirstMaxIn(s, lo, hi - 1);
      if s[hi - 1] > s[m] then hi - 1 else m
  }

  /** `FirstMaxIn` is a maximum, and every character before it is smaller. */
  lemma {:induction false} FirstMaxIsLeftmostMax(s: string, lo: nat, hi: nat)
    requires lo < hi <= |s|
    ensures var r := FirstMaxIn(s, lo, hi);
            (forall j :: lo <= j < hi ==> s[j] <= s[r]) && (forall j :: lo <= j < r ==> s[j] < s[r])
    decreases hi
  {
    if hi > lo + 1 {
      FirstMaxIsLeftmostMax(s, lo, hi - 1);
    }
  }

  /** Only one index is the leftmost maximum. */
  lemma FirstMaxUnique(s: string, lo: nat, hi: nat, r: nat)
    requires lo <= r < hi <= |s|
    requires forall j :: lo <= j < hi ==> s[j] <= s[r]
    requires forall j :: lo <= j < r ==> s[j] < s[r]
    ensures r == FirstMaxIn(s, lo, hi)
  {
    var m := FirstMaxIn(s, lo, hi);
    FirstMaxIsLeftmostMax(s, lo, hi);
    assert s[m] <= s[r] && s[r] <= s[m];
  }

  /**
   * The greedy choice from `lo` on: the leftmost largest digit that leaves
   * `k - 1` characters after it, then the same on what follows it.
   */
  function Greedy(s: string, lo: nat, k: nat): (r: string)
    requires lo + k <= |s|
    ensures |r| == k
    decreases k
  {
    if k == 0 then []
    else
      var m := FirstMaxIn(s, lo, |s| - k + 1);
      [s[m]] + Greedy(s, m + 1, k - 1)
  }

  /** The greedy digits are digits of the bank, taken in order. */
  lemma {:induction false} GreedyIsSubsequence(s: string, lo: nat, k: nat)
    requires lo + k <= |s|
    ensures Sub(Greedy(s, lo, k), s, lo)
    decreases k
  {
    if k > 0 {
      var m := FirstMaxIn(s, lo, |s| - k + 1);
      var g := Greedy(s, lo, k);
      GreedyIsSubsequence(s, m + 1, k - 1);
      assert g[1..] == Greedy(s, m + 1, k - 1);
      assert Sub(g, s, m);
      SubEarlier(g, s, lo, m);
    }
  }

  /** When the greedy digit beats the first of `t`, the greedy joltage is larger. */
  lemma LowerLead(s: string, lo: nat, k: nat, t: string)
    requires IsBank(s) && IsBank(t) && 0 < k && lo + k <= |s| && |t| == k
    requires s[FirstMaxIn(s, lo, |s| - k + 1)] > t[0]
    ensures Value(t) < Value(Greedy(s, lo, k))
  {
    var g := Greedy(s, lo, k);
    GreedyIsSubsequence(s, lo, k);
    SubIsBank(g, s, lo);
    LeadingDigitWins(g, t);
  }

  /** When `t` starts with the greedy digit, comparing the rests decides. */
  lemma EqualLead(s: string, lo: nat, k: nat, t: string)
    requires 0 < k && lo + k <= |s| && |t| == k
    requires var m := FirstMaxIn(s, lo, |s| - k + 1);
             s[m] == t[0] && Value(t[1..]) <= Value(Greedy(s, m + 1, k - 1))
    ensures Value(t) <= Value(Greedy(s, lo, k))
  {
    var g := Greedy(s, lo, k);
    assert g[1..] == Greedy(s, FirstMaxIn(s, lo, |s| - k + 1) + 1, k - 1);
    SameLeadingDigit(g, t);
  }

  /**
   * The greedy choice is optimal: no `k` batteries taken in order from
   * `lo` on give a larger joltage.
   */
  lemma {:induction false} GreedyIsLargest(s: string, lo: nat, k: nat, t: string)
    requires IsBank(s) && lo + k <= |s|
    requires Sub(t, s, lo) && |t| == k
    ensures Value(t) <= Value(Greedy(s, lo, k))
    decreases k
  {
    if k > 0 {
      var m := FirstMaxIn(s, lo, |s| - k + 1);
      var j := FirstPick(t, s, lo);
      FirstMaxIsLeftmostMax(s, lo, |s| - k + 1);
      if s[m] > t[0] {
        SubIsBank(t, s, lo);
        LowerLead(s, lo, k, t);
      } else {
        SubEarlier(t[1..], s, m + 1, j + 1);
        GreedyIsLargest(s, m + 1, k - 1, t[1..]);
        EqualLead(s, lo, k, t);
      }
    }
  }

  /**
   * What `largest_joltage` promises: `k` batteries of the bank in order,
   * no other choice of `k` beats them, and the joltage has at most `k` digits.
   */
  lemma GreedyIsMaximum(bank: string, k: nat)
    requires IsBank(bank) && k <= |bank|
    ensures Sub(Greedy(bank, 0, k), bank, 0)
    ensures forall t :: Sub(t, bank, 0) && |t| == k ==> Value(t) <= Value(Greedy(bank, 0, k))
    ensures Value(Greedy(bank, 0, k)) < Pow10(k)
  {
    GreedyIsSubsequence(bank, 0, k);
    forall t | Sub(t, bank, 0) && |t| == k
      ensures Value(t) <= Value(Greedy(bank, 0, k))
    {
      GreedyIsLargest(bank, 0, k, t);
    }
    ValueBound(Greedy(bank, 0, k));
  }

  // ---------------------------------------------------------------------
  // largest_joltage, part1 and part2 (03.rs:5-27)
  // ---------------------------------------------------------------------

  /**
   * The reverse scan of 03.rs:9-14 over `bank[lo..hi]`: keeping the last
   * maximum seen while walking backwards keeps the leftmost maximum.
   */
  method PickMax(bank: string, lo: nat, hi: nat) returns (index: nat)
    requires lo < hi <= |bank|
    ensures index == FirstMaxIn(bank, lo, hi)
  {
    index := hi - 1;
    var i := hi - 1;
    while i > lo
      invariant lo <= i <= index < hi
      invariant forall j :: i <= j < hi ==> bank[j] <= bank[index]
      invariant forall j :: i <= j < index ==> bank[j] < bank[index]
    {
      i := i - 1;
      if bank[i] >= bank[index] {
        index := i;
      }
    }
    FirstMaxUnique(bank, lo, hi, index);
  }

  /** After one pick, the picked digits and the greedy choice on the rest still spell `whole`. */
  lemma PickStep(bank: string, start: nat, k: nat, index: nat, picked: string, whole: string)
    requires 0 < k && start + k <= |bank|
    requires index == FirstMaxIn(bank, start, |bank| - k + 1)
    requires picked + Greedy(bank, start, k) == whole
    ensures index + k <= |bank| && (picked + [bank[index]]) + Greedy(bank, index + 1, k - 1) == whole
  {
    var rest := Greedy(bank, index + 1, k - 1);
    assert Greedy(bank, start, k) == [bank[index]] + rest;
    assert picked + ([bank[index]] + rest) == (picked + [bank[index]]) + rest;
  }

  /** `largest_joltage`: `k` greedy picks, each from the rest of the bank after the previous one. */
  method LargestJoltage(bank: string, k: nat) returns (result: nat)
    requires IsBank(bank) && k <= |bank|
    ensures result == Value(Greedy(bank, 0, k))
  {
    result := 0;
    var start := 0;
    ghost var picked: string := [];
    ghost var whole := Greedy(bank, 0, k);
    for b := 0 to k
      invariant start + (k - b) <= |bank|
      invariant result == Value(picked)
      invariant picked + Greedy(bank, start, k - b) == whole
    {
      var index := PickMax(bank, start, |bank| - (k - b) + 1);
      PickStep(bank, start, k - b, index, picked, whole);
      result := result * 10 + Digit(bank[index]);
      ValueAppend(picked, bank[index]);
      picked := picked + [bank[index]];
      start := index + 1;
    }
    assert Greedy(bank, start, 0) == [];
    assert picked + [] == picked;
  }

  /** Every bank is long enough for `k` batteries. */
  predicate Banks(data: seq<string>, k: nat) {
    forall i :: 0 <= i < |data| ==> IsBank(data[i]) && k <= |data[i]|
  }

  /** The sum over the banks of the greedy joltage with `k` batteries. */
  function TotalJoltage(data: seq<string>, k: nat): nat
    requires Banks(data, k)
  {
    if data == [] then 0
    else TotalJoltage(data[..|data| - 1], k) + Value(Greedy(data[|data| - 1], 0, k))
  }

  /** Summing `largest_joltage` over the banks (03.rs:21-27). */
  method SumJoltage(data: seq<string>, k: nat) returns (result: nat)
    requires Banks(data, k)
    ensures result == TotalJoltage(data, k)
  {
    result := 0;
    for i := 0 to |data|
      invariant result == TotalJoltage(data[..i], k)
    {
      assert data[..i + 1][..i] == data[..i];
      var j := LargestJoltage(data[i], k);
      result := result + j;
    }
    assert data[..|data|] == data;
  }

  /** `part1`: two batteries per bank. */
  method Part1(data: seq<string>) returns (result: nat)
    requires Banks(data, 2)
    ensures result == TotalJoltage(data, 2)
  {
    result := SumJoltage(data, 2);
  }

  /** `part2`: twelve batteries per bank. */
  method Part2(data: seq<string>) returns (result: nat)
    requires Banks(data, 12)
    ensures result == TotalJoltage(data, 12)
  {
    result := SumJoltage(data, 12);
  }

  /** The greedy joltage of `bank` with two batteries, from the two picks `i` and `j`. */
  lemma TwoPicks(bank: string, i: nat, j: nat)
    requires 2 <= |bank| && i < |bank| - 1 && i < j < |bank|
    requires forall m :: 0 <= m < |bank| - 1 ==> bank[m] <= bank[i]
    requires forall m :: 0 <= m < i ==> bank[m] < bank[i]
    requires forall m :: i < m < |bank| ==> bank[m] <= bank[j]
    requires forall m :: i < m < j ==> bank[m] < bank[j]
    ensures Greedy(bank, 0, 2) == [bank[i], bank[j]]
  {
    FirstMaxUnique(bank, 0, |bank| - 1, i);
    FirstMaxUnique(bank, i + 1, |bank|, j);
  }

  /** A two-digit joltage. */
  lemma TwoDigits(a: char, b: char)
    ensures Value([a, b]) == Digit(a) * 10 + Digit(b)
  {
    assert [a][..0] == [];
    assert Value([a]) == Digit(a);
    assert [a, b][..1] == [a];
  }

  /** The values `test_largest_joltage` checks. */
  lemma LargestJoltageExamples()
    ensures Value(Greedy("987654321111111", 0, 2)) == 98
    ensures Value(Greedy("811111111111119", 0, 2)) == 89
    ensures Value(Greedy("234234234234278", 0, 2)) == 78
    ensures Value(Greedy("818181911112111", 0, 2)) == 92
  {
    Joltage98();
    Joltage89();
    Joltage78();
    Joltage92();
  }

  lemma Joltage98()
    ensures Value(Greedy("987654321111111", 0, 2)) == 98
  {
    var bank := "987654321111111";
    TwoPicks(bank, 0, 1);
    TwoDigits(bank[0], bank[1]);
  }

  lemma Joltage89()
    ensures Value(Greedy("811111111111119", 0, 2)) == 89
  {
    var bank := "811111111111119";
    TwoPicks(bank, 0, 14);
    TwoDigits(bank[0], bank[14]);
  }

  lemma Joltage78()
    ensures Value(Greedy("234234234234278", 0, 2)) == 78
  {
    var bank := "234234234234278";
    TwoPicks(bank, 13, 14);
    TwoDigits(bank[13], bank[14]);
  }

  lemma Joltage92()
    ensures Value(Greedy("818181911112111", 0, 2)) == 92
  {
    var bank := "818181911112111";
    TwoPicks(bank, 6, 11);
    TwoDigits(bank[6], bank[11]);
  }
}
