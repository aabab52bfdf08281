/**
 * Invalid product identifiers (02.rs). Part 1 sums, over each range of
 * identifiers, those whose decimal string is some number written twice;
 * part 2 sums those whose decimal string is one chunk repeated at least
 * twice.
 */
module Day02 {
  import opened Powers

  // ---------------------------------------------------------------------
  // Decimal digits
  // ---------------------------------------------------------------------

  /** Multiplying by the same natural keeps an order. */
  lemma MulLe(a: int, b: int, c: nat)
    ensures a <= b ==> a * c <= b * c
  {
    if a <= b {
      assert b * c == a * c + (b - a) * c;
    }
  }

  /** Division by `p` keeps the bounds `lo * p <= a < hi * p`. */
  lemma DivBounds(a: nat, p: nat, lo: nat, hi: nat)
    requires p >= 1 && lo * p <= a < hi * p
    ensures lo <= a / p < hi
  {
    var q := a / p;
    assert a == q * p + a % p;
    MulLe(q + 1, lo, p);
    MulLe(hi, q, p);
  }

  /** `ilog10() + 1`: the number of decimal digits of `x` (`ilog10(0)` panics). */
  function NumDigits(x: nat): (r: nat)
    requires x >= 1
    ensures r >= 1
  {
    if x < 10 then 1 else 1 + NumDigits(x / 10)
  }

  /** `x` has `NumDigits(x)` digits: it lies between the matching powers of ten. */
  lemma {:induction false} NumDigitsRange(x: nat)
    requires x >= 1
    ensures Pow10(NumDigits(x) - 1) <= x < Pow10(NumDigits(x))
  {
    if x >= 10 {
      NumDigitsRange(x / 10);
    }
  }

  /** A number between `10^(d-1)` and `10^d` has `d` digits. */
  lemma {:induction false} NumDigitsOf(x: nat, d: nat)
    requires d >= 1 && Pow10(d - 1) <= x < Pow10(d)
    ensures NumDigits(x) == d
  {
    if d > 1 {
      Pow10Monotone(1, d - 1);
      NumDigitsOf(x / 10, d - 1);
    }
  }

  lemma {:induction false} NumDigitsMonotone(x: nat, y: nat)
    requires 1 <= x <= y
    ensures NumDigits(x) <= NumDigits(y)
  {
    if x >= 10 {
      NumDigitsMonotone(x / 10, y / 10);
    }
  }

  function DigitChar(d: nat): char
    requires d < 10
  {
    ('0' as int + d) as char
  }

  /** `to_string`: the decimal string of `x`, most significant digit first. */
  function Decimal(x: nat): (r: string)
    ensures |r| >= 1
  {
    if x < 10 then [DigitChar(x)] else Decimal(x / 10) + [DigitChar(x % 10)]
  }

  /** The decimal string has one character per digit. */
  lemma {:induction false} DecimalLength(x: nat)
    requires x >= 1
    ensures |Decimal(x)| == NumDigits(x)
  {
    if x >= 10 {
      DecimalLength(x / 10);
    }
  }

  lemma DivMod10(q: nat, r: nat)
    requires r < 10
    ensures (10 * q + r) / 10 == q && (10 * q + r) % 10 == r
  {
  }

  /** `x * 10^d`, one digit at a time. */
  function Shift(x: nat, d: nat): nat {
    if d == 0 then x else 10 * Shift(x, d - 1)
  }

  lemma {:induction false} ShiftIsProduct(x: nat, d: nat)
    ensures Shift(x, d) == x * Pow10(d)
  {
    if d > 0 {
      ShiftIsProduct(x, d - 1);
    }
  }

  lemma {:induction false} ShiftAdd(x: nat, y: nat, d: nat)
    ensures Shift(x + y, d) == Shift(x, d) + Shift(y, d)
  {
    if d > 0 {
      ShiftAdd(x, y, d - 1);
    }
  }

  lemma {:induction false} ShiftPow(a: nat, d: nat)
    ensures Shift(Pow10(a), d) == Pow10(a + d)
  {
    if d > 0 {
      ShiftPow(a, d - 1);
    }
  }

  lemma ShiftMonotone(x: nat, y: nat, d: nat)
    requires x <= y
    ensures Shift(x, d) <= Shift(y, d)
  {
    ShiftAdd(x, y - x, d);
  }

  lemma {:induction false} ShiftMore(x: nat, d: nat, e: nat)
    requires d <= e
    ensures Shift(x, d) <= Shift(x, e)
  {
    if d < e {
      ShiftMore(x, d, e - 1);
    }
  }

  /** Writing `x` then the `d` digits of `y` is the decimal string of `x * 10^d + y`. */
  lemma {:induction false} DecimalConcat(x: nat, y: nat, d: nat)
    requires x >= 1 && d >= 1 && Pow10(d - 1) <= y < Pow10(d)
    ensures Decimal(Shift(x, d) + y) == Decimal(x) + Decimal(y)
  {
    var n := Shift(x, d) + y;
    if d == 1 {
      DivMod10(x, y);
    } else {
      var q := Shift(x, d - 1) + y / 10;
      DivMod10(q, y % 10);
      Pow10Monotone(1, d - 1);
      DecimalConcat(x, y / 10, d - 1);
      assert Decimal(n) == Decimal(q) + [DigitChar(y % 10)];
    }
  }

  // ---------------------------------------------------------------------
  // `double` (02.rs:89-93)
  // ---------------------------------------------------------------------

  /** `double`: `x * 10^d + x`, where `d` is the number of digits of `x`. */
  function Double(x: nat): nat
    requires x >= 1
  {
    Shift(x, NumDigits(x)) + x
  }

  /** The decimal string of `Double(x)` is that of `x` written twice. */
  lemma DoubleDecimal(x: nat)
    requires x >= 1
    ensures Decimal(Double(x)) == Decimal(x) + Decimal(x)
  {
    NumDigitsRange(x);
    DecimalConcat(x, x, NumDigits(x));
  }

  /** `Double(x)` is at least `x * 10^h + x` when `x` has at least `h` digits, at most when at most. */
  lemma DoubleAgainst(x: nat, h: nat)
    requires x >= 1
    ensures NumDigits(x) >= h ==> Double(x) >= Shift(x, h) + x
    ensures NumDigits(x) <= h ==> Double(x) <= Shift(x, h) + x
  {
    var d := NumDigits(x);
    if d >= h {
      ShiftMore(x, h, d);
    } else {
      ShiftMore(x, d, h);
    }
  }

  /** A double of a `d`-digit number has `2d` digits. */
  lemma DoubleBounds(x: nat)
    requires x >= 1
    ensures Pow10(2 * NumDigits(x) - 1) <= Double(x) < Pow10(2 * NumDigits(x))
  {
    var d := NumDigits(x);
    NumDigitsRange(x);
    ShiftMonotone(Pow10(d - 1), x, d);
    ShiftPow(d - 1, d);
    ShiftMonotone(x, Pow10(d) - 1, d);
    ShiftAdd(Pow10(d) - 1, 1, d);
    ShiftPow(d, d);
    ShiftPow(0, d);
  }

  /** `double` is strictly increasing. */
  lemma DoubleIncreasing(x: nat, y: nat)
    requires 1 <= x < y
    ensures Double(x) < Double(y)
  {
    NumDigitsMonotone(x, y);
    var dx, dy := NumDigits(x), NumDigits(y);
    if dx == dy {
      ShiftMonotone(x, y, dx);
    } else {
      DoubleBounds(x);
      DoubleBounds(y);
      Pow10Monotone(2 * dx, 2 * dy - 1);
    }
  }

  /** Doubles compare as their halves do. */
  lemma DoubleOrder(x: nat, y: nat)
    requires x >= 1 && y >= 1
    ensures x < y <==> Double(x) < Double(y)
    ensures x <= y <==> Double(x) <= Double(y)
  {
    if x < y {
      DoubleIncreasing(x, y);
    } else if y < x {
      DoubleIncreasing(y, x);
    }
  }

  // ---------------------------------------------------------------------
  // `part1_single_range` (02.rs:17-52)
  // ---------------------------------------------------------------------

  /** `n / p` and `n % p`. */
  function DivMod(n: nat, p: nat): (nat, nat)
    requires p >= 1
  {
    (n / p, n % p)
  }

  /** The first half of `part1_single_range`: the first `k` to double. */
  function RangeStart(beginRange: nat): nat
    requires beginRange >= 1
  {
    var numDigits := NumDigits(beginRange);
    var divisor := Pow10((numDigits + 1) / 2);
    var (quotient, beginRight) := DivMod(beginRange, divisor);
    var beginLeft := quotient + numDigits % 2 * Pow10(numDigits / 2);
    if numDigits % 2 == 0 then
      (if beginLeft < beginRight then beginLeft + 1 else beginLeft)
    else
      Pow10(numDigits / 2)
  }

  /** The second half of `part1_single_range`: the last `k` to double. */
  function RangeEnd(endRange: nat): nat
    requires endRange >= 1
  {
    var numDigits := NumDigits(endRange);
    var divisor := Pow10((numDigits + 1) / 2);
    var (endLeft, endRight) := DivMod(endRange, divisor);
    if numDigits % 2 == 0 then
      (if endRight < endLeft then endLeft - 1 else endLeft)
    else
      Pow10(numDigits / 2) - 1
  }

  /** An even-length number split in halves: the left half has `h` digits. */
  lemma Halves(a: nat, h: nat)
    requires a >= 1 && h >= 1 && NumDigits(a) == 2 * h
    ensures Pow10(h - 1) <= a / Pow10(h) < Pow10(h)
    ensures a == Shift(a / Pow10(h), h) + a % Pow10(h)
  {
    var p, lo := Pow10(h), Pow10(h - 1);
    HalvesProducts(a, h);
    DivBounds(a, p, lo, p);
    ShiftIsProduct(a / p, h);
  }

  /** A number of `2h` digits lies between `10^(h-1) * 10^h` and `10^h * 10^h`. */
  lemma HalvesProducts(a: nat, h: nat)
    requires a >= 1 && h >= 1 && NumDigits(a) == 2 * h
    ensures Pow10(h - 1) * Pow10(h) <= a < Pow10(h) * Pow10(h)
  {
    NumDigitsRange(a);
    Pow10Add(h - 1, h);
    Pow10Add(h, h);
  }

  /** The first power of ten with `h + 1` digits and the number before it, which has `h`. */
  lemma AroundPower(h: nat)
    ensures NumDigits(Pow10(h)) == h + 1
    ensures h >= 1 ==> NumDigits(Pow10(h) - 1) == h
  {
    NumDigitsOf(Pow10(h), h + 1);
    if h >= 1 {
      NumDigitsOf(Pow10(h) - 1, h);
    }
  }

  /** The doubles around the power of ten `10^h`, the first number with `h + 1` digits. */
  lemma AtPower(h: nat)
    ensures Double(Pow10(h)) >= Pow10(2 * h + 1)
    ensures h >= 1 ==> Pow10(h) >= 2 && Double(Pow10(h) - 1) < Pow10(2 * h)
  {
    AroundPower(h);
    DoubleBounds(Pow10(h));
    if h >= 1 {
      Pow10Monotone(1, h);
      DoubleBounds(Pow10(h) - 1);
    }
  }

  /**
   * The doubles around an `h`-digit left half `l` followed by a right half
   * `r`: `Double(l)` reaches the number exactly when `l >= r`, that of `l + 1`
   * always does and that of `l - 1` never.
   */
  lemma AtHalves(l: nat, r: nat, h: nat)
    requires l >= 1 && NumDigits(l) == h && r < Pow10(h)
    ensures Double(l) == Shift(l, h) + l
    ensures Double(l + 1) > Shift(l, h) + r
    ensures l >= 2 ==> Double(l - 1) < Shift(l, h)
  {
    NumDigitsRange(l);
    ShiftPow(0, h);
    NumDigitsMonotone(l, l + 1);
    DoubleAgainst(l + 1, h);
    ShiftAdd(l, 1, h);
    if l >= 2 {
      NumDigitsMonotone(l - 1, l);
      DoubleAgainst(l - 1, h);
      ShiftAdd(l - 1, 1, h);
    }
  }

  /** `RangeStart` of a number with an odd number of digits. */
  lemma RangeStartOdd(a: nat)
    requires a >= 1 && NumDigits(a) % 2 == 1
    ensures RangeStart(a) == Pow10(NumDigits(a) / 2)
  {
  }

  /** `RangeStart` of a number with an even number of digits, from its halves. */
  lemma RangeStartEven(a: nat)
    requires a >= 1 && NumDigits(a) % 2 == 0
    ensures var p := Pow10(NumDigits(a) / 2);
            RangeStart(a) == if a / p < a % p then a / p + 1 else a / p
  {
    assert NumDigits(a) % 2 * Pow10(NumDigits(a) / 2) == 0;
  }

  /** `RangeEnd` of a number with an odd number of digits. */
  lemma RangeEndOdd(b: nat)
    requires b >= 1 && NumDigits(b) % 2 == 1
    ensures RangeEnd(b) == Pow10(NumDigits(b) / 2) - 1
  {
  }

  /** `RangeEnd` of a number with an even number of digits, from its halves. */
  lemma RangeEndEven(b: nat)
    requires b >= 1 && NumDigits(b) % 2 == 0
    ensures var p := Pow10(NumDigits(b) / 2);
            RangeEnd(b) == if b % p < b / p then b / p - 1 else b / p
  {
  }

  /** `Double(RangeStart(a))` reaches `a`, and the double just before does not. */
  lemma RangeStartBoundary(a: nat)
    requires a >= 1
    ensures RangeStart(a) >= 1 && Double(RangeStart(a)) >= a
    ensures RangeStart(a) >= 2 ==> Double(RangeStart(a) - 1) < a
  {
    var h := NumDigits(a) / 2;
    NumDigitsRange(a);
    if NumDigits(a) % 2 == 1 {
      RangeStartOdd(a);
      AtPower(h);
    } else {
      RangeStartEven(a);
      Halves(a, h);
      NumDigitsOf(a / Pow10(h), h);
      AtHalves(a / Pow10(h), a % Pow10(h), h);
    }
  }

  /** `Double(RangeEnd(b))` stays within `b`, and the double just after does not. */
  lemma RangeEndBoundary(b: nat)
    requires b >= 1
    ensures RangeEnd(b) >= 1 ==> Double(RangeEnd(b)) <= b
    ensures Double(RangeEnd(b) + 1) > b
  {
    var h := NumDigits(b) / 2;
    NumDigitsRange(b);
    if NumDigits(b) % 2 == 1 {
      RangeEndOdd(b);
      AtPower(h);
    } else {
      RangeEndEven(b);
      Halves(b, h);
      NumDigitsOf(b / Pow10(h), h);
      AtHalves(b / Pow10(h), b % Pow10(h), h);
    }
  }

  /** The doubles reaching `a` are exactly those of the `k` from `RangeStart(a)` on. */
  lemma RangeStartIsLeast(a: nat)
    requires a >= 1
    ensures RangeStart(a) >= 1
    ensures forall k: nat :: k >= 1 ==> (Double(k) >= a <==> k >= RangeStart(a))
  {
    RangeStartBoundary(a);
    var s := RangeStart(a);
    forall k: nat | k >= 1
      ensures Double(k) >= a <==> k >= s
    {
      DoubleOrder(k, s);
      if s >= 2 {
        DoubleOrder(k, s - 1);
      }
    }
  }

  /** The doubles within `b` are exactly those of the `k` up to `RangeEnd(b)`. */
  lemma RangeEndIsGreatest(b: nat)
    requires b >= 1
    ensures forall k: nat :: k >= 1 ==> (Double(k) <= b <==> k <= RangeEnd(b))
  {
    RangeEndBoundary(b);
    var e := RangeEnd(b);
    forall k: nat | k >= 1
      ensures Double(k) <= b <==> k <= e
    {
      DoubleOrder(k, e + 1);
      if e >= 1 {
        DoubleOrder(k, e);
      }
    }
  }

  /** The `fold` of `double` over `start..=end`. */
  function SumDoubles(lo: nat, hi: nat): nat
    requires lo >= 1
    decreases hi
  {
    if hi < lo then 0 else SumDoubles(lo, hi - 1) + Double(hi)
  }

  /** `part1_single_range`: the doubles of `RangeStart(a)..=RangeEnd(b)`, added up. */
  function Part1SingleRange(beginRange: nat, endRange: nat): nat
    requires beginRange >= 1 && endRange >= 1
  {
    SumDoubles(RangeStart(beginRange), RangeEnd(endRange))
  }

  /** `x` is some number written twice. */
  predicate IsDouble(x: nat) {
    exists k: nat :: 1 <= k <= x && Double(k) == x
  }

  /** Reference: the sum of the identifiers in `[a, b]` that are some number written twice. */
  function DoublesIn(a: int, b: int): nat
    decreases b - a
  {
    if b < a || b < 0 then 0 else DoublesIn(a, b - 1) + (if IsDouble(b) then b else 0)
  }

  /**
   * Re-indexing: when the doubles of `k >= s` are those reaching `a` and the
   * doubles of `k <= e` those within `b`, adding the doubles of `s..=e` is
   * adding the doubles in `[a, b]`.
   */
  lemma {:induction false} Reindex(a: int, b: int, s: nat, e: nat)
    requires a >= 1 && s >= 1
    requires forall k: nat :: k >= 1 ==> (Double(k) >= a <==> k >= s)
    requires forall k: nat :: k >= 1 ==> (Double(k) <= b <==> k <= e)
    ensures DoublesIn(a, b) == SumDoubles(s, e)
    decreases b - a
  {
    if b < a {
      if e >= 1 {
        assert Double(e) <= b;
      }
    } else if IsDouble(b) {
      var j: nat :| 1 <= j <= b && Double(j) == b;
      forall k: nat | k >= 1
        ensures Double(k) <= b - 1 <==> k <= j - 1
      {
        DoubleOrder(k, j);
      }
      assert j == e by {
        DoubleOrder(j, e);
      }
      Reindex(a, b - 1, s, j - 1);
    } else {
      forall k: nat | k >= 1
        ensures Double(k) <= b - 1 <==> k <= e
      {
        if k <= b {
          assert Double(k) != b;
        }
      }
      Reindex(a, b - 1, s, e);
    }
  }

  /** `part1_single_range` adds exactly the identifiers in `[a, b]` that are doubles. */
  lemma Part1SingleRangeSumsDoubles(a: nat, b: nat)
    requires a >= 1 && b >= 1
    ensures Part1SingleRange(a, b) == DoublesIn(a, b)
  {
    RangeStartIsLeast(a);
    RangeEndIsGreatest(b);
    Reindex(a, b, RangeStart(a), RangeEnd(b));
  }

  /** The values `test_double` checks. */
  lemma DoubleExamples()
    ensures Double(12) == 1212 && Double(123) == 123123 && Double(1) == 11
  {
    NumDigitsOf(12, 2);
    NumDigitsOf(123, 3);
  }

  /** The values `test_part1_single_range` checks. */
  lemma Part1SingleRangeExamples()
    ensures Part1SingleRange(11, 22) == 11 + 22
    ensures Part1SingleRange(1698522, 1698528) == 0
  {
    assert Pow10(2) == 100;
    NumDigitsOf(11, 2);
    NumDigitsOf(22, 2);
    assert RangeStart(11) == 1 && RangeEnd(22) == 2;
    assert Pow10(3) == 1000;
    assert Pow10(6) == 1000000;
    assert Pow10(7) == 10000000;
    NumDigitsOf(1698522, 7);
    NumDigitsOf(1698528, 7);
    assert RangeStart(1698522) == 1000 && RangeEnd(1698528) == 999;
  }

  /** The identifiers of a range (02.rs:1-11), both at least 1 for part 1. */
  predicate Positive(data: seq<(nat, nat)>) {
    forall i :: 0 <= i < |data| ==> data[i].0 >= 1 && data[i].1 >= 1
  }

  /** `part1`: the per-range sums, added up. */
  function Part1(data: seq<(nat, nat)>): nat
    requires Positive(data)
  {
    if data == [] then 0
    else
      var last := data[|data| - 1];
      Part1(data[..|data| - 1]) + Part1SingleRange(last.0, last.1)
  }

  // ---------------------------------------------------------------------
  // `part2_is_repeating` (02.rs:60-75)
  // ---------------------------------------------------------------------

  /** `t` written `n` times. */
  function Repeat(t: string, n: nat): (r: string)
    ensures |r| == n * |t|
  {
    if n == 0 then [] else Repeat(t, n - 1) + t
  }

  /** The first `c` copies begin every longer repetition. */
  lemma {:induction false} RepeatPrefix(t: string, c: nat, m: nat)
    requires c <= m
    ensures Repeat(t, m)[..c * |t|] == Repeat(t, c)
  {
    if c < m {
      RepeatPrefix(t, c, m - 1);
      MulLe(c, m - 1, |t|);
    }
  }

  /** `s` cut into chunks of `len` has every chunk equal to the first. */
  predicate Periodic(s: string, len: nat) {
    1 <= len <= |s| && |s| % len == 0 && s == Repeat(s[..len], |s| / len)
  }

  /** Some chunk length of at most half the string makes it periodic. */
  predicate Repeating(s: string) {
    exists len: nat :: 1 <= len <= |s| / 2 && Periodic(s, len)
  }

  lemma MulDiv(c: nat, len: nat)
    requires len >= 1
    ensures c * len / len == c && c * len % len == 0
  {
    var q := c * len / len;
    assert c * len == q * len + c * len % len;
    MulLe(q + 1, c, len);
    MulLe(c + 1, q, len);
  }

  /** In a periodic string, every chunk starting at a multiple of `len` is the first chunk. */
  lemma PeriodicChunk(s: string, len: nat, c: nat)
    ensures Periodic(s, len) && (c + 1) * len <= |s| ==> s[c * len..(c + 1) * len] == s[..len]
  {
    if Periodic(s, len) && (c + 1) * len <= |s| {
      var t, m := s[..len], |s| / len;
      assert |s| == m * len;
      RepeatPrefix(t, c + 1, m);
      assert s[..(c + 1) * len] == Repeat(t, c) + t;
    }
  }

  /** After `c` chunks of `len` within a string of a multiple of `len` characters, another fits. */
  lemma NextChunkFits(n: nat, len: nat, c: nat)
    requires len >= 1 && n % len == 0 && c * len < n
    ensures (c + 1) * len <= n
  {
    var m := n / len;
    assert n == m * len;
    MulLe(m, c, len);
    MulLe(c + 1, m, len);
  }

  /** `chunks.all(|chunk| first_chunk == chunk)`: whether every chunk of `len` equals the first. */
  method ChunksMatch(s: string, len: nat) returns (matched: bool)
    requires 1 <= len <= |s| && |s| % len == 0
    ensures matched <==> Periodic(s, len)
  {
    var first := s[..len];
    var start := len;
    ghost var c := 1;
    matched := true;
    while matched && start < |s|
      invariant start == c * len <= |s|
      invariant matched ==> s[..start] == Repeat(first, c)
      invariant !matched ==> !Periodic(s, len)
      decreases |s| - start, matched
    {
      NextChunkFits(|s|, len, c);
      if s[start..start + len] == first {
        assert s[..start + len] == s[..start] + s[start..start + len];
        start := start + len;
        c := c + 1;
      } else {
        PeriodicChunk(s, len, c);
        matched := false;
      }
    }
    if matched {
      MulDiv(c, len);
      assert s[..start] == s;
    }
  }

  /**
   * `part2_is_repeating`: tries every chunk length up to half the decimal
   * string that divides its length, and answers true at the first whose
   * chunks all equal the first chunk.
   */
  method IsRepeating(x: nat) returns (result: bool)
    ensures result <==> Repeating(Decimal(x))
  {
    var s := Decimal(x);
    for len := 1 to |s| / 2 + 1
      invariant forall l :: 1 <= l < len ==> !Periodic(s, l)
    {
      if |s| % len != 0 {
        continue;
      }
      var matched := ChunksMatch(s, len);
      if matched {
        return true;
      }
    }
    return false;
  }

  /** Every double is repeating: its string is two equal chunks. */
  lemma DoubleIsRepeating(k: nat)
    requires k >= 1
    ensures Repeating(Decimal(Double(k)))
  {
    DoubleDecimal(k);
    var t := Decimal(k);
    var s := t + t;
    assert s[..|t|] == t;
    assert Repeat(t, 2) == Repeat(t, 1) + t == t + t;
    MulDiv(2, |t|);
    assert Periodic(s, |t|);
  }

  // ---------------------------------------------------------------------
  // `part2_range_sum_invalid` and `part2` (02.rs:77-87)
  // ---------------------------------------------------------------------

  /** `part2_range_sum_invalid`: the sum of the repeating identifiers in `[a, b]`. */
  function RangeSumInvalid(a: int, b: int): nat
    decreases b - a
  {
    if b < a || b < 0 then 0 else RangeSumInvalid(a, b - 1) + (if Repeating(Decimal(b)) then b else 0)
  }

  /** What part 1 adds over a range, part 2 adds too. */
  lemma {:induction false} DoublesInAtMost(a: int, b: int)
    ensures DoublesIn(a, b) <= RangeSumInvalid(a, b)
    decreases b - a
  {
    if !(b < a || b < 0) {
      DoublesInAtMost(a, b - 1);
      if IsDouble(b) {
        var k: nat :| 1 <= k <= b && Double(k) == b;
        DoubleIsRepeating(k);
      }
    }
  }

  /** Every repeating identifier of the range is part of the sum. */
  lemma {:induction false} RangeSumInvalidHas(a: int, b: int, x: nat)
    requires a <= x <= b && Repeating(Decimal(x))
    ensures RangeSumInvalid(a, b) >= x
    decreases b - a
  {
    if x < b {
      RangeSumInvalidHas(a, b - 1, x);
    }
  }

  /** Two repeating identifiers of the range are both part of the sum. */
  lemma {:induction false} RangeSumInvalidHasBoth(a: int, b: int, x: nat, y: nat)
    requires a <= x < y <= b && Repeating(Decimal(x)) && Repeating(Decimal(y))
    ensures RangeSumInvalid(a, b) >= x + y
    decreases b - a
  {
    if y < b {
      RangeSumInvalidHasBoth(a, b - 1, x, y);
    } else {
      RangeSumInvalidHas(a, b - 1, x);
    }
  }

  /** `part2`: the per-range sums, added up. */
  function Part2(data: seq<(nat, nat)>): nat {
    if data == [] then 0
    else
      var last := data[|data| - 1];
      Part2(data[..|data| - 1]) + RangeSumInvalid(last.0, last.1)
  }

  /** Part 1's answer never exceeds part 2's. */
  lemma {:induction false} Part1AtMostPart2(data: seq<(nat, nat)>)
    requires Positive(data)
    ensures Part1(data) <= Part2(data)
  {
    if data != [] {
      var last := data[|data| - 1];
      Part1AtMostPart2(data[..|data| - 1]);
      Part1SingleRangeSumsDoubles(last.0, last.1);
      DoublesInAtMost(last.0, last.1);
    }
  }
}
