/**
 * The literal checks of the tests of 02.rs, restated as lemmas about the
 * model: which identifiers `part2_is_repeating` accepts and what
 * `part2_range_sum_invalid` adds up over the test ranges.
 */
module Day02Examples {
  import opened Day02

  /** One more digit on the right of a decimal string. */
  lemma DecimalStep(q: nat, d: nat)
    requires q >= 1 && d < 10
    ensures Decimal(10 * q + d) == Decimal(q) + [DigitChar(d)]
  {
    DivMod10(q, d);
  }

  /** A chunk that differs from the first rules out a period. */
  lemma NotPeriodic(s: string, len: nat, c: nat)
    requires (c + 1) * len <= |s| && s[c * len..(c + 1) * len] != s[..len]
    ensures !Periodic(s, len)
  {
    PeriodicChunk(s, len, c);
  }

  /** A character that differs from its place in the first chunk rules out a period. */
  lemma NotPeriodicAt(s: string, len: nat, c: nat, i: nat)
    requires i < len && (c + 1) * len <= |s| && s[c * len + i] != s[i]
    ensures !Periodic(s, len)
  {
    assert s[c * len..(c + 1) * len][i] == s[c * len + i];
    NotPeriodic(s, len, c);
  }

  lemma DigitCharInjective(a: nat, b: nat)
    requires a < 10 && b < 10
    ensures DigitChar(a) == DigitChar(b) <==> a == b
  {
  }

  /** A two-digit identifier repeats exactly when its two digits agree. */
  lemma TwoDigitRepeating(n: nat)
    requires 10 <= n < 100
    ensures Repeating(Decimal(n)) <==> n / 10 == n % 10
  {
    var s := Decimal(n);
    assert Decimal(n / 10) == [DigitChar(n / 10)];
    assert s == [DigitChar(n / 10), DigitChar(n % 10)];
    DigitCharInjective(n / 10, n % 10);
    assert Repeat(s[..1], 2) == [s[0], s[0]];
    if Repeating(s) {
      var len: nat :| 1 <= len <= |s| / 2 && Periodic(s, len);
      assert len == 1;
    } else {
      assert !Periodic(s, 1);
    }
  }

  /** A three-digit identifier repeats exactly when its three digits agree. */
  lemma ThreeDigitRepeating(n: nat)
    requires 100 <= n < 1000
    ensures Repeating(Decimal(n)) <==> n / 100 == n / 10 % 10 == n % 10
  {
    var s := Decimal(n);
    assert Decimal(n / 10) == [DigitChar(n / 100), DigitChar(n / 10 % 10)];
    assert s == [DigitChar(n / 100), DigitChar(n / 10 % 10), DigitChar(n % 10)];
    DigitCharInjective(n / 100, n / 10 % 10);
    DigitCharInjective(n / 10 % 10, n % 10);
    assert Repeat(s[..1], 2) == [s[0], s[0]];
    assert Repeat(s[..1], 3) == [s[0], s[0], s[0]];
    if Repeating(s) {
      var len: nat :| 1 <= len <= |s| / 2 && Periodic(s, len);
      assert len == 1;
    } else {
      assert !Periodic(s, 1);
    }
  }

  /** A four-digit identifier repeats exactly when its two halves agree. */
  lemma FourDigitRepeating(n: nat)
    requires 1000 <= n < 10000
    ensures Repeating(Decimal(n)) <==> n / 100 == n % 100
  {
    var s := Decimal(n);
    assert Decimal(n / 100) == [DigitChar(n / 1000), DigitChar(n / 100 % 10)];
    assert Decimal(n / 10) == [DigitChar(n / 1000), DigitChar(n / 100 % 10), DigitChar(n / 10 % 10)];
    assert s == [DigitChar(n / 1000), DigitChar(n / 100 % 10), DigitChar(n / 10 % 10), DigitChar(n % 10)];
    DigitCharInjective(n / 1000, n / 10 % 10);
    DigitCharInjective(n / 100 % 10, n % 10);
    assert Repeat(s[..2], 1) == s[..2];
    assert Repeat(s[..2], 2) == [s[0], s[1], s[0], s[1]];
    assert Repeat(s[..1], 2) == [s[0], s[0]];
    assert Repeat(s[..1], 3) == [s[0], s[0], s[0]];
    assert Repeat(s[..1], 4) == [s[0], s[0], s[0], s[0]];
    assert n / 100 == 10 * (n / 1000) + n / 100 % 10;
    assert n % 100 == 10 * (n / 10 % 10) + n % 10;
    if Repeating(s) {
      var len: nat :| 1 <= len <= |s| / 2 && Periodic(s, len);
      assert len == 1 || len == 2;
      if len == 1 {
        assert s == [s[0], s[0], s[0], s[0]];
      }
    } else {
      assert !Periodic(s, 2);
    }
  }

  // ---------------------------------------------------------------------
  // `test_is_invalid_part2` (02.rs:134-143)
  // ---------------------------------------------------------------------

  // For each identifier `n`: `Decimal<n>` evaluates `to_string` one digit at a
  // time, `Repeating<n>` gives a chunk length that makes the string a repetition,
  // and `NotRepeating<n>` rules out every chunk length by a chunk that differs
  // from the first.

  lemma Decimal12341234()
    ensures Decimal(12341234) == "12341234"
  {
    DecimalStep(1, 2);
    DecimalStep(12, 3);
    DecimalStep(123, 4);
    DecimalStep(1234, 1);
    DecimalStep(12341, 2);
    DecimalStep(123412, 3);
    DecimalStep(1234123, 4);
  }

  lemma Repeating12341234()
    ensures Repeating("12341234")
  {
    assert Repeat("1234", 1) == "1234";
    assert Repeat("1234", 2) == "12341234";
    assert Periodic("12341234", 4);
  }

  lemma Decimal123123123()
    ensures Decimal(123123123) == "123123123"
  {
    DecimalStep(1, 2);
    DecimalStep(12, 3);
    DecimalStep(123, 1);
    DecimalStep(1231, 2);
    DecimalStep(12312, 3);
    DecimalStep(123123, 1);
    DecimalStep(1231231, 2);
    DecimalStep(12312312, 3);
  }

  lemma Repeating123123123()
    ensures Repeating("123123123")
  {
    assert Repeat("123", 1) == "123";
    assert Repeat("123", 2) == "123123";
    assert Repeat("123", 3) == "123123123";
    assert Periodic("123123123", 3);
  }

  lemma Decimal1212121212()
    ensures Decimal(1212121212) == "1212121212"
  {
    DecimalStep(1, 2);
    DecimalStep(12, 1);
    DecimalStep(121, 2);
    DecimalStep(1212, 1);
    DecimalStep(12121, 2);
    DecimalStep(121212, 1);
    DecimalStep(1212121, 2);
    DecimalStep(12121212, 1);
    DecimalStep(121212121, 2);
  }

  lemma Repeating1212121212()
    ensures Repeating("1212121212")
  {
    assert Repeat("12", 1) == "12";
    assert Repeat("12", 2) == "1212";
    assert Repeat("12", 3) == "121212";
    assert Repeat("12", 4) == "12121212";
    assert Repeat("12", 5) == "1212121212";
    assert Periodic("1212121212", 2);
  }

  lemma Decimal1111111()
    ensures Decimal(1111111) == "1111111"
  {
    DecimalStep(1, 1);
    DecimalStep(11, 1);
    DecimalStep(111, 1);
    DecimalStep(1111, 1);
    DecimalStep(11111, 1);
    DecimalStep(111111, 1);
  }

  lemma Repeating1111111()
    ensures Repeating("1111111")
  {
    assert Repeat("1", 1) == "1";
    assert Repeat("1", 2) == "11";
    assert Repeat("1", 3) == "111";
    assert Repeat("1", 4) == "1111";
    assert Repeat("1", 5) == "11111";
    assert Repeat("1", 6) == "111111";
    assert Repeat("1", 7) == "1111111";
    assert Periodic("1111111", 1);
  }

  lemma Decimal12312312()
    ensures Decimal(12312312) == "12312312"
  {
    DecimalStep(1, 2);
    DecimalStep(12, 3);
    DecimalStep(123, 1);
    DecimalStep(1231, 2);
    DecimalStep(12312, 3);
    DecimalStep(123123, 1);
    DecimalStep(1231231, 2);
  }

  lemma NotRepeating12312312()
    ensures !Repeating("12312312")
  {
    forall len | 1 <= len <= 4
      ensures !Periodic("12312312", len)
    {
      if len == 1 {
        assert "12312312"[1..2] == "2" && "12312312"[..1] == "1";
        NotPeriodic("12312312", 1, 1);
      } else if len == 2 {
        assert "12312312"[2..4] == "31" && "12312312"[..2] == "12";
        NotPeriodic("12312312", 2, 1);
      } else if len == 4 {
        assert "12312312"[4..8] == "2312" && "12312312"[..4] == "1231";
        NotPeriodic("12312312", 4, 1);
      }
    }
  }

  lemma Decimal11118111()
    ensures Decimal(11118111) == "11118111"
  {
    DecimalStep(1, 1);
    DecimalStep(11, 1);
    DecimalStep(111, 1);
    DecimalStep(1111, 8);
    DecimalStep(11118, 1);
    DecimalStep(111181, 1);
    DecimalStep(1111811, 1);
  }

  lemma NotRepeating11118111()
    ensures !Repeating("11118111")
  {
    forall len | 1 <= len <= 4
      ensures !Periodic("11118111", len)
    {
      if len == 1 {
        assert "11118111"[4..5] == "8" && "11118111"[..1] == "1";
        NotPeriodic("11118111", 1, 4);
      } else if len == 2 {
        assert "11118111"[4..6] == "81" && "11118111"[..2] == "11";
        NotPeriodic("11118111", 2, 2);
      } else if len == 4 {
        assert "11118111"[4..8] == "8111" && "11118111"[..4] == "1111";
        NotPeriodic("11118111", 4, 1);
      }
    }
  }

  lemma Decimal12()
    ensures Decimal(12) == "12"
  {
    DecimalStep(1, 2);
  }

  lemma NotRepeating12()
    ensures !Repeating("12")
  {
    forall len | 1 <= len <= 1
      ensures !Periodic("12", len)
    {
      if len == 1 {
        assert "12"[1..2] == "2" && "12"[..1] == "1";
        NotPeriodic("12", 1, 1);
      }
    }
  }

  /** The answers `test_is_invalid_part2` expects of `part2_is_repeating`. */
  lemma IsRepeatingExamples()
    ensures Repeating(Decimal(12341234))
    ensures Repeating(Decimal(123123123))
    ensures Repeating(Decimal(1212121212))
    ensures Repeating(Decimal(1111111))
    ensures !Repeating(Decimal(12312312))
    ensures !Repeating(Decimal(11118111))
    ensures !Repeating(Decimal(12))
  {
    Decimal12341234(); Repeating12341234();
    Decimal123123123(); Repeating123123123();
    Decimal1212121212(); Repeating1212121212();
    Decimal1111111(); Repeating1111111();
    Decimal12312312(); NotRepeating12312312();
    Decimal11118111(); NotRepeating11118111();
    Decimal12(); NotRepeating12();
  }

  // ---------------------------------------------------------------------
  // `test_part2_range_sum_invalid` (02.rs:146-159)
  // ---------------------------------------------------------------------

  // Each range is summed a few identifiers at a time. Identifiers of two to four
  // digits are decided by the digit lemmas above. Of a longer identifier `10q + d`,
  // `NotRepeatingAfter<q>` rules out a repetition for every last digit `d` but
  // those that make one.

  lemma Range11Upto16()
    ensures RangeSumInvalid(11, 16) == 11
  {
    assert RangeSumInvalid(11, 10) == 0;
    TwoDigitRepeating(11);
    assert RangeSumInvalid(11, 11) == 11;
    TwoDigitRepeating(12);
    assert RangeSumInvalid(11, 12) == 11;
    TwoDigitRepeating(13);
    assert RangeSumInvalid(11, 13) == 11;
    TwoDigitRepeating(14);
    assert RangeSumInvalid(11, 14) == 11;
    TwoDigitRepeating(15);
    assert RangeSumInvalid(11, 15) == 11;
    TwoDigitRepeating(16);
    assert RangeSumInvalid(11, 16) == 11;
  }

  lemma Range11Upto22()
    ensures RangeSumInvalid(11, 22) == 33
  {
    Range11Upto16();
    TwoDigitRepeating(17);
    assert RangeSumInvalid(11, 17) == 11;
    TwoDigitRepeating(18);
    assert RangeSumInvalid(11, 18) == 11;
    TwoDigitRepeating(19);
    assert RangeSumInvalid(11, 19) == 11;
    TwoDigitRepeating(20);
    assert RangeSumInvalid(11, 20) == 11;
    TwoDigitRepeating(21);
    assert RangeSumInvalid(11, 21) == 11;
    TwoDigitRepeating(22);
    assert RangeSumInvalid(11, 22) == 33;
  }

  lemma Range95Upto100()
    ensures RangeSumInvalid(95, 100) == 99
  {
    assert RangeSumInvalid(95, 94) == 0;
    TwoDigitRepeating(95);
    assert RangeSumInvalid(95, 95) == 0;
    TwoDigitRepeating(96);
    assert RangeSumInvalid(95, 96) == 0;
    TwoDigitRepeating(97);
    assert RangeSumInvalid(95, 97) == 0;
    TwoDigitRepeating(98);
    assert RangeSumInvalid(95, 98) == 0;
    TwoDigitRepeating(99);
    assert RangeSumInvalid(95, 99) == 99;
    ThreeDigitRepeating(100);
    assert RangeSumInvalid(95, 100) == 99;
  }

  lemma Range95Upto106()
    ensures RangeSumInvalid(95, 106) == 99
  {
    Range95Upto100();
    ThreeDigitRepeating(101);
    assert RangeSumInvalid(95, 101) == 99;
    ThreeDigitRepeating(102);
    assert RangeSumInvalid(95, 102) == 99;
    ThreeDigitRepeating(103);
    assert RangeSumInvalid(95, 103) == 99;
    ThreeDigitRepeating(104);
    assert RangeSumInvalid(95, 104) == 99;
    ThreeDigitRepeating(105);
    assert RangeSumInvalid(95, 105) == 99;
    ThreeDigitRepeating(106);
    assert RangeSumInvalid(95, 106) == 99;
  }

  lemma Range95Upto112()
    ensures RangeSumInvalid(95, 112) == 210
  {
    Range95Upto106();
    ThreeDigitRepeating(107);
    assert RangeSumInvalid(95, 107) == 99;
    ThreeDigitRepeating(108);
    assert RangeSumInvalid(95, 108) == 99;
    ThreeDigitRepeating(109);
    assert RangeSumInvalid(95, 109) == 99;
    ThreeDigitRepeating(110);
    assert RangeSumInvalid(95, 110) == 99;
    ThreeDigitRepeating(111);
    assert RangeSumInvalid(95, 111) == 210;
    ThreeDigitRepeating(112);
    assert RangeSumInvalid(95, 112) == 210;
  }

  lemma Range95Upto115()
    ensures RangeSumInvalid(95, 115) == 210
  {
    Range95Upto112();
    ThreeDigitRepeating(113);
    assert RangeSumInvalid(95, 113) == 210;
    ThreeDigitRepeating(114);
    assert RangeSumInvalid(95, 114) == 210;
    ThreeDigitRepeating(115);
    assert RangeSumInvalid(95, 115) == 210;
  }

  lemma Range998Upto1003()
    ensures RangeSumInvalid(998, 1003) == 999
  {
    assert RangeSumInvalid(998, 997) == 0;
    ThreeDigitRepeating(998);
    assert RangeSumInvalid(998, 998) == 0;
    ThreeDigitRepeating(999);
    assert RangeSumInvalid(998, 999) == 999;
    FourDigitRepeating(1000);
    assert RangeSumInvalid(998, 1000) == 999;
    FourDigitRepeating(1001);
    assert RangeSumInvalid(998, 1001) == 999;
    FourDigitRepeating(1002);
    assert RangeSumInvalid(998, 1002) == 999;
    FourDigitRepeating(1003);
    assert RangeSumInvalid(998, 1003) == 999;
  }

  lemma Range998Upto1009()
    ensures RangeSumInvalid(998, 1009) == 999
  {
    Range998Upto1003();
    FourDigitRepeating(1004);
    assert RangeSumInvalid(998, 1004) == 999;
    FourDigitRepeating(1005);
    assert RangeSumInvalid(998, 1005) == 999;
    FourDigitRepeating(1006);
    assert RangeSumInvalid(998, 1006) == 999;
    FourDigitRepeating(1007);
    assert RangeSumInvalid(998, 1007) == 999;
    FourDigitRepeating(1008);
    assert RangeSumInvalid(998, 1008) == 999;
    FourDigitRepeating(1009);
    assert RangeSumInvalid(998, 1009) == 999;
  }

  lemma Range998Upto1012()
    ensures RangeSumInvalid(998, 1012) == 2009
  {
    Range998Upto1009();
    FourDigitRepeating(1010);
    assert RangeSumInvalid(998, 1010) == 2009;
    FourDigitRepeating(1011);
    assert RangeSumInvalid(998, 1011) == 2009;
    FourDigitRepeating(1012);
    assert RangeSumInvalid(998, 1012) == 2009;
  }

  lemma Decimal118851188()
    ensures Decimal(118851188) == "118851188"
  {
    DecimalStep(1, 1);
    DecimalStep(11, 8);
    DecimalStep(118, 8);
    DecimalStep(1188, 5);
    DecimalStep(11885, 1);
    DecimalStep(118851, 1);
    DecimalStep(1188511, 8);
    DecimalStep(11885118, 8);
  }

  lemma NotRepeatingAfter118851188(d: nat)
    requires d < 10 && d != 5
    ensures !Repeating("118851188" + [DigitChar(d)])
  {
    var s := "118851188" + [DigitChar(d)];
    forall len | 1 <= len <= 5
      ensures !Periodic(s, len)
    {
      if len == 1 {
        NotPeriodicAt(s, 1, 2, 0);
      } else if len == 2 {
        NotPeriodicAt(s, 2, 1, 0);
      } else if len == 5 {
        NotPeriodicAt(s, 5, 1, 4);
      }
    }
  }

  lemma Decimal1188511885()
    ensures Decimal(1188511885) == "1188511885"
  {
    Decimal118851188();
    DecimalStep(118851188, 5);
  }

  lemma Repeating1188511885()
    ensures Repeating("1188511885")
  {
    assert Repeat("11885", 1) == "11885";
    assert Repeat("11885", 2) == "1188511885";
    assert Periodic("1188511885", 5);
  }

  lemma Decimal118851189()
    ensures Decimal(118851189) == "118851189"
  {
    DecimalStep(1, 1);
    DecimalStep(11, 8);
    DecimalStep(118, 8);
    DecimalStep(1188, 5);
    DecimalStep(11885, 1);
    DecimalStep(118851, 1);
    DecimalStep(1188511, 8);
    DecimalStep(11885118, 9);
  }

  lemma NotRepeatingAfter118851189(d: nat)
    requires d < 10
    ensures !Repeating("118851189" + [DigitChar(d)])
  {
    var s := "118851189" + [DigitChar(d)];
    forall len | 1 <= len <= 5
      ensures !Periodic(s, len)
    {
      if len == 1 {
        NotPeriodicAt(s, 1, 2, 0);
      } else if len == 2 {
        NotPeriodicAt(s, 2, 1, 0);
      } else if len == 5 {
        NotPeriodicAt(s, 5, 1, 3);
      }
    }
  }

  lemma Range1188511880Upto1188511885()
    ensures RangeSumInvalid(1188511880, 1188511885) == 1188511885
  {
    assert RangeSumInvalid(1188511880, 1188511879) == 0;
    Decimal118851188(); DecimalStep(118851188, 0); NotRepeatingAfter118851188(0);
    assert RangeSumInvalid(1188511880, 1188511880) == 0;
    Decimal118851188(); DecimalStep(118851188, 1); NotRepeatingAfter118851188(1);
    assert RangeSumInvalid(1188511880, 1188511881) == 0;
    Decimal118851188(); DecimalStep(118851188, 2); NotRepeatingAfter118851188(2);
    assert RangeSumInvalid(1188511880, 1188511882) == 0;
    Decimal118851188(); DecimalStep(118851188, 3); NotRepeatingAfter118851188(3);
    assert RangeSumInvalid(1188511880, 1188511883) == 0;
    Decimal118851188(); DecimalStep(118851188, 4); NotRepeatingAfter118851188(4);
    assert RangeSumInvalid(1188511880, 1188511884) == 0;
    Decimal1188511885(); Repeating1188511885();
    assert RangeSumInvalid(1188511880, 1188511885) == 1188511885;
  }

  lemma Range1188511880Upto1188511890()
    ensures RangeSumInvalid(1188511880, 1188511890) == 1188511885
  {
    Range1188511880Upto1188511885();
    Decimal118851188(); DecimalStep(118851188, 6); NotRepeatingAfter118851188(6);
    assert RangeSumInvalid(1188511880, 1188511886) == 1188511885;
    Decimal118851188(); DecimalStep(118851188, 7); NotRepeatingAfter118851188(7);
    assert RangeSumInvalid(1188511880, 1188511887) == 1188511885;
    Decimal118851188(); DecimalStep(118851188, 8); NotRepeatingAfter118851188(8);
    assert RangeSumInvalid(1188511880, 1188511888) == 1188511885;
    Decimal118851188(); DecimalStep(118851188, 9); NotRepeatingAfter118851188(9);
    assert RangeSumInvalid(1188511880, 1188511889) == 1188511885;
    Decimal118851189(); DecimalStep(118851189, 0); NotRepeatingAfter118851189(0);
    assert RangeSumInvalid(1188511880, 1188511890) == 1188511885;
  }

  lemma Decimal22222()
    ensures Decimal(22222) == "22222"
  {
    DecimalStep(2, 2);
    DecimalStep(22, 2);
    DecimalStep(222, 2);
    DecimalStep(2222, 2);
  }

  lemma NotRepeatingAfter22222(d: nat)
    requires d < 10 && d != 2
    ensures !Repeating("22222" + [DigitChar(d)])
  {
    var s := "22222" + [DigitChar(d)];
    forall len | 1 <= len <= 3
      ensures !Periodic(s, len)
    {
      if len == 1 {
        NotPeriodicAt(s, 1, 5, 0);
      } else if len == 2 {
        NotPeriodicAt(s, 2, 2, 1);
      } else if len == 3 {
        NotPeriodicAt(s, 3, 1, 2);
      }
    }
  }

  lemma Decimal222222()
    ensures Decimal(222222) == "222222"
  {
    Decimal22222();
    DecimalStep(22222, 2);
  }

  lemma Repeating222222()
    ensures Repeating("222222")
  {
    assert Repeat("2", 1) == "2";
    assert Repeat("2", 2) == "22";
    assert Repeat("2", 3) == "222";
    assert Repeat("2", 4) == "2222";
    assert Repeat("2", 5) == "22222";
    assert Repeat("2", 6) == "222222";
    assert Periodic("222222", 1);
  }

  lemma Range222220Upto222224()
    ensures RangeSumInvalid(222220, 222224) == 222222
  {
    assert RangeSumInvalid(222220, 222219) == 0;
    Decimal22222(); DecimalStep(22222, 0); NotRepeatingAfter22222(0);
    assert RangeSumInvalid(222220, 222220) == 0;
    Decimal22222(); DecimalStep(22222, 1); NotRepeatingAfter22222(1);
    assert RangeSumInvalid(222220, 222221) == 0;
    Decimal222222(); Repeating222222();
    assert RangeSumInvalid(222220, 222222) == 222222;
    Decimal22222(); DecimalStep(22222, 3); NotRepeatingAfter22222(3);
    assert RangeSumInvalid(222220, 222223) == 222222;
    Decimal22222(); DecimalStep(22222, 4); NotRepeatingAfter22222(4);
    assert RangeSumInvalid(222220, 222224) == 222222;
  }

  lemma Decimal169852()
    ensures Decimal(169852) == "169852"
  {
    DecimalStep(1, 6);
    DecimalStep(16, 9);
    DecimalStep(169, 8);
    DecimalStep(1698, 5);
    DecimalStep(16985, 2);
  }

  lemma NotRepeatingAfter169852(d: nat)
    requires d < 10
    ensures !Repeating("169852" + [DigitChar(d)])
  {
    var s := "169852" + [DigitChar(d)];
    forall len | 1 <= len <= 3
      ensures !Periodic(s, len)
    {
      if len == 1 {
        NotPeriodicAt(s, 1, 1, 0);
      }
    }
  }

  lemma Range1698522Upto1698527()
    ensures RangeSumInvalid(1698522, 1698527) == 0
  {
    assert RangeSumInvalid(1698522, 1698521) == 0;
    Decimal169852(); DecimalStep(169852, 2); NotRepeatingAfter169852(2);
    assert RangeSumInvalid(1698522, 1698522) == 0;
    Decimal169852(); DecimalStep(169852, 3); NotRepeatingAfter169852(3);
    assert RangeSumInvalid(1698522, 1698523) == 0;
    Decimal169852(); DecimalStep(169852, 4); NotRepeatingAfter169852(4);
    assert RangeSumInvalid(1698522, 1698524) == 0;
    Decimal169852(); DecimalStep(169852, 5); NotRepeatingAfter169852(5);
    assert RangeSumInvalid(1698522, 1698525) == 0;
    Decimal169852(); DecimalStep(169852, 6); NotRepeatingAfter169852(6);
    assert RangeSumInvalid(1698522, 1698526) == 0;
    Decimal169852(); DecimalStep(169852, 7); NotRepeatingAfter169852(7);
    assert RangeSumInvalid(1698522, 1698527) == 0;
  }

  lemma Range1698522Upto1698528()
    ensures RangeSumInvalid(1698522, 1698528) == 0
  {
    Range1698522Upto1698527();
    Decimal169852(); DecimalStep(169852, 8); NotRepeatingAfter169852(8);
    assert RangeSumInvalid(1698522, 1698528) == 0;
  }

  lemma Decimal44644()
    ensures Decimal(44644) == "44644"
  {
    DecimalStep(4, 4);
    DecimalStep(44, 6);
    DecimalStep(446, 4);
    DecimalStep(4464, 4);
  }

  lemma NotRepeatingAfter44644(d: nat)
    requires d < 10 && d != 6
    ensures !Repeating("44644" + [DigitChar(d)])
  {
    var s := "44644" + [DigitChar(d)];
    forall len | 1 <= len <= 3
      ensures !Periodic(s, len)
    {
      if len == 1 {
        NotPeriodicAt(s, 1, 2, 0);
      } else if len == 2 {
        NotPeriodicAt(s, 2, 1, 0);
      } else if len == 3 {
        NotPeriodicAt(s, 3, 1, 2);
      }
    }
  }

  lemma Decimal446446()
    ensures Decimal(446446) == "446446"
  {
    Decimal44644();
    DecimalStep(44644, 6);
  }

  lemma Repeating446446()
    ensures Repeating("446446")
  {
    assert Repeat("446", 1) == "446";
    assert Repeat("446", 2) == "446446";
    assert Periodic("446446", 3);
  }

  lemma Range446443Upto446448()
    ensures RangeSumInvalid(446443, 446448) == 446446
  {
    assert RangeSumInvalid(446443, 446442) == 0;
    Decimal44644(); DecimalStep(44644, 3); NotRepeatingAfter44644(3);
    assert RangeSumInvalid(446443, 446443) == 0;
    Decimal44644(); DecimalStep(44644, 4); NotRepeatingAfter44644(4);
    assert RangeSumInvalid(446443, 446444) == 0;
    Decimal44644(); DecimalStep(44644, 5); NotRepeatingAfter44644(5);
    assert RangeSumInvalid(446443, 446445) == 0;
    Decimal446446(); Repeating446446();
    assert RangeSumInvalid(446443, 446446) == 446446;
    Decimal44644(); DecimalStep(44644, 7); NotRepeatingAfter44644(7);
    assert RangeSumInvalid(446443, 446447) == 446446;
    Decimal44644(); DecimalStep(44644, 8); NotRepeatingAfter44644(8);
    assert RangeSumInvalid(446443, 446448) == 446446;
  }

  lemma Range446443Upto446449()
    ensures RangeSumInvalid(446443, 446449) == 446446
  {
    Range446443Upto446448();
    Decimal44644(); DecimalStep(44644, 9); NotRepeatingAfter44644(9);
    assert RangeSumInvalid(446443, 446449) == 446446;
  }

  lemma Decimal3859385()
    ensures Decimal(3859385) == "3859385"
  {
    DecimalStep(3, 8);
    DecimalStep(38, 5);
    DecimalStep(385, 9);
    DecimalStep(3859, 3);
    DecimalStep(38593, 8);
    DecimalStep(385938, 5);
  }

  lemma NotRepeatingAfter3859385(d: nat)
    requires d < 10 && d != 9
    ensures !Repeating("3859385" + [DigitChar(d)])
  {
    var s := "3859385" + [DigitChar(d)];
    forall len | 1 <= len <= 4
      ensures !Periodic(s, len)
    {
      if len == 1 {
        NotPeriodicAt(s, 1, 1, 0);
      } else if len == 2 {
        NotPeriodicAt(s, 2, 1, 0);
      } else if len == 4 {
        NotPeriodicAt(s, 4, 1, 3);
      }
    }
  }

  lemma Decimal38593859()
    ensures Decimal(38593859) == "38593859"
  {
    Decimal3859385();
    DecimalStep(3859385, 9);
  }

  lemma Repeating38593859()
    ensures Repeating("38593859")
  {
    assert Repeat("3859", 1) == "3859";
    assert Repeat("3859", 2) == "38593859";
    assert Periodic("38593859", 4);
  }

  lemma Decimal3859386()
    ensures Decimal(3859386) == "3859386"
  {
    DecimalStep(3, 8);
    DecimalStep(38, 5);
    DecimalStep(385, 9);
    DecimalStep(3859, 3);
    DecimalStep(38593, 8);
    DecimalStep(385938, 6);
  }

  lemma NotRepeatingAfter3859386(d: nat)
    requires d < 10
    ensures !Repeating("3859386" + [DigitChar(d)])
  {
    var s := "3859386" + [DigitChar(d)];
    forall len | 1 <= len <= 4
      ensures !Periodic(s, len)
    {
      if len == 1 {
        NotPeriodicAt(s, 1, 1, 0);
      } else if len == 2 {
        NotPeriodicAt(s, 2, 1, 0);
      } else if len == 4 {
        NotPeriodicAt(s, 4, 1, 2);
      }
    }
  }

  lemma Range38593856Upto38593861()
    ensures RangeSumInvalid(38593856, 38593861) == 38593859
  {
    assert RangeSumInvalid(38593856, 38593855) == 0;
    Decimal3859385(); DecimalStep(3859385, 6); NotRepeatingAfter3859385(6);
    assert RangeSumInvalid(38593856, 38593856) == 0;
    Decimal3859385(); DecimalStep(3859385, 7); NotRepeatingAfter3859385(7);
    assert RangeSumInvalid(38593856, 38593857) == 0;
    Decimal3859385(); DecimalStep(3859385, 8); NotRepeatingAfter3859385(8);
    assert RangeSumInvalid(38593856, 38593858) == 0;
    Decimal38593859(); Repeating38593859();
    assert RangeSumInvalid(38593856, 38593859) == 38593859;
    Decimal3859386(); DecimalStep(3859386, 0); NotRepeatingAfter3859386(0);
    assert RangeSumInvalid(38593856, 38593860) == 38593859;
    Decimal3859386(); DecimalStep(3859386, 1); NotRepeatingAfter3859386(1);
    assert RangeSumInvalid(38593856, 38593861) == 38593859;
  }

  lemma Range38593856Upto38593862()
    ensures RangeSumInvalid(38593856, 38593862) == 38593859
  {
    Range38593856Upto38593861();
    Decimal3859386(); DecimalStep(3859386, 2); NotRepeatingAfter3859386(2);
    assert RangeSumInvalid(38593856, 38593862) == 38593859;
  }

  lemma Decimal56565()
    ensures Decimal(56565) == "56565"
  {
    DecimalStep(5, 6);
    DecimalStep(56, 5);
    DecimalStep(565, 6);
    DecimalStep(5656, 5);
  }

  lemma NotRepeatingAfter56565(d: nat)
    requires d < 10 && d != 6
    ensures !Repeating("56565" + [DigitChar(d)])
  {
    var s := "56565" + [DigitChar(d)];
    forall len | 1 <= len <= 3
      ensures !Periodic(s, len)
    {
      if len == 1 {
        NotPeriodicAt(s, 1, 1, 0);
      } else if len == 2 {
        NotPeriodicAt(s, 2, 2, 1);
      } else if len == 3 {
        NotPeriodicAt(s, 3, 1, 0);
      }
    }
  }

  lemma Decimal565656()
    ensures Decimal(565656) == "565656"
  {
    Decimal56565();
    DecimalStep(56565, 6);
  }

  lemma Repeating565656()
    ensures Repeating("565656")
  {
    assert Repeat("56", 1) == "56";
    assert Repeat("56", 2) == "5656";
    assert Repeat("56", 3) == "565656";
    assert Periodic("565656", 2);
  }

  lemma Range565653Upto565658()
    ensures RangeSumInvalid(565653, 565658) == 565656
  {
    assert RangeSumInvalid(565653, 565652) == 0;
    Decimal56565(); DecimalStep(56565, 3); NotRepeatingAfter56565(3);
    assert RangeSumInvalid(565653, 565653) == 0;
    Decimal56565(); DecimalStep(56565, 4); NotRepeatingAfter56565(4);
    assert RangeSumInvalid(565653, 565654) == 0;
    Decimal56565(); DecimalStep(56565, 5); NotRepeatingAfter56565(5);
    assert RangeSumInvalid(565653, 565655) == 0;
    Decimal565656(); Repeating565656();
    assert RangeSumInvalid(565653, 565656) == 565656;
    Decimal56565(); DecimalStep(56565, 7); NotRepeatingAfter56565(7);
    assert RangeSumInvalid(565653, 565657) == 565656;
    Decimal56565(); DecimalStep(56565, 8); NotRepeatingAfter56565(8);
    assert RangeSumInvalid(565653, 565658) == 565656;
  }

  lemma Range565653Upto565659()
    ensures RangeSumInvalid(565653, 565659) == 565656
  {
    Range565653Upto565658();
    Decimal56565(); DecimalStep(56565, 9); NotRepeatingAfter56565(9);
    assert RangeSumInvalid(565653, 565659) == 565656;
  }

  lemma Decimal82482482()
    ensures Decimal(82482482) == "82482482"
  {
    DecimalStep(8, 2);
    DecimalStep(82, 4);
    DecimalStep(824, 8);
    DecimalStep(8248, 2);
    DecimalStep(82482, 4);
    DecimalStep(824824, 8);
    DecimalStep(8248248, 2);
  }

  lemma NotRepeatingAfter82482482(d: nat)
    requires d < 10 && d != 4
    ensures !Repeating("82482482" + [DigitChar(d)])
  {
    var s := "82482482" + [DigitChar(d)];
    forall len | 1 <= len <= 4
      ensures !Periodic(s, len)
    {
      if len == 1 {
        NotPeriodicAt(s, 1, 1, 0);
      } else if len == 3 {
        NotPeriodicAt(s, 3, 2, 2);
      }
    }
  }

  lemma Decimal824824824()
    ensures Decimal(824824824) == "824824824"
  {
    Decimal82482482();
    DecimalStep(82482482, 4);
  }

  lemma Repeating824824824()
    ensures Repeating("824824824")
  {
    assert Repeat("824", 1) == "824";
    assert Repeat("824", 2) == "824824";
    assert Repeat("824", 3) == "824824824";
    assert Periodic("824824824", 3);
  }

  lemma Range824824821Upto824824826()
    ensures RangeSumInvalid(824824821, 824824826) == 824824824
  {
    assert RangeSumInvalid(824824821, 824824820) == 0;
    Decimal82482482(); DecimalStep(82482482, 1); NotRepeatingAfter82482482(1);
    assert RangeSumInvalid(824824821, 824824821) == 0;
    Decimal82482482(); DecimalStep(82482482, 2); NotRepeatingAfter82482482(2);
    assert RangeSumInvalid(824824821, 824824822) == 0;
    Decimal82482482(); DecimalStep(82482482, 3); NotRepeatingAfter82482482(3);
    assert RangeSumInvalid(824824821, 824824823) == 0;
    Decimal824824824(); Repeating824824824();
    assert RangeSumInvalid(824824821, 824824824) == 824824824;
    Decimal82482482(); DecimalStep(82482482, 5); NotRepeatingAfter82482482(5);
    assert RangeSumInvalid(824824821, 824824825) == 824824824;
    Decimal82482482(); DecimalStep(82482482, 6); NotRepeatingAfter82482482(6);
    assert RangeSumInvalid(824824821, 824824826) == 824824824;
  }

  lemma Range824824821Upto824824827()
    ensures RangeSumInvalid(824824821, 824824827) == 824824824
  {
    Range824824821Upto824824826();
    Decimal82482482(); DecimalStep(82482482, 7); NotRepeatingAfter82482482(7);
    assert RangeSumInvalid(824824821, 824824827) == 824824824;
  }

  lemma Decimal212121211()
    ensures Decimal(212121211) == "212121211"
  {
    DecimalStep(2, 1);
    DecimalStep(21, 2);
    DecimalStep(212, 1);
    DecimalStep(2121, 2);
    DecimalStep(21212, 1);
    DecimalStep(212121, 2);
    DecimalStep(2121212, 1);
    DecimalStep(21212121, 1);
  }

  lemma NotRepeatingAfter212121211(d: nat)
    requires d < 10
    ensures !Repeating("212121211" + [DigitChar(d)])
  {
    var s := "212121211" + [DigitChar(d)];
    forall len | 1 <= len <= 5
      ensures !Periodic(s, len)
    {
      if len == 1 {
        NotPeriodicAt(s, 1, 1, 0);
      } else if len == 2 {
        NotPeriodicAt(s, 2, 4, 0);
      } else if len == 5 {
        NotPeriodicAt(s, 5, 1, 0);
      }
    }
  }

  lemma Decimal212121212()
    ensures Decimal(212121212) == "212121212"
  {
    DecimalStep(2, 1);
    DecimalStep(21, 2);
    DecimalStep(212, 1);
    DecimalStep(2121, 2);
    DecimalStep(21212, 1);
    DecimalStep(212121, 2);
    DecimalStep(2121212, 1);
    DecimalStep(21212121, 2);
  }

  lemma NotRepeatingAfter212121212(d: nat)
    requires d < 10 && d != 1
    ensures !Repeating("212121212" + [DigitChar(d)])
  {
    var s := "212121212" + [DigitChar(d)];
    forall len | 1 <= len <= 5
      ensures !Periodic(s, len)
    {
      if len == 1 {
        NotPeriodicAt(s, 1, 1, 0);
      } else if len == 2 {
        NotPeriodicAt(s, 2, 4, 1);
      } else if len == 5 {
        NotPeriodicAt(s, 5, 1, 0);
      }
    }
  }

  lemma Decimal2121212121()
    ensures Decimal(2121212121) == "2121212121"
  {
    Decimal212121212();
    DecimalStep(212121212, 1);
  }

  lemma Repeating2121212121()
    ensures Repeating("2121212121")
  {
    assert Repeat("21", 1) == "21";
    assert Repeat("21", 2) == "2121";
    assert Repeat("21", 3) == "212121";
    assert Repeat("21", 4) == "21212121";
    assert Repeat("21", 5) == "2121212121";
    assert Periodic("2121212121", 2);
  }

  lemma Range2121212118Upto2121212123()
    ensures RangeSumInvalid(2121212118, 2121212123) == 2121212121
  {
    assert RangeSumInvalid(2121212118, 2121212117) == 0;
    Decimal212121211(); DecimalStep(212121211, 8); NotRepeatingAfter212121211(8);
    assert RangeSumInvalid(2121212118, 2121212118) == 0;
    Decimal212121211(); DecimalStep(212121211, 9); NotRepeatingAfter212121211(9);
    assert RangeSumInvalid(2121212118, 2121212119) == 0;
    Decimal212121212(); DecimalStep(212121212, 0); NotRepeatingAfter212121212(0);
    assert RangeSumInvalid(2121212118, 2121212120) == 0;
    Decimal2121212121(); Repeating2121212121();
    assert RangeSumInvalid(2121212118, 2121212121) == 2121212121;
    Decimal212121212(); DecimalStep(212121212, 2); NotRepeatingAfter212121212(2);
    assert RangeSumInvalid(2121212118, 2121212122) == 2121212121;
    Decimal212121212(); DecimalStep(212121212, 3); NotRepeatingAfter212121212(3);
    assert RangeSumInvalid(2121212118, 2121212123) == 2121212121;
  }

  lemma Range2121212118Upto2121212124()
    ensures RangeSumInvalid(2121212118, 2121212124) == 2121212121
  {
    Range2121212118Upto2121212123();
    Decimal212121212(); DecimalStep(212121212, 4); NotRepeatingAfter212121212(4);
    assert RangeSumInvalid(2121212118, 2121212124) == 2121212121;
  }

  /** The sums `test_part2_range_sum_invalid` expects, with the last range beginning at 2121212118. */
  lemma RangeSumInvalidExamples()
    ensures RangeSumInvalid(11, 22) == 33
    ensures RangeSumInvalid(95, 115) == 210
    ensures RangeSumInvalid(998, 1012) == 2009
    ensures RangeSumInvalid(1188511880, 1188511890) == 1188511885
    ensures RangeSumInvalid(222220, 222224) == 222222
    ensures RangeSumInvalid(1698522, 1698528) == 0
    ensures RangeSumInvalid(446443, 446449) == 446446
    ensures RangeSumInvalid(38593856, 38593862) == 38593859
    ensures RangeSumInvalid(565653, 565659) == 565656
    ensures RangeSumInvalid(824824821, 824824827) == 824824824
    ensures RangeSumInvalid(2121212118, 2121212124) == 2121212121
  {
    Range11Upto22();
    Range95Upto115();
    Range998Upto1012();
    Range1188511880Upto1188511890();
    Range222220Upto222224();
    Range1698522Upto1698528();
    Range446443Upto446449();
    Range38593856Upto38593862();
    Range565653Upto565659();
    Range824824821Upto824824827();
    Range2121212118Upto2121212124();
  }

  // ---------------------------------------------------------------------
  // The last check of `test_part2_range_sum_invalid` (02.rs:158)
  // ---------------------------------------------------------------------

  lemma Decimal1313131313()
    ensures Decimal(1313131313) == "1313131313"
  {
    DecimalStep(1, 3);
    DecimalStep(13, 1);
    DecimalStep(131, 3);
    DecimalStep(1313, 1);
    DecimalStep(13131, 3);
    DecimalStep(131313, 1);
    DecimalStep(1313131, 3);
    DecimalStep(13131313, 1);
    DecimalStep(131313131, 3);
  }

  lemma Repeating1313131313()
    ensures Repeating("1313131313")
  {
    assert Repeat("13", 1) == "13";
    assert Repeat("13", 2) == "1313";
    assert Repeat("13", 3) == "131313";
    assert Repeat("13", 4) == "13131313";
    assert Repeat("13", 5) == "1313131313";
    assert Periodic("1313131313", 2);
  }

  /** As written, the last check of `test_part2_range_sum_invalid` expects too little. */
  lemma LastRangeTestAsWritten()
    ensures RangeSumInvalid(1212121218, 2121212124) >= 1313131313 + 2121212121
    ensures RangeSumInvalid(1212121218, 2121212124) != 2121212121
  {
    Decimal1313131313();
    Repeating1313131313();
    Decimal2121212121();
    Repeating2121212121();
    RangeSumInvalidHasBoth(1212121218, 2121212124, 1313131313, 2121212121);
  }
}
