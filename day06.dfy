/**
 * The math worksheet (06.rs): problems are written in columns, one number
 * per row, with the operator in the last row. Part 1 reads each problem
 * from the whitespace-separated tokens of the rows; part 2 pads the rows,
 * turns the character grid into columns and reads one number per column,
 * splitting problems at blank columns. Both parts then add up the problems'
 * values: the sum for `+`, the product for `*` and 0 for anything else.
 */
module Day06 {

  /** One problem: its numbers in reading order and its operator. */
  datatype Problem = Problem(numbers: seq<nat>, operator: char)

  // ---------------------------------------------------------------------
  // Evaluation (06.rs:61-69)
  // ---------------------------------------------------------------------

  /** One step of `iter().product()` (`times`) or of `iter().sum()`. */
  function Op(times: bool, acc: nat, x: nat): nat {
    if times then acc * x else acc + x
  }

  /** `iter().product()` (`times`) or `iter().sum()`: the numbers folded from the left. */
  function Reduce(times: bool, xs: seq<nat>): nat {
    if xs == [] then (if times then 1 else 0)
    else Op(times, Reduce(times, xs[..|xs| - 1]), xs[|xs| - 1])
  }

  lemma OpAssociates(times: bool, a: nat, b: nat, c: nat)
    ensures Op(times, Op(times, a, b), c) == Op(times, a, Op(times, b, c))
  {
    if times {
      assert (a * b) * c == a * (b * c);
    }
  }

  /** Folding a concatenation combines the folds of the parts. */
  lemma {:induction false} ReduceAppend(times: bool, a: seq<nat>, b: seq<nat>)
    ensures Reduce(times, a + b) == Op(times, Reduce(times, a), Reduce(times, b))
    decreases |b|
  {
    if b == [] {
      assert a + b == a;
    } else {
      var n := |b| - 1;
      assert (a + b)[..|a + b| - 1] == a + b[..n];
      ReduceAppend(times, a, b[..n]);
      OpAssociates(times, Reduce(times, a), Reduce(times, b[..n]), b[n]);
    }
  }

  /** The order of the numbers does not matter: any rearrangement has the same sum and product. */
  lemma {:induction false} ReduceOrderFree(times: bool, a: seq<nat>, b: seq<nat>)
    requires multiset(a) == multiset(b)
    ensures Reduce(times, a) == Reduce(times, b)
    decreases |a|
  {
    if a == [] {
      assert |b| == |multiset(b)| == 0;
    } else {
      var n := |a| - 1;
      var x := a[n];
      assert a == a[..n] + [x];
      assert x in multiset(b);
      var k :| 0 <= k < |b| && b[k] == x;
      var before, after := b[..k], b[k + 1..];
      assert b == before + [x] + after;
      assert multiset(b) == multiset(before) + multiset{x} + multiset(after);
      assert multiset(a) == multiset(a[..n]) + multiset{x};
      calc {
        multiset(a[..n]);
        multiset(a) - multiset{x};
        multiset(b) - multiset{x};
        multiset(before) + multiset(after);
        multiset(before + after);
      }
      ReduceOrderFree(times, a[..n], before + after);
      ReduceAppend(times, before + [x], after);
      ReduceAppend(times, before, after);
      var f1, f2 := Reduce(times, before), Reduce(times, after);
      assert Reduce(times, before + [x]) == Op(times, f1, x) by {
        assert (before + [x])[..|before|] == before;
      }
      OpAssociates(times, f1, x, f2);
      OpAssociates(times, f1, f2, x);
      if times {
        assert x * f2 == f2 * x;
      }
    }
  }

  /** A product is zero exactly when one of its factors is. */
  lemma {:induction false} ProductZero(xs: seq<nat>)
    ensures Reduce(true, xs) == 0 <==> 0 in xs
  {
    if xs != [] {
      var n := |xs| - 1;
      ProductZero(xs[..n]);
      assert xs == xs[..n] + [xs[n]];
    }
  }

  /** A sum is zero exactly when all its terms are. */
  lemma {:induction false} SumZero(xs: seq<nat>)
    ensures Reduce(false, xs) == 0 <==> forall k :: 0 <= k < |xs| ==> xs[k] == 0
  {
    if xs != [] {
      var n := |xs| - 1;
      SumZero(xs[..n]);
      assert forall k :: 0 <= k < n ==> xs[..n][k] == xs[k];
    }
  }

  /** The value `part1` gives one problem. */
  function Evaluate(p: Problem): nat {
    match p.operator
    case '+' => Reduce(false, p.numbers)
    case '*' => Reduce(true, p.numbers)
    case _ => 0
  }

  /**
   * A problem is worth 0 exactly when its operator is neither `+` nor `*`,
   * or it is a sum of zeros, or a product with a zero factor.
   */
  lemma EvaluateZero(p: Problem)
    ensures Evaluate(p) == 0 <==>
              (p.operator == '+' ==> forall k :: 0 <= k < |p.numbers| ==> p.numbers[k] == 0)
              && (p.operator == '*' ==> 0 in p.numbers)
  {
    SumZero(p.numbers);
    ProductZero(p.numbers);
  }

  /** The value of a problem does not depend on the order its numbers are read in. */
  lemma EvaluateOrderFree(p: Problem, numbers: seq<nat>)
    requires multiset(numbers) == multiset(p.numbers)
    ensures Evaluate(Problem(numbers, p.operator)) == Evaluate(p)
  {
    ReduceOrderFree(false, numbers, p.numbers);
    ReduceOrderFree(true, numbers, p.numbers);
  }

  /** `part1`: the total of the problems' values. */
  function Part1(data: seq<Problem>): nat {
    if data == [] then 0 else Part1(data[..|data| - 1]) + Evaluate(data[|data| - 1])
  }

  /** The total of a worksheet split in two is the sum of the parts' totals. */
  lemma {:induction false} Part1Append(a: seq<Problem>, b: seq<Problem>)
    ensures Part1(a + b) == Part1(a) + Part1(b)
    decreases |b|
  {
    if b == [] {
      assert a + b == a;
    } else {
      var n := |b| - 1;
      assert (a + b)[..|a + b| - 1] == a + b[..n];
      Part1Append(a, b[..n]);
    }
  }

  // ---------------------------------------------------------------------
  // Lines, words and trimming (Rust's `lines`, `split_whitespace`, `trim`)
  // ---------------------------------------------------------------------

  /** `char::is_whitespace`: the Unicode White_Space characters. */
  predicate IsWhitespace(c: char) {
    '\t' <= c <= '\r' || c == ' ' || c == '\U{85}' || c == '\U{A0}' || c == '\U{1680}'
    || '\U{2000}' <= c <= '\U{200A}' || c == '\U{2028}' || c == '\U{2029}'
    || c == '\U{202F}' || c == '\U{205F}' || c == '\U{3000}'
  }

  /** Every character is whitespace (vacuously so for the empty string). */
  predicate Blank(s: string) {
    forall k :: 0 <= k < |s| ==> IsWhitespace(s[k])
  }

  /** No character is whitespace. */
  predicate Solid(s: string) {
    forall k :: 0 <= k < |s| ==> !IsWhitespace(s[k])
  }

  /** The index of the first `'\n'`, or the length when there is none. */
  function LineEnd(s: string): (i: nat)
    ensures i <= |s| && (i < |s| ==> s[i] == '\n')
    ensures forall k :: 0 <= k < i ==> s[k] != '\n'
  {
    if s == [] || s[0] == '\n' then 0 else 1 + LineEnd(s[1..])
  }

  /** A line ended by `"\r\n"` loses its `'\r'`. */
  function DropCr(line: string): string {
    if line != [] && line[|line| - 1] == '\r' then line[..|line| - 1] else line
  }

  /**
   * `str::lines`: the pieces between `'\n'`s, each without a `'\r'` right
   * before its `'\n'`; a final `'\n'` does not start an empty last line.
   */
  function Lines(s: string): seq<string>
    decreases |s|
  {
    if s == [] then []
    else
      var i := LineEnd(s);
      if i == |s| then [s] else [DropCr(s[..i])] + Lines(s[i + 1..])
  }

  /** The lines, each followed by `'\n'`. */
  function Unlines(lines: seq<string>): string {
    if lines == [] then [] else lines[0] + "\n" + Unlines(lines[1..])
  }

  /** No character is a `'\n'`. */
  predicate NoNewline(line: string) {
    forall k :: 0 <= k < |line| ==> line[k] != '\n'
  }

  /** No line holds a `'\n'`. */
  lemma {:induction false} LinesHaveNoNewline(s: string)
    ensures forall j :: 0 <= j < |Lines(s)| ==> NoNewline(Lines(s)[j])
    decreases |s|
  {
    if s != [] {
      var i := LineEnd(s);
      if i < |s| {
        var rest := Lines(s[i + 1..]);
        LinesHaveNoNewline(s[i + 1..]);
        assert NoNewline(DropCr(s[..i]));
        assert Lines(s) == [DropCr(s[..i])] + rest;
      }
    }
  }

  /** The lines of a string that has a `'\n'`: the first line, then the lines after that `'\n'`. */
  lemma LinesStep(s: string, i: nat)
    requires i == LineEnd(s) < |s|
    ensures Lines(s) == [DropCr(s[..i])] + Lines(s[i + 1..])
  {
  }

  /** Without `'\r'`s, the first line comes back whole, followed by its `'\n'`. */
  lemma UnlinesStep(s: string, i: nat)
    requires forall k :: 0 <= k < |s| ==> s[k] != '\r'
    requires i == LineEnd(s) < |s|
    ensures Unlines(Lines(s)) == s[..i] + "\n" + Unlines(Lines(s[i + 1..]))
  {
    LinesStep(s, i);
    var line := s[..i];
    assert DropCr(line) == line by {
      if line != [] {
        assert line[|line| - 1] == s[i - 1];
      }
    }
    assert Lines(s)[1..] == Lines(s[i + 1..]);
  }

  /** The string with a final `'\n'` added unless it is empty or has one. */
  function Terminated(s: string): string {
    if s == [] || s[|s| - 1] == '\n' then s else s + "\n"
  }

  /** A string split around a `'\n'`. */
  lemma SplitAtNewline(s: string, i: nat)
    requires i < |s| && s[i] == '\n'
    ensures s == s[..i] + "\n" + s[i + 1..]
  {
  }

  /** Terminating the part after a line and its `'\n'` terminates the whole. */
  lemma TerminatedAfter(line: string, rest: string)
    ensures line + "\n" + Terminated(rest) == Terminated(line + "\n" + rest)
  {
    var s := line + "\n" + rest;
    if rest != [] {
      assert s[|s| - 1] == rest[|rest| - 1];
    }
  }

  /** A string without a `'\n'` is a single line. */
  lemma SingleLine(s: string)
    requires s != [] && LineEnd(s) == |s|
    ensures Unlines(Lines(s)) == Terminated(s)
  {
    assert Lines(s) == [s];
    assert Unlines([s]) == s + "\n" + Unlines([]);
  }

  /** Without `'\r'`s, the lines put back together give the input, with a final `'\n'` added if missing. */
  lemma {:induction false} UnlinesLines(s: string)
    requires forall k :: 0 <= k < |s| ==> s[k] != '\r'
    ensures Unlines(Lines(s)) == Terminated(s)
    decreases |s|
  {
    if s != [] {
      var i := LineEnd(s);
      if i == |s| {
        SingleLine(s);
      } else {
        UnlinesLines(s[i + 1..]);
        UnlinesStep(s, i);
        TerminatedAfter(s[..i], s[i + 1..]);
        SplitAtNewline(s, i);
      }
    }
  }

  /** The index of the first whitespace character, or the length when there is none. */
  function Span(s: string): (i: nat)
    ensures i <= |s| && (i < |s| ==> IsWhitespace(s[i])) && Solid(s[..i])
  {
    if s == [] || IsWhitespace(s[0]) then 0 else 1 + Span(s[1..])
  }

  /** `str::split_whitespace`: the maximal runs of non-whitespace characters. */
  function Words(s: string): seq<string>
    decreases |s|
  {
    if s == [] then []
    else if IsWhitespace(s[0]) then Words(s[1..])
    else
      var i := Span(s);
      [s[..i]] + Words(s[i..])
  }

  /** Every word is non-empty and holds no whitespace. */
  lemma {:induction false} WordsAreSolid(s: string)
    ensures forall j :: 0 <= j < |Words(s)| ==> |Words(s)[j]| >= 1 && Solid(Words(s)[j])
    decreases |s|
  {
    if s != [] {
      if IsWhitespace(s[0]) {
        WordsAreSolid(s[1..]);
      } else {
        var i := Span(s);
        WordsAreSolid(s[i..]);
        assert forall j :: 1 <= j < |Words(s)| ==> Words(s)[j] == Words(s[i..])[j - 1];
      }
    }
  }

  /** A word followed by whitespace or nothing spans exactly the word. */
  lemma {:induction false} SpanOfWord(w: string, rest: string)
    requires Solid(w) && (rest == [] || IsWhitespace(rest[0]))
    ensures Span(w + rest) == |w|
    decreases |w|
  {
    if w != [] {
      assert (w + rest)[1..] == w[1..] + rest;
      SpanOfWord(w[1..], rest);
    }
  }

  /** Words each followed by one space. */
  function Spaced(words: seq<string>): string {
    if words == [] then [] else words[0] + " " + Spaced(words[1..])
  }

  /** Splitting words joined by spaces gives the words back. */
  lemma {:induction false} WordsOfSpaced(words: seq<string>)
    requires forall j :: 0 <= j < |words| ==> |words[j]| >= 1 && Solid(words[j])
    ensures Words(Spaced(words)) == words
  {
    if words != [] {
      var w, rest := words[0], Spaced(words[1..]);
      WordsOfSpaced(words[1..]);
      var s := w + " " + rest;
      assert s == w + (" " + rest);
      SpanOfWord(w, " " + rest);
      assert s[..|w|] == w;
      assert s[|w|..] == " " + rest;
      assert (" " + rest)[1..] == rest;
    }
  }

  /** `trim_start`. */
  function TrimStart(s: string): string {
    if s != [] && IsWhitespace(s[0]) then TrimStart(s[1..]) else s
  }

  /** `trim_end`. */
  function TrimEnd(s: string): string {
    if s != [] && IsWhitespace(s[|s| - 1]) then TrimEnd(s[..|s| - 1]) else s
  }

  /** `str::trim`: without its leading and trailing whitespace. */
  function Trim(s: string): string {
    TrimEnd(TrimStart(s))
  }

  /** `trim_start` drops a blank prefix: `s` is that prefix followed by the result. */
  lemma {:induction false} TrimStartSplits(s: string)
    ensures var r := TrimStart(s);
            |r| <= |s| && s == s[..|s| - |r|] + r && Blank(s[..|s| - |r|])
            && (r != [] ==> !IsWhitespace(r[0]))
  {
    if s != [] && IsWhitespace(s[0]) {
      var t := s[1..];
      TrimStartSplits(t);
      var r := TrimStart(t);
      var p := |t| - |r|;
      assert TrimStart(s) == r;
      assert |s| - |r| == p + 1;
      assert s[..p + 1] == [s[0]] + t[..p];
      assert s == [s[0]] + t;
    }
  }

  /** `trim_end` drops a blank suffix: `s` is the result followed by that suffix. */
  lemma {:induction false} TrimEndSplits(s: string)
    ensures var r := TrimEnd(s);
            |r| <= |s| && s == r + s[|r|..] && Blank(s[|r|..])
            && (r != [] ==> !IsWhitespace(r[|r| - 1]))
  {
    if s != [] && IsWhitespace(s[|s| - 1]) {
      var n := |s| - 1;
      var init := s[..n];
      TrimEndSplits(init);
      var r := TrimEnd(init);
      assert TrimEnd(s) == r;
      assert s == init + [s[n]];
      assert s[|r|..] == init[|r|..] + [s[n]];
      assert s == r + s[|r|..];
    }
  }

  /** A string trims to nothing exactly when it is blank: the blank-column test of 06.rs:50. */
  lemma TrimEmptyIffBlank(s: string)
    ensures Trim(s) == [] <==> Blank(s)
  {
    TrimStartSplits(s);
    var t := TrimStart(s);
    TrimEndSplits(t);
    if Trim(s) == [] {
      assert t == t[0..];
      assert s == s[..|s| - |t|] + t;
      assert Blank(t);
    } else {
      var r := Trim(s);
      assert t == r + t[|r|..];
      assert !IsWhitespace(t[|r| - 1]);
      assert s[|s| - |t| + |r| - 1] == t[|r| - 1];
    }
  }

  /** Padding a solid string with blanks on both sides trims back to it. */
  lemma TrimPadded(left: string, w: string, right: string)
    requires Blank(left) && Blank(right) && |w| >= 1 && Solid(w)
    ensures Trim(left + w + right) == w
  {
    TrimStartPadded(left, w + right);
    assert left + w + right == left + (w + right);
    TrimEndPadded(w, right);
  }

  lemma {:induction false} TrimStartPadded(left: string, s: string)
    requires Blank(left) && s != [] && !IsWhitespace(s[0])
    ensures TrimStart(left + s) == s
    decreases |left|
  {
    if left == [] {
      assert left + s == s;
    } else {
      assert (left + s)[1..] == left[1..] + s;
      TrimStartPadded(left[1..], s);
    }
  }

  lemma {:induction false} TrimEndPadded(s: string, right: string)
    requires Blank(right) && s != [] && !IsWhitespace(s[|s| - 1])
    ensures TrimEnd(s + right) == s
    decreases |right|
  {
    if right == [] {
      assert s + right == s;
    } else {
      var n := |right| - 1;
      assert (s + right)[..|s + right| - 1] == s + right[..n];
      TrimEndPadded(s, right[..n]);
    }
  }

  // ---------------------------------------------------------------------
  // Numerals (`str::parse::<u64>`)
  // ---------------------------------------------------------------------

  predicate IsDigit(c: char) {
    '0' <= c <= '9'
  }

  predicate AllDigits(s: string) {
    forall k :: 0 <= k < |s| ==> IsDigit(s[k])
  }

  /** What `parse::<u64>` accepts: an optional `+` and at least one ASCII digit. */
  predicate IsNumeral(s: string) {
    (|s| >= 1 && AllDigits(s)) || (|s| >= 2 && s[0] == '+' && AllDigits(s[1..]))
  }

  /** The value of a string of decimal digits. */
  function DigitsValue(s: string): nat
    requires AllDigits(s)
  {
    if s == [] then 0 else 10 * DigitsValue(s[..|s| - 1]) + (s[|s| - 1] as int - '0' as int)
  }

  /** `parse::<u64>()`, for a numeral. */
  function ParseNumeral(s: string): nat
    requires IsNumeral(s)
  {
    if s[0] == '+' then DigitsValue(s[1..]) else DigitsValue(s)
  }

  /** The decimal representation of `x`, without leading zeros. */
  function Decimal(x: nat): (r: string)
    ensures |r| >= 1 && AllDigits(r)
  {
    if x < 10 then [('0' as int + x) as char]
    else Decimal(x / 10) + [('0' as int + x % 10) as char]
  }

  /** Parsing a number's decimal representation gives the number back. */
  lemma {:induction false} ParseDecimal(x: nat)
    ensures IsNumeral(Decimal(x)) && ParseNumeral(Decimal(x)) == x
  {
    var s := Decimal(x);
    assert s[0] != '+';
    if x >= 10 {
      var t := Decimal(x / 10);
      ParseDecimal(x / 10);
      assert t[0] != '+';
      assert s[..|s| - 1] == t;
      assert DigitsValue(s) == 10 * DigitsValue(t) + x % 10;
    } else {
      assert s[..|s| - 1] == [];
      assert s[0] as int == '0' as int + x;
      assert DigitsValue(s) == x;
    }
  }

  /** Leading zeros do not change a numeral's value. */
  lemma {:induction false} LeadingZero(s: string)
    requires AllDigits(s)
    ensures AllDigits("0" + s) && DigitsValue("0" + s) == DigitsValue(s)
  {
    if s != [] {
      var n := |s| - 1;
      LeadingZero(s[..n]);
      assert ("0" + s)[..|s|] == "0" + s[..n];
    }
  }

  // ---------------------------------------------------------------------
  // parse_input (06.rs:3-21)
  // ---------------------------------------------------------------------

  /** The whitespace-separated tokens of each line. */
  function Table(input: string): seq<seq<string>> {
    var lines := Lines(input);
    seq(|lines|, j requires 0 <= j < |lines| => Words(lines[j]))
  }

  /**
   * What `parse_input` needs not to panic: an operator row below at least
   * one number row, every number row a numeral in each of the first row's
   * columns, and the operator row a token in each of them.
   */
  predicate Regular(table: seq<seq<string>>) {
    |table| >= 2 &&
    var rows, ops := table[..|table| - 1], table[|table| - 1];
    |ops| >= |rows[0]| &&
    forall j :: 0 <= j < |rows| ==>
      |rows[j]| >= |rows[0]| && forall i :: 0 <= i < |rows[0]| ==> IsNumeral(rows[j][i])
  }

  /**
   * `parse_input`: one problem per token of the first row; its numbers are
   * that column of the number rows, top to bottom, and its operator is the
   * first character of the operator row's token in that column.
   */
  method ParseInput(input: string) returns (data: seq<Problem>)
    requires Regular(Table(input))
    ensures var table := Table(input);
            var rows, ops := table[..|table| - 1], table[|table| - 1];
            |data| == |rows[0]| &&
            forall i :: 0 <= i < |data| ==>
              |ops[i]| >= 1 && data[i].operator == ops[i][0] && |data[i].numbers| == |rows|
              && forall j :: 0 <= j < |rows| ==> data[i].numbers[j] == ParseNumeral(rows[j][i])
  {
    var table := Table(input);
    var operations := table[|table| - 1];
    WordsAreSolid(Lines(input)[|table| - 1]);
    table := table[..|table| - 1];
    data := [];
    for index := 0 to |table[0]|
      invariant |data| == index
      invariant forall i :: 0 <= i < index ==>
                  |operations[i]| >= 1 && data[i].operator == operations[i][0] && |data[i].numbers| == |table|
                  && forall j :: 0 <= j < |table| ==> data[i].numbers[j] == ParseNumeral(table[j][i])
    {
      var numbers := seq(|table|, j requires 0 <= j < |table| && index < |table[j]| && IsNumeral(table[j][index])
                                   => ParseNumeral(table[j][index]));
      data := data + [Problem(numbers, operations[index][0])];
    }
  }

  /** A line that holds no `'\n'` ends at the first `'\n'` after it. */
  lemma {:induction false} LineEndOf(line: string, rest: string)
    requires NoNewline(line)
    ensures LineEnd(line + "\n" + rest) == |line|
    decreases |line|
  {
    if line != [] {
      assert (line + "\n" + rest)[1..] == line[1..] + "\n" + rest;
      LineEndOf(line[1..], rest);
    }
  }

  /** Lines free of `'\n'` and of a final `'\r'` come back from their `Unlines`. */
  lemma {:induction false} LinesOfUnlines(lines: seq<string>)
    requires forall j :: 0 <= j < |lines| ==> NoNewline(lines[j]) && DropCr(lines[j]) == lines[j]
    ensures Lines(Unlines(lines)) == lines
  {
    if lines != [] {
      var line, rest := lines[0], Unlines(lines[1..]);
      var s := line + "\n" + rest;
      LineEndOf(line, rest);
      LinesOfUnlines(lines[1..]);
      assert s[..|line|] == line;
      assert s[|line| + 1..] == rest;
      assert lines == [line] + lines[1..];
    }
  }

  /** Digits are not whitespace. */
  lemma DecimalIsSolid(x: nat)
    ensures Solid(Decimal(x))
  {
  }

  /** Words joined by spaces hold no `'\n'` and end in a space. */
  lemma {:induction false} SpacedIsOneLine(words: seq<string>)
    requires forall j :: 0 <= j < |words| ==> Solid(words[j])
    ensures NoNewline(Spaced(words)) && DropCr(Spaced(words)) == Spaced(words)
  {
    if words != [] {
      SpacedIsOneLine(words[1..]);
      var s := Spaced(words);
      assert s == words[0] + " " + Spaced(words[1..]);
      assert s != [] && s[|s| - 1] != '\r' by {
        if words[1..] == [] {
          assert s[|s| - 1] == ' ';
        } else {
          assert s[|s| - 1] == Spaced(words[1..])[|Spaced(words[1..])| - 1];
        }
      }
    }
  }

  /** Problems that all have `h >= 1` numbers and an operator that is not whitespace. */
  predicate Uniform(problems: seq<Problem>, h: nat) {
    |problems| >= 1 && h >= 1 &&
    forall i :: 0 <= i < |problems| ==> |problems[i].numbers| == h && !IsWhitespace(problems[i].operator)
  }

  /** The tokens of number row `j`: each problem's `j`-th number in decimal. */
  function NumberRow(problems: seq<Problem>, h: nat, j: nat): seq<string>
    requires Uniform(problems, h) && j < h
  {
    seq(|problems|, i requires 0 <= i < |problems| => Decimal(problems[i].numbers[j]))
  }

  /** The tokens of the operator row. */
  function OperatorRow(problems: seq<Problem>): seq<string> {
    seq(|problems|, i requires 0 <= i < |problems| => [problems[i].operator])
  }

  /** The worksheet lines that lay the problems out in columns, operators last. */
  function WorksheetLines(problems: seq<Problem>, h: nat): seq<string>
    requires Uniform(problems, h)
  {
    seq(h, j requires 0 <= j < h => Spaced(NumberRow(problems, h, j))) + [Spaced(OperatorRow(problems))]
  }

  /** Each worksheet line splits into the tokens it was written from. */
  lemma WorksheetTable(problems: seq<Problem>, h: nat)
    requires Uniform(problems, h)
    ensures var table := Table(Unlines(WorksheetLines(problems, h)));
            |table| == h + 1 && table[h] == OperatorRow(problems)
            && forall j :: 0 <= j < h ==> table[j] == NumberRow(problems, h, j)
  {
    var lines := WorksheetLines(problems, h);
    forall j | 0 <= j < h
      ensures NoNewline(lines[j]) && DropCr(lines[j]) == lines[j]
      ensures Words(lines[j]) == NumberRow(problems, h, j)
    {
      var row := NumberRow(problems, h, j);
      forall i | 0 <= i < |row| ensures |row[i]| >= 1 && Solid(row[i]) {
        DecimalIsSolid(problems[i].numbers[j]);
      }
      SpacedIsOneLine(row);
      WordsOfSpaced(row);
    }
    SpacedIsOneLine(OperatorRow(problems));
    WordsOfSpaced(OperatorRow(problems));
    LinesOfUnlines(lines);
  }

  /**
   * A worksheet written out from problems with the same number of numbers
   * each is one `parse_input` accepts, and it reads back the same problems:
   * one per column, with their numbers and operators.
   */
  lemma WorksheetParses(problems: seq<Problem>, h: nat)
    requires Uniform(problems, h)
    ensures var table := Table(Unlines(WorksheetLines(problems, h)));
            Regular(table) &&
            var rows, ops := table[..|table| - 1], table[|table| - 1];
            |rows| == h && |rows[0]| == |problems| &&
            forall i :: 0 <= i < |problems| ==>
              |ops[i]| >= 1 && ops[i][0] == problems[i].operator
              && forall j :: 0 <= j < h ==> ParseNumeral(rows[j][i]) == problems[i].numbers[j]
  {
    var table := Table(Unlines(WorksheetLines(problems, h)));
    WorksheetTable(problems, h);
    var rows := table[..h];
    assert forall j :: 0 <= j < h ==> rows[j] == NumberRow(problems, h, j);
    forall i, j | 0 <= i < |problems| && 0 <= j < h
      ensures IsNumeral(rows[j][i]) && ParseNumeral(rows[j][i]) == problems[i].numbers[j]
    {
      ParseDecimal(problems[i].numbers[j]);
    }
  }

  // ---------------------------------------------------------------------
  // parse_input_part2 (06.rs:23-59)
  // ---------------------------------------------------------------------

  /** `resize(length, ' ')`: cut to `length`, or filled up to it with spaces. */
  function Resize(line: string, length: nat): (r: string)
    ensures |r| == length
    ensures forall k :: 0 <= k < length ==> r[k] == if k < |line| then line[k] else ' '
  {
    if |line| >= length then line[..length] else line + seq(length - |line|, _ => ' ')
  }

  /** `max()` of the line lengths: reached by some line and exceeded by none. */
  function MaxLength(table: seq<string>): (r: nat)
    requires |table| >= 1
    ensures forall j :: 0 <= j < |table| ==> |table[j]| <= r
    ensures exists j :: 0 <= j < |table| && |table[j]| == r
  {
    var n := |table| - 1;
    if n == 0 then |table[0]|
    else
      var m := MaxLength(table[..n]);
      if |table[n]| > m then |table[n]| else m
  }

  /** What `table[0].len()` and `line[index]` need: a row, and none shorter than the first. */
  predicate WideEnough(table: seq<string>) {
    |table| >= 1 && forall j :: 0 <= j < |table| ==> |table[j]| >= |table[0]|
  }

  /** Every line resized to the longest line's length. */
  function Padded(table: seq<string>): (r: seq<string>)
    requires |table| >= 1
    ensures |r| == |table| && WideEnough(r)
  {
    seq(|table|, j requires 0 <= j < |table| => Resize(table[j], MaxLength(table)))
  }

  /** Padding keeps each line as a prefix and adds only spaces, up to the longest line's length. */
  lemma PaddedRows(table: seq<string>)
    requires |table| >= 1
    ensures forall j :: 0 <= j < |table| ==>
              |Padded(table)[j]| == MaxLength(table)
              && Padded(table)[j] == table[j] + seq(MaxLength(table) - |table[j]|, _ => ' ')
  {
    var length := MaxLength(table);
    forall j | 0 <= j < |table|
      ensures Padded(table)[j] == table[j] + seq(length - |table[j]|, _ => ' ')
    {
      assert |table[j]| <= length;
    }
  }

  /** The `resize` loop of 06.rs:29-35, done in place row by row. */
  method PadRows(table: seq<string>) returns (padded: seq<string>)
    requires |table| >= 1
    ensures padded == Padded(table)
  {
    var length := MaxLength(table);
    padded := table;
    for j := 0 to |padded|
      invariant |padded| == |table|
      invariant forall k :: 0 <= k < j ==> padded[k] == Resize(table[k], length)
      invariant forall k :: j <= k < |table| ==> padded[k] == table[k]
    {
      padded := padded[j := Resize(padded[j], length)];
    }
  }

  /** Column `i` is the string of the rows' `i`-th characters, top to bottom. */
  function Transposed(table: seq<string>): seq<string>
    requires WideEnough(table)
  {
    seq(|table[0]|, i requires 0 <= i < |table[0]| => seq(|table|, j requires 0 <= j < |table| => table[j][i]))
  }

  /** Transposing a non-empty rectangle twice gives it back. */
  lemma TransposedTwice(table: seq<string>)
    requires WideEnough(table) && |table[0]| >= 1
    requires forall j :: 0 <= j < |table| ==> |table[j]| == |table[0]|
    ensures WideEnough(Transposed(table)) && Transposed(Transposed(table)) == table
  {
    var t := Transposed(table);
    var tt := Transposed(t);
    assert |tt| == |table|;
    forall j | 0 <= j < |table|
      ensures tt[j] == table[j]
    {
      assert |tt[j]| == |table[j]|;
      forall i | 0 <= i < |table[j]|
        ensures tt[j][i] == table[j][i]
      {
        assert tt[j][i] == t[i][j];
      }
    }
  }

  /** The loop of 06.rs:38-48: one column per position of the first row. */
  method Transpose(table: seq<string>) returns (columns: seq<string>)
    requires WideEnough(table)
    ensures columns == Transposed(table)
    ensures |columns| == |table[0]|
    ensures forall i, j :: 0 <= i < |columns| && 0 <= j < |table| ==>
              |columns[i]| == |table| && columns[i][j] == table[j][i]
  {
    columns := [];
    for index := 0 to |table[0]|
      invariant columns == Transposed(table)[..index]
    {
      var column := seq(|table|, j requires 0 <= j < |table| => table[j][index]);
      columns := columns + [column];
    }
  }

  /**
   * `slice::split` at the columns that trim to nothing: the runs of columns
   * between them, in order; each such column closes a group, and the last
   * group runs to the end.
   */
  function Groups(columns: seq<string>): (r: seq<seq<string>>)
    ensures |r| >= 1
  {
    if columns == [] then [[]]
    else
      var n := |columns| - 1;
      var r := Groups(columns[..n]);
      if Trim(columns[n]) == [] then r + [[]]
      else r[..|r| - 1] + [r[|r| - 1] + [columns[n]]]
  }

  /** The number of columns that trim to nothing. */
  function Separators(columns: seq<string>): nat {
    if columns == [] then 0
    else Separators(columns[..|columns| - 1]) + (if Trim(columns[|columns| - 1]) == [] then 1 else 0)
  }

  /** The columns that do not trim to nothing, in order. */
  function Kept(columns: seq<string>): seq<string> {
    if columns == [] then []
    else
      var n := |columns| - 1;
      Kept(columns[..n]) + (if Trim(columns[n]) == [] then [] else [columns[n]])
  }

  /** The groups one after the other. */
  function Flatten(groups: seq<seq<string>>): seq<string> {
    if groups == [] then [] else Flatten(groups[..|groups| - 1]) + groups[|groups| - 1]
  }

  /**
   * There is one group more than there are separators, and the groups one
   * after the other are the other columns: no column is lost, moved or
   * repeated, and no separator is kept.
   */
  lemma {:induction false} GroupsPartition(columns: seq<string>)
    ensures |Groups(columns)| == Separators(columns) + 1
    ensures Flatten(Groups(columns)) == Kept(columns)
  {
    if columns != [] {
      var n := |columns| - 1;
      var r := Groups(columns[..n]);
      GroupsPartition(columns[..n]);
      var m := |r| - 1;
      if Trim(columns[n]) == [] {
        assert (r + [[]])[..|r|] == r;
      } else {
        var g := r[..m] + [r[m] + [columns[n]]];
        assert g[..m] == r[..m] && g[m] == r[m] + [columns[n]];
        assert r[..m] == r[..|r| - 1];
      }
    }
  }

  /** No group holds a column that trims to nothing: the separators are left out. */
  lemma {:induction false} GroupsHaveNoSeparator(columns: seq<string>)
    ensures forall k, m :: 0 <= k < |Groups(columns)| && 0 <= m < |Groups(columns)[k]| ==>
              Trim(Groups(columns)[k][m]) != []
  {
    if columns != [] {
      var n := |columns| - 1;
      GroupsHaveNoSeparator(columns[..n]);
    }
  }

  /** What reading a column needs: without its last character, a numeral once trimmed. */
  predicate ReadableColumn(column: string) {
    |column| >= 1 && IsNumeral(Trim(column[..|column| - 1]))
  }

  /** `l[..l.len() - 1].trim().parse()`: the number in a column above its operator-row character. */
  function ColumnNumber(column: string): nat
    requires ReadableColumn(column)
  {
    ParseNumeral(Trim(column[..|column| - 1]))
  }

  /** What reading a group needs: a column, and every column readable. */
  predicate Readable(group: seq<string>) {
    |group| >= 1 && forall m :: 0 <= m < |group| ==> ReadableColumn(group[m])
  }

  /**
   * A problem from a group of columns: each column without its last
   * character, trimmed, is a number; the operator is the last character of
   * the group's first column.
   */
  function ProblemOf(group: seq<string>): Problem
    requires Readable(group)
  {
    var numbers := seq(|group|, m requires 0 <= m < |group| && Readable(group) => ColumnNumber(group[m]));
    Problem(numbers, group[0][|group[0]| - 1])
  }

  /** A column holding a number's digits between blanks, above any operator character, reads as that number. */
  lemma ReadColumn(left: string, x: nat, right: string, last: char)
    requires Blank(left) && Blank(right)
    ensures var column := left + Decimal(x) + right + [last];
            ReadableColumn(column) && ColumnNumber(column) == x
  {
    var column := left + Decimal(x) + right + [last];
    assert column[..|column| - 1] == left + Decimal(x) + right;
    TrimPadded(left, Decimal(x), right);
    ParseDecimal(x);
  }

  /** The line table, padded and turned into columns, split at the blank columns. */
  function ColumnGroups(input: string): seq<seq<string>>
    requires |Lines(input)| >= 1
  {
    Groups(Transposed(Padded(Lines(input))))
  }

  /** What `parse_input_part2` needs not to panic: a line, and every group readable. */
  predicate Part2Regular(input: string) {
    |Lines(input)| >= 1 && forall k :: 0 <= k < |ColumnGroups(input)| ==> Readable(ColumnGroups(input)[k])
  }

  /** `parse_input_part2`: one problem per group of columns, in order. */
  method ParseInputPart2(input: string) returns (data: seq<Problem>)
    requires Part2Regular(input)
    ensures |data| == |ColumnGroups(input)|
    ensures forall k :: 0 <= k < |data| ==> data[k] == ProblemOf(ColumnGroups(input)[k])
  {
    var table := Lines(input);
    table := PadRows(table);
    var columns := Transpose(table);
    var problems := Groups(columns);
    assert problems == ColumnGroups(input);
    data := [];
    for k := 0 to |problems|
      invariant |data| == k
      invariant forall i :: 0 <= i < k ==> data[i] == ProblemOf(problems[i])
    {
      var problem := problems[k];
      var numbers := seq(|problem|, m requires 0 <= m < |problem| && Readable(problem) => ColumnNumber(problem[m]));
      data := data + [Problem(numbers, problem[0][|problem[0]| - 1])];
    }
  }
}
