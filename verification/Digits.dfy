/**
 Decimal numbers: `group_digits` of `src/libs/util.rs`, and the reading of unsigned
 numbers that `declares_oversized_body` relies on.
*/
module Digits {
  import opened Text

  predicate AllDigits(s: string) {
    forall i :: 0 <= i < |s| ==> IsDigit(s[i])
  }

  /** `to_string` of an unsigned number. */
  function Decimal(n: nat): (s: string)
    ensures s != "" && AllDigits(s)
    ensures n > 0 ==> s[0] != '0'
  {
    var digit := ('0' as int + n % 10) as char;
    if n < 10 then [digit] else Decimal(n / 10) + [digit]
  }

  function Value(s: string): nat
    requires AllDigits(s)
  {
    if s == "" then 0 else Value(s[..|s| - 1]) * 10 + (s[|s| - 1] as int - '0' as int)
  }

  lemma {:induction false} DecimalReadsBack(n: nat)
    ensures Value(Decimal(n)) == n
  {
    if n >= 10 {
      DecimalReadsBack(n / 10);
      assert Decimal(n)[..|Decimal(n)| - 1] == Decimal(n / 10);
    }
  }

  // ----- Grouping -----

  /** Digits in threes from the right. */
  function Grouped(digits: string): (s: string) {
    if |digits| <= 3 then digits
    else Grouped(digits[..|digits| - 3]) + [','] + digits[|digits| - 3..]
  }

  /** What the loop has written after `i` digits. */
  function Written(digits: string, i: nat): string
    requires i <= |digits|
  {
    if i == 0 then ""
    else
      Written(digits, i - 1)
      + (if i > 1 && (|digits| - (i - 1)) % 3 == 0 then [','] else [])
      + [digits[i - 1]]
  }

  method GroupDigits(n: nat) returns (out: string)
    ensures out == Grouped(Decimal(n))
  {
    var digits := Decimal(n);
    out := "";
    for i := 0 to |digits|
      invariant out == Written(digits, i)
    {
      if i > 0 && (|digits| - i) % 3 == 0 {
        out := out + [','];
      }
      out := out + [digits[i]];
    }
    WrittenIsGrouped(digits);
  }

  /** Three digits fewer on the right change nothing on the left. */
  lemma {:induction false} WrittenPrefix(digits: string, i: nat)
    requires |digits| > 3 && i <= |digits| - 3
    ensures Written(digits, i) == Written(digits[..|digits| - 3], i)
  {
    if i > 0 {
      WrittenPrefix(digits, i - 1);
      assert (|digits| - 3 - (i - 1)) % 3 == (|digits| - (i - 1)) % 3;
    }
  }

  lemma CommaAndDigit(digits: string, i: nat)
    requires 0 < i < |digits| && (|digits| - i) % 3 == 0
    ensures Written(digits, i + 1) == Written(digits, i) + [','] + [digits[i]]
  {
  }

  lemma DigitAlone(digits: string, i: nat)
    requires i < |digits| && (i == 0 || (|digits| - i) % 3 != 0)
    ensures Written(digits, i + 1) == Written(digits, i) + [digits[i]]
  {
    assert Written(digits, i) + [] == Written(digits, i);
  }

  lemma WrittenShort(digits: string, i: nat)
    requires i <= |digits| <= 3
    ensures Written(digits, i) == digits[..i]
  {
    if i == 0 {
      assert digits[..0] == "";
    } else {
      hide Written;
      WrittenShort(digits, i - 1);
      assert i == 1 || |digits| - (i - 1) == 1 || |digits| - (i - 1) == 2;
      DigitAlone(digits, i - 1);
      assert digits[..i] == digits[..i - 1] + [digits[i - 1]];
    }
  }

  lemma ThreeMore(w: string, tail: string)
    requires |tail| == 3
    ensures w + [tail[0]] + [tail[1]] + [tail[2]] == w + tail
  {
  }

  lemma LastThreeWritten(digits: string)
    requires |digits| > 3
    ensures Written(digits, |digits|) == Written(digits, |digits| - 3) + [','] + digits[|digits| - 3..]
  {
    hide Written;
    var d := |digits|;
    CommaAndDigit(digits, d - 3);
    DigitAlone(digits, d - 2);
    DigitAlone(digits, d - 1);
    ThreeMore(Written(digits, d - 3) + [','], digits[d - 3..]);
  }

  lemma {:induction false} WrittenIsGrouped(digits: string)
    ensures Written(digits, |digits|) == Grouped(digits)
  {
    hide Written;
    if |digits| <= 3 {
      WrittenShort(digits, |digits|);
      assert digits[..|digits|] == digits;
    } else {
      WrittenIsGrouped(digits[..|digits| - 3]);
      WrittenPrefix(digits, |digits| - 3);
      LastThreeWritten(digits);
    }
  }

  /** Every group but the first has three digits, and the first one to three. */
  predicate InThrees(groups: seq<string>) {
    && groups != [] && 1 <= |groups[0]| <= 3
    && forall i :: 1 <= i < |groups| ==> |groups[i]| == 3
  }

  lemma {:induction false} GroupsAreThrees(digits: string)
    requires digits != "" && AllDigits(digits)
    ensures InThrees(Split(Grouped(digits), ','))
    ensures |Grouped(digits)| == |digits| + (|digits| - 1) / 3
  {
    if |digits| <= 3 {
      SplitWithout(digits, ',');
    } else {
      var front, tail := digits[..|digits| - 3], digits[|digits| - 3..];
      GroupsAreThrees(front);
      SplitAtLast(Grouped(front), tail, ',');
    }
  }

  lemma {:induction false} ReplaceAtComma(u: string, v: string)
    ensures Replace(u + [','] + v, [','], []) == Replace(u, [','], []) + Replace(v, [','], [])
  {
    if u == "" {
      assert u + [','] + v == [','] + v;
      ReplaceOne(',', v, ',', []);
    } else {
      hide Replace;
      var x, rest := u[0], u[1..];
      ReplaceAtComma(rest, v);
      assert u + [','] + v == [x] + (rest + [','] + v);
      assert u == [x] + rest;
      ReplaceOne(x, rest + [','] + v, ',', []);
      ReplaceOne(x, rest, ',', []);
      Associates(if x == ',' then [] else [x], Replace(rest, [','], []), Replace(v, [','], []));
    }
  }

  lemma {:induction false} CommasComeOff(digits: string)
    requires AllDigits(digits)
    ensures Replace(Grouped(digits), [','], []) == digits
  {
    if |digits| <= 3 {
      ReplaceAbsent(digits, [','], []);
    } else {
      hide Replace;
      var front, tail := digits[..|digits| - 3], digits[|digits| - 3..];
      CommasComeOff(front);
      ReplaceAtComma(Grouped(front), tail);
      ReplaceAbsent(tail, [','], []);
      assert front + tail == digits;
    }
  }

  /** Without its commas a grouped number is the number. */
  lemma GroupedNumberReadsBack(n: nat)
    ensures var plain := Replace(Grouped(Decimal(n)), [','], []);
            AllDigits(plain) && Value(plain) == n
    ensures InThrees(Split(Grouped(Decimal(n)), ','))
  {
    CommasComeOff(Decimal(n));
    DecimalReadsBack(n);
    GroupsAreThrees(Decimal(n));
  }

  // ----- Reading -----

  const U64_LIMIT := 0x1_0000_0000_0000_0000

  /** `str::parse::<u64>`: an optional plus sign, digits, and no overflow. */
  function ParseU64(s: string): Option<nat> {
    var body := if s != "" && s[0] == '+' then s[1..] else s;
    if body == "" || !AllDigits(body) then None
    else if Value(body) < U64_LIMIT then Some(Value(body))
    else None
  }

  /** A number that fits is read back, with or without a plus sign, and one that does not is refused. */
  lemma ParsedAsWritten(n: nat)
    ensures ParseU64(Decimal(n)) == if n < U64_LIMIT then Some(n) else None
    ensures ParseU64(['+'] + Decimal(n)) == ParseU64(Decimal(n))
  {
    DecimalReadsBack(n);
    assert IsDigit(Decimal(n)[0]);
    assert (['+'] + Decimal(n))[1..] == Decimal(n);
  }

  function Zeros(k: nat): (s: string)
    ensures |s| == k && AllDigits(s)
  {
    seq(k, _ => '0')
  }

  lemma ValueOfOneMore(s: string, c: char)
    requires AllDigits(s) && IsDigit(c)
    ensures AllDigits(s + [c]) && Value(s + [c]) == Value(s) * 10 + (c as int - '0' as int)
  {
    assert (s + [c])[..|s|] == s;
  }

  lemma DecimalOfOneMore(n: nat, c: char)
    requires n > 0 && IsDigit(c)
    ensures Decimal(n * 10 + (c as int - '0' as int)) == Decimal(n) + [c]
  {
    var more := n * 10 + (c as int - '0' as int);
    assert more / 10 == n && more % 10 == c as int - '0' as int;
  }

  lemma DecimalOfOne(c: char)
    requires IsDigit(c)
    ensures AllDigits([c]) && Value([c]) == c as int - '0' as int && Decimal(Value([c])) == [c]
  {
    assert Value([]) == 0 && [c][..0] == [];
  }

  /** Digits that do not start with a zero are the decimal form of their value. */
  lemma {:induction false} DigitsAreDecimal(s: string)
    requires s != "" && AllDigits(s) && (s[0] != '0' || |s| == 1)
    ensures Decimal(Value(s)) == s
    ensures s[0] != '0' ==> Value(s) > 0
  {
    hide Decimal, Value;
    var front, last := s[..|s| - 1], s[|s| - 1];
    assert s == front + [last];
    if front == "" {
      assert s == [last];
      DecimalOfOne(last);
    } else {
      DigitsAreDecimal(front);
      ValueOfOneMore(front, last);
      DecimalOfOneMore(Value(front), last);
    }
  }

  lemma {:induction false} ValueOfZeros(k: nat, s: string)
    requires AllDigits(s)
    ensures AllDigits(Zeros(k) + s) && Value(Zeros(k) + s) == Value(s)
  {
    if s != "" {
      var front, last := s[..|s| - 1], s[|s| - 1];
      ValueOfZeros(k, front);
      ValueOfOneMore(front, last);
      ValueOfOneMore(Zeros(k) + front, last);
      assert front + [last] == s && Zeros(k) + front + [last] == Zeros(k) + s;
    } else if k > 0 {
      ValueOfZeros(k - 1, "");
      ValueOfOneMore(Zeros(k - 1), '0');
      assert Zeros(k - 1) + [] == Zeros(k - 1) && Zeros(k - 1) + ['0'] == Zeros(k) + s;
    } else {
      assert Zeros(0) + s == "";
    }
  }

  lemma {:induction false} ZerosAndDecimal(s: string) returns (k: nat)
    requires s != "" && AllDigits(s)
    ensures s == Zeros(k) + Decimal(Value(s))
  {
    if s[0] == '0' && |s| > 1 {
      k := ZerosAndDecimal(s[1..]);
      ValueOfZeros(1, s[1..]);
      assert s == Zeros(1) + s[1..];
      assert Zeros(k + 1) == Zeros(1) + Zeros(k);
      k := k + 1;
    } else {
      k := 0;
      DigitsAreDecimal(s);
      assert Zeros(0) + s == s;
    }
  }

  /** `s` writes `n` in decimal, perhaps after a plus sign and leading zeros. */
  predicate Writes(s: string, plus: string, k: nat, n: nat) {
    (plus == "" || plus == "+") && s == plus + (Zeros(k) + Decimal(n))
  }

  lemma WrittenIsParsed(s: string, plus: string, k: nat, n: nat)
    requires Writes(s, plus, k, n)
    ensures ParseU64(s) == if n < U64_LIMIT then Some(n) else None
  {
    var body := Zeros(k) + Decimal(n);
    ValueOfZeros(k, Decimal(n));
    DecimalReadsBack(n);
    assert IsDigit(body[0]);
    assert plus == "" ==> s == body;
    assert plus == "+" ==> s[0] == '+' && s[1..] == body;
  }

  /** What is parsed is a decimal number that fits, perhaps after a plus sign and zeros, and nothing else. */
  lemma ParsedIff(s: string, n: nat)
    ensures ParseU64(s) == Some(n) <==> n < U64_LIMIT && exists plus, k :: Writes(s, plus, k, n)
  {
    if ParseU64(s) == Some(n) {
      var plus := if s != "" && s[0] == '+' then "+" else "";
      var body := if s != "" && s[0] == '+' then s[1..] else s;
      var k := ZerosAndDecimal(body);
      assert s == plus + body;
      assert Writes(s, plus, k, n);
    }
    if n < U64_LIMIT {
      if plus, k :| Writes(s, plus, k, n) {
        WrittenIsParsed(s, plus, k, n);
      }
    }
  }
}
