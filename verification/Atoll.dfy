/**
  Reading a 64-bit integer from its decimal text, as used for BIGINT fields, with
  the signed 64-bit arithmetic of the machine written out: `Wrap` is what two's
  complement leaves, and `overflowed` records that some intermediate result did
  not fit, which the language of the source leaves undefined. Texts are ASCII.
*/
module Atoll {

  const LLONG_MAX: int := 9223372036854775807
  const LLONG_MIN: int := -LLONG_MAX - 1
  const LLONG_18: int := 922337203685477580
  const TWO_64: int := 0x1_0000_0000_0000_0000

  predicate Fits(x: int) { LLONG_MIN <= x <= LLONG_MAX }

  function Wrap(x: int): (r: int)
    ensures Fits(r)
    ensures Fits(x) ==> r == x
  {
    (x - LLONG_MIN) % TWO_64 + LLONG_MIN
  }

  predicate IsDigit(c: char) { '0' <= c <= '9' }

  function DigitOf(c: char): int
    requires IsDigit(c)
  {
    c as int - '0' as int
  }

  // ---------- decimal value of a run of digits ----------

  function DigitRun(s: string): (n: nat)
    ensures n <= |s|
    ensures forall i :: 0 <= i < n ==> IsDigit(s[i])
    ensures n < |s| ==> !IsDigit(s[n])
  {
    if s == "" || !IsDigit(s[0]) then 0 else 1 + DigitRun(s[1..])
  }

  predicate AllDigits(s: string) { forall i :: 0 <= i < |s| ==> IsDigit(s[i]) }

  function Value(s: string): (v: int)
    requires AllDigits(s)
    ensures v >= 0
  {
    if s == "" then 0 else Value(s[..|s| - 1]) * 10 + DigitOf(s[|s| - 1])
  }

  lemma {:induction false} LongerIsNotSmaller(s: string, n: nat)
    requires AllDigits(s) && n <= |s|
    ensures Value(s) >= Value(s[..n])
    ensures n < |s| ==> Value(s) >= Value(s[..n + 1]) == Value(s[..n]) * 10 + DigitOf(s[n])
    decreases |s|
  {
    if n == |s| {
      assert s[..n] == s;
    } else {
      var front := s[..|s| - 1];
      LongerIsNotSmaller(front, n);
      assert front[..n] == s[..n];
      assert s[..n + 1][..n] == s[..n];
      if n + 1 == |s| {
        assert s[..n + 1] == s;
      } else {
        assert front[..n + 1] == s[..n + 1];
      }
    }
  }

  // ---------- what the text says, and what is read ----------

  function IsNegative(text: string): bool { text != "" && text[0] == '-' }

  function Unsigned(text: string): string {
    if text != "" && (text[0] == '-' || text[0] == '+') then text[1..] else text
  }

  function Digits(text: string): (s: string)
    ensures AllDigits(s)
  {
    Unsigned(text)[..DigitRun(Unsigned(text))]
  }

  function Junk(text: string): string { Unsigned(text)[DigitRun(Unsigned(text))..] }

  // The integer a text stands for: its sign and leading digits.
  function Meaning(text: string): int { if IsNegative(text) then -Value(Digits(text)) else Value(Digits(text)) }

  datatype Reading = Reading(value: int, overflowed: bool)

  // The saturation test, made once, on the character behind 18 digits.
  predicate Saturates(u: string, negative: bool)
  {
    |u| > 18 && DigitRun(u) >= 18 && Value(u[..18]) >= LLONG_18 && u[18] > (if negative then '8' else '7')
  }

  predicate Saturated(text: string) { Saturates(Unsigned(text), IsNegative(text)) }

  function ReadDigits(u: string, negative: bool): Reading
  {
    var v := Value(u[..DigitRun(u)]);
    if Saturates(u, negative) then Reading(if negative then LLONG_MIN else LLONG_MAX, false)
    else if negative && DigitRun(u) == |u| then Reading(Wrap(-v), v > LLONG_MAX)
    else Reading(Wrap(v), v > LLONG_MAX)
  }

  function Read(text: string): Reading { ReadDigits(Unsigned(text), IsNegative(text)) }

  lemma WrapStep(x: int, d: int)
    ensures Wrap(Wrap(x) * 10 + d) == Wrap(x * 10 + d)
  {
    var k := (x - LLONG_MIN) / TWO_64;
    assert x == Wrap(x) + k * TWO_64;
    WrapShift(Wrap(x) * 10 + d, 10 * k);
  }

  lemma WrapNegate(x: int)
    ensures Wrap(-Wrap(x)) == Wrap(-x)
  {
    var k := (x - LLONG_MIN) / TWO_64;
    assert x == Wrap(x) + k * TWO_64;
    WrapShift(-x, k);
  }

  lemma WrapShift(x: int, k: int)
    ensures Wrap(x + k * TWO_64) == Wrap(x)
  {
    var y := x - LLONG_MIN;
    assert (y + k * 0x1_0000_0000_0000_0000) % 0x1_0000_0000_0000_0000 == y % 0x1_0000_0000_0000_0000;
  }

  // The state of the loop behind the digits s.
  predicate Accumulated(s: string, bi: int, overflowed: bool)
  {
    AllDigits(s) && bi == Wrap(Value(s)) && overflowed == (Value(s) > LLONG_MAX)
  }

  lemma DigitStep(u: string, i: nat, bi: int, overflowed: bool)
    requires i < |u| && Accumulated(u[..i], bi, overflowed) && IsDigit(u[i])
    ensures var d := DigitOf(u[i]);
            Accumulated(u[..i + 1], Wrap(bi * 10 + d), overflowed || !Fits(bi * 10) || !Fits(bi * 10 + d))
  {
    assert u[..i + 1][..i] == u[..i];
    WrapStep(Value(u[..i]), DigitOf(u[i]));
  }

  /** The reader, on every text. An intermediate result leaves the 64-bit range
      exactly when the digits are worth more than the largest integer and the one
      saturation test does not fire; it looks at the nineteenth character only. */
  method ScAtoll(text: string) returns (r: int, ghost overflowed: bool)
    ensures r == Read(text).value
    ensures overflowed <==> Value(Digits(text)) > LLONG_MAX && !Saturated(text)
  {
    var p, isNegative := 0, false;
    if text != "" && text[0] == '-' {
      isNegative, p := true, 1;
    } else if text != "" && text[0] == '+' {
      p := 1;
    }
    r, overflowed := ScanDigits(text[p..], isNegative);
  }

  // What is returned at the first character that is no digit, and at the end.
  lemma StopsAt(u: string, i: nat, negative: bool, bi: int, overflowed: bool)
    requires i <= |u| && Accumulated(u[..i], bi, overflowed) && i == DigitRun(u) && !Saturates(u, negative)
    ensures ReadDigits(u, negative) == Reading(if negative && i == |u| then Wrap(-bi) else bi, overflowed)
  {
    WrapNegate(Value(u[..i]));
  }

  lemma SaturatesAt(u: string, negative: bool, bi: int, overflowed: bool)
    requires |u| > 18 && DigitRun(u) >= 18 && Accumulated(u[..18], bi, overflowed)
    ensures bi == Value(u[..18])
    ensures Saturates(u, negative) <==> bi >= LLONG_18 && u[18] > (if negative then '8' else '7')
  {
    ShortValueFits(u[..18]);
  }

  method ScanDigits(u: string, isNegative: bool) returns (r: int, ghost overflowed: bool)
    ensures r == ReadDigits(u, isNegative).value
    ensures overflowed == ReadDigits(u, isNegative).overflowed
  {
    ghost var run := DigitRun(u);
    var bi, i := 0, 0;
    overflowed := false;
    while i < |u|
      invariant 0 <= i <= |u| && i <= run && Accumulated(u[..i], bi, overflowed)
      invariant i > 18 ==> !Saturates(u, isNegative)
    {
      var c := u[i];
      if i == 18 {
        SaturatesAt(u, isNegative, bi, overflowed);
        if isNegative {
          if bi >= LLONG_18 && c > '8' {
            return LLONG_MIN, false;
          }
        } else if bi >= LLONG_18 && c > '7' {
          return LLONG_MAX, false;
        }
      }
      if IsDigit(c) {
        DigitStep(u, i, bi, overflowed);
        overflowed := overflowed || !Fits(bi * 10) || !Fits(bi * 10 + DigitOf(c));
        bi := Wrap(bi * 10 + DigitOf(c));
      } else {
        StopsAt(u, i, isNegative, bi, overflowed);
        return bi, overflowed;
      }
      i := i + 1;
    }
    StopsAt(u, i, isNegative, bi, overflowed);
    r := if isNegative then Wrap(-bi) else bi;
  }

  function Pow10(k: nat): nat { if k == 0 then 1 else 10 * Pow10(k - 1) }

  lemma {:induction false} ValueBelow(s: string)
    requires AllDigits(s)
    ensures Value(s) < Pow10(|s|)
  {
    if s != "" {
      ValueBelow(s[..|s| - 1]);
    }
  }

  lemma PowersOfTen()
    ensures Pow10(18) == 1000000000000000000 && Pow10(19) == 10000000000000000000
  {
    assert Pow10(6) == 1000000;
    assert Pow10(12) == 1000000000000;
  }

  lemma ShortValueFits(s: string)
    requires AllDigits(s) && |s| <= 18
    ensures Value(s) < 1000000000000000000
  {
    ValueBelow(s);
    PowersOfTen();
    PowersGrow(|s|, 18);
  }

  lemma {:induction false} PowersGrow(a: nat, b: nat)
    requires a <= b
    ensures Pow10(a) <= Pow10(b)
  {
    if a < b {
      PowersGrow(a, b - 1);
    }
  }

  // ---------- what the reader gets right ----------

  lemma SaturatedIsBig(u: string, negative: bool)
    requires Saturates(u, negative) && DigitRun(u) > 18
    ensures Value(u[..DigitRun(u)]) > LLONG_MAX
    ensures negative ==> Value(u[..DigitRun(u)]) > -LLONG_MIN
  {
    var d := u[..DigitRun(u)];
    LongerIsNotSmaller(d, 18);
    assert d[..18] == u[..18];
  }

  /** On digits worth at most the largest integer, the reader returns what the
      text means if and only if the minus sign is not lost, which happens when
      something follows the digits, and the character behind exactly 18 digits
      is not taken for a digit by the saturation test. */
  lemma ReadsMeaningExactly(text: string)
    requires Value(Digits(text)) <= LLONG_MAX
    ensures Read(text).value == Meaning(text) <==>
            && (IsNegative(text) && Junk(text) != "" ==> Value(Digits(text)) == 0)
            && !(Saturated(text) && |Digits(text)| == 18)
  {
    var u, neg := Unsigned(text), IsNegative(text);
    assert Junk(text) == "" <==> DigitRun(u) == |u|;
    if Saturates(u, neg) {
      if DigitRun(u) > 18 {
        SaturatedIsBig(u, neg);
      } else {
        assert u[..18] == Digits(text);
        ShortValueFits(Digits(text));
      }
    }
  }

  /** Beyond the range, saturation gives the right bound whenever it fires behind
      at least 19 digits. */
  lemma SaturationIsSound(text: string)
    requires Saturated(text) && |Digits(text)| > 18
    ensures Read(text).value == (if Meaning(text) < LLONG_MIN then LLONG_MIN else LLONG_MAX)
    ensures !Fits(Meaning(text))
  {
    SaturatedIsBig(Unsigned(text), IsNegative(text));
  }

  // ---------- the decimal text of an integer ----------

  function Digit(d: int): char
    requires 0 <= d < 10
  {
    '0' + d as char
  }

  function Numeral(n: nat): (s: string)
    ensures s != "" && AllDigits(s)
  {
    if n < 10 then [Digit(n)] else Numeral(n / 10) + [Digit(n % 10)]
  }

  // As printed for BIGINT fields.
  function Decimal(x: int): string { if x < 0 then "-" + Numeral(-x) else Numeral(x) }

  lemma {:induction false} NumeralValue(n: nat)
    ensures Value(Numeral(n)) == n
    ensures n >= 10 ==> Value(Numeral(n)[..|Numeral(n)| - 1]) == n / 10
  {
    if n >= 10 {
      NumeralValue(n / 10);
      assert Numeral(n)[..|Numeral(n)| - 1] == Numeral(n / 10);
    } else {
      assert Numeral(n)[..0] == "";
    }
  }

  lemma {:induction false} NumeralLength(n: nat, k: nat)
    requires n < Pow10(k) && k > 0
    ensures |Numeral(n)| <= k
  {
    if n >= 10 {
      NumeralLength(n / 10, k - 1);
    }
  }

  lemma {:induction false} WholeRun(s: string)
    requires AllDigits(s)
    ensures DigitRun(s) == |s|
  {
    if s != "" {
      WholeRun(s[1..]);
    }
  }

  lemma NumeralDoesNotSaturate(n: nat, negative: bool)
    requires n <= if negative then -LLONG_MIN else LLONG_MAX
    ensures !Saturates(Numeral(n), negative)
  {
    var s := Numeral(n);
    PowersOfTen();
    NumeralLength(n, 19);
    if |s| == 19 {
      NumeralValue(n);
      assert s[18] == Digit(n % 10);
    }
  }

  /** Every 64-bit integer survives being printed and read back. An intermediate
      result leaves the range for the smallest integer only, whose magnitude does
      not fit; the saturation test never fires. */
  lemma DecimalRoundTrip(x: int)
    requires Fits(x)
    ensures Read(Decimal(x)).value == x
    ensures Read(Decimal(x)).overflowed <==> x == LLONG_MIN
    ensures !Saturated(Decimal(x))
  {
    var n := if x < 0 then -x else x;
    var s := Numeral(n);
    NumeralValue(n);
    WholeRun(s);
    assert s[..|s|] == s;
    NumeralDoesNotSaturate(n, x < 0);
    if x < 0 {
      assert Decimal(x)[1..] == s;
      assert Unsigned(Decimal(x)) == s && IsNegative(Decimal(x));
    } else {
      assert Unsigned(Decimal(x)) == s && !IsNegative(Decimal(x));
    }
  }

  /** Different integers have different texts. */
  lemma DecimalIsInjective(x: int, y: int)
    requires Decimal(x) == Decimal(y)
    ensures x == y
  {
    DecimalBack(x);
    DecimalBack(y);
  }

  lemma DecimalBack(x: int)
    ensures IsNegative(Decimal(x)) <==> x < 0
    ensures Value(Unsigned(Decimal(x))) == if x < 0 then -x else x
  {
    var s := Numeral(if x < 0 then -x else x);
    NumeralValue(if x < 0 then -x else x);
    assert Decimal(x) == if x < 0 then ['-'] + s else s;
    assert (['-'] + s)[1..] == s;
  }
}
