/** What a decimal is worth: its whole part, and its fraction over the power of ten of its length. */
module DecimalsMeaning {
  import opened Common
  import opened Chunks
  import opened Decimals

  lemma Shift(x: int, y: int, p: int, d: int)
    ensures (x * p + y) * 10 + d == x * (10 * p) + (y * 10 + d)
  {
  }

  function Value(c: char): int {
    c as int - '0' as int
  }

  lemma NumberLast(s: string)
    requires AllDigits(s) && s != ""
    ensures Number(s) == Number(s[..|s| - 1]) * 10 + Value(s[|s| - 1])
  {
  }

  lemma LastOfConcat(a: string, b: string)
    requires AllDigits(a) && AllDigits(b) && b != ""
    ensures AllDigits(a + b) && (a + b)[..|a + b| - 1] == a + b[..|b| - 1] && (a + b)[|a + b| - 1] == b[|b| - 1]
  {
  }

  /** The number that digits behind digits write, given the power of ten they shift by. */
  lemma {:induction false} NumberConcat(a: string, b: string, p: nat)
    requires AllDigits(a) && AllDigits(b) && AllDigits(a + b) && p == Pow10(|b|)
    ensures Number(a + b) == Number(a) * p + Number(b)
    decreases |b|
  {
    if b == "" {
      assert a + b == a;
    } else {
      var n := |b| - 1;
      LastOfConcat(a, b);
      NumberConcat(a, b[..n], Pow10(n));
      NumberLast(a + b);
      NumberLast(b);
      Shift(Number(a), Number(b[..n]), Pow10(n), Value(b[n]));
    }
  }

  /** Digits with a point are worth the whole part plus the fraction over the power of ten of its length. */
  lemma ReadsPointed(whole: string, fraction: string) returns (num: nat, den: nat)
    requires AllDigits(whole) && AllDigits(fraction) && whole + fraction != ""
    ensures ReadDigits(whole + "." + fraction) == Some(Rational(num, den))
    ensures den == Pow10(|fraction|) && num == Number(whole) * den + Number(fraction)
  {
    assert AllDigits(whole + fraction);
    PointSplits(whole, fraction, whole + fraction);
    num, den := Number(whole + fraction), Pow10(|fraction|);
    NumberConcat(whole, fraction, den);
  }

  lemma {:induction false} PointOfDigits(s: string)
    requires AllDigits(s)
    ensures Point(s) == |s|
    decreases |s|
  {
    if s != "" { PointOfDigits(s[1..]); }
  }

  /** Digits alone are worth their number. */
  lemma ReadsWhole(whole: string)
    requires AllDigits(whole) && whole != ""
    ensures ReadDigits(whole) == Some(Rational(Number(whole), 1))
  {
    PointOfDigits(whole);
    assert whole[..|whole|] == whole && whole + "" == whole;
  }

  lemma QuotientIsOnly(scaled: nat, den: nat, q: nat)
    requires den > 0 && q * den <= scaled < (q + 1) * den
    ensures scaled / den == q && scaled % den == scaled - q * den
  {
    var d, r := scaled / den, scaled % den;
    assert scaled == d * den + r && 0 <= r < den;
    if d < q { MulLess(d + 1, q, den); }
    if q < d { MulLess(q + 1, d, den); }
  }

  lemma MulLess(a: int, b: int, den: nat)
    requires a <= b
    ensures a * den <= b * den
  {
  }

  lemma QuotientTimesTen(scaled: nat, den: nat, roundUp: bool)
    requires den > 0
    ensures Quotient(10 * scaled, 10 * den, roundUp) == Quotient(scaled, den, roundUp)
  {
    var q, r := scaled / den, scaled % den;
    TenTimes(q, den, r, scaled);
    QuotientIsOnly(10 * scaled, 10 * den, q);
  }

  lemma TenTimes(q: nat, den: nat, r: nat, scaled: nat)
    requires scaled == q * den + r && r < den
    ensures q * (10 * den) + 10 * r == 10 * scaled < (q + 1) * (10 * den)
  {
    Shift(q, r, den, 0);
    Shift(q + 1, 0, den, 0);
  }

  function Bounded(quotient: nat): Result<int> {
    if quotient > MAX_INT64 then Err else Ok(quotient)
  }

  lemma ReadAsDigits(value: string, num: nat, den: nat, roundUp: bool, scaled: nat)
    requires den > 0 && ReadDecimal(value) == Some(Rational(num, den)) && scaled == num * MICRO
    ensures DecimalToMicro(value, roundUp) == Bounded(Quotient(scaled, den, roundUp))
  {
  }

  lemma ZeroShifts(whole: string, fraction: string, num: nat, den: nat, longer: nat)
    requires AllDigits(whole) && AllDigits(fraction) && AllDigits(fraction + "0")
    requires den == Pow10(|fraction|) && num == Number(whole) * den + Number(fraction)
    requires longer == Number(whole) * (10 * den) + Number(fraction + "0")
    ensures longer == 10 * num
  {
    NumberAppend(fraction, 0);
    assert [Digit(0)] == "0";
    Shift(Number(whole), Number(fraction), den, 0);
  }

  /** A zero behind the fraction changes no amount read. */
  lemma TrailingZero(whole: string, fraction: string, roundUp: bool)
    requires AllDigits(whole) && AllDigits(fraction) && whole + fraction != ""
    ensures DecimalToMicro(whole + "." + (fraction + "0"), roundUp) == DecimalToMicro(whole + "." + fraction, roundUp)
  {
    var num, den := ReadsPointed(whole, fraction);
    var longer, ten := ReadsPointed(whole, fraction + "0");
    assert ten == 10 * den;
    ZeroShifts(whole, fraction, num, den, longer);
    Pow10IsPositive(|fraction|);
    NoSign(whole, fraction);
    NoSign(whole, fraction + "0");
    SameAmount(whole + "." + fraction, whole + "." + (fraction + "0"), num, den, roundUp);
  }

  lemma SameAmount(a: string, b: string, num: nat, den: nat, roundUp: bool)
    requires den > 0 && ReadDecimal(a) == Some(Rational(num, den)) && ReadDecimal(b) == Some(Rational(10 * num, 10 * den))
    ensures DecimalToMicro(b, roundUp) == DecimalToMicro(a, roundUp)
  {
    var scaled := num * MICRO;
    ReadAsDigits(a, num, den, roundUp, scaled);
    ReadAsDigits(b, 10 * num, 10 * den, roundUp, 10 * scaled);
    QuotientTimesTen(scaled, den, roundUp);
  }

  /** A sign in front of digits. */
  lemma SignedReads(digits: string)
    requires ReadDigits(digits).Some?
    ensures ReadDecimal("+" + digits) == ReadDigits(digits)
    ensures ReadDecimal("-" + digits) == Some(Rational(-ReadDigits(digits).value.num, ReadDigits(digits).value.den))
  {
    assert ("+" + digits)[1..] == digits && ("-" + digits)[1..] == digits;
  }

  lemma NoSign(whole: string, fraction: string)
    requires AllDigits(whole)
    ensures ReadDecimal(whole + "." + fraction) == ReadDigits(whole + "." + fraction)
  {
    var s := whole + "." + fraction;
    assert s[0] == if whole == "" then '.' else whole[0];
  }
}
