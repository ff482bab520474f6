/** USDT amounts: millionths written as decimals, and decimals read back as millionths. */
module Decimals {
  import opened Common
  import opened Chunks

  const MICRO: nat := 1_000_000

  predicate AllDigits(s: string) {
    forall i :: 0 <= i < |s| ==> '0' <= s[i] <= '9'
  }

  /** The number a string of digits writes. */
  function Number(s: string): nat
    requires AllDigits(s)
  {
    if s == "" then 0 else Number(s[..|s| - 1]) * 10 + (s[|s| - 1] as nat - '0' as nat)
  }

  function Pow10(n: nat): nat {
    if n == 0 then 1 else 10 * Pow10(n - 1)
  }

  /** Six digits, as FloatString(6) writes what is below one. */
  function SixDigits(n: nat): string
    requires n < MICRO
  {
    [Digit(n / 100_000), Digit(n / 10_000 % 10), Digit(n / 1_000 % 10), Digit(n / 100 % 10), Digit(n / 10 % 10), Digit(n % 10)]
  }

  function MicroToDecimal(micro: int): string {
    if micro < 0 then "-" + Unsigned(-micro) else Unsigned(micro)
  }

  function Unsigned(micro: nat): string {
    Decimal(micro / MICRO) + "." + SixDigits(micro % MICRO)
  }

  // ---------------------------------------------------------------- reading

  datatype Rational = Rational(num: int, den: nat)

  /** Where the point is, or the length without one. */
  function Point(s: string): nat {
    if s == "" || s[0] == '.' then 0 else 1 + Point(s[1..])
  }

  lemma {:induction false} PointBounds(s: string)
    ensures Point(s) <= |s| && (Point(s) < |s| ==> s[Point(s)] == '.')
    decreases |s|
  {
    if s != "" && s[0] != '.' { PointBounds(s[1..]); }
  }

  /** Digits with at most one point among or around them. */
  function ReadDigits(s: string): Option<Rational> {
    PointBounds(s);
    var whole := s[..Point(s)];
    var fraction := if Point(s) < |s| then s[Point(s) + 1..] else "";
    if !AllDigits(whole + fraction) || whole + fraction == "" then None
    else Some(Rational(Number(whole + fraction), Pow10(|fraction|)))
  }

  function ReadDecimal(s: string): Option<Rational> {
    if s != "" && s[0] == '-' then
      match ReadDigits(s[1..])
      case None => None
      case Some(r) => Some(Rational(-r.num, r.den))
    else if s != "" && s[0] == '+' then ReadDigits(s[1..])
    else ReadDigits(s)
  }

  lemma {:induction false} Pow10IsPositive(n: nat)
    ensures Pow10(n) > 0
  {
    if n > 0 { Pow10IsPositive(n - 1); }
  }

  lemma ReadDenominator(s: string)
    ensures ReadDecimal(s).Some? ==> ReadDecimal(s).value.den > 0
  {
    forall n: nat ensures Pow10(n) > 0 { Pow10IsPositive(n); }
  }

  /** A quotient, rounded up or down. */
  function Quotient(scaled: nat, den: nat, roundUp: bool): nat
    requires den > 0
  {
    scaled / den + if roundUp && scaled % den > 0 then 1 else 0
  }

  lemma QuotientBounds(scaled: nat, den: nat)
    requires den > 0
    ensures Quotient(scaled, den, false) * den <= scaled < (Quotient(scaled, den, false) + 1) * den
    ensures (Quotient(scaled, den, true) - 1) * den < scaled <= Quotient(scaled, den, true) * den || scaled == 0 == Quotient(scaled, den, true)
  {
    var q, r := scaled / den, scaled % den;
    assert scaled == q * den + r && 0 <= r < den;
    assert (q + 1) * den == q * den + den && (q - 1) * den == q * den - den;
  }

  lemma QuotientOfMicro(n: nat, roundUp: bool)
    ensures Quotient(n * MICRO, MICRO, roundUp) == n
  {
  }

  /** decimalToMicro: millionths, rounded up or down; negative or too large amounts are refused. */
  function DecimalToMicro(value: string, roundUp: bool): Result<int> {
    match ReadDecimal(value)
    case None => Err
    case Some(amount) =>
      ReadDenominator(value);
      if amount.num < 0 then Err
      else
        var quotient := Quotient(amount.num * MICRO, amount.den, roundUp);
        if quotient > MAX_INT64 then Err else Ok(quotient)
  }

  // ---------------------------------------------------------------- round trip

  lemma NumberAppend(s: string, n: nat)
    requires AllDigits(s) && n < 10
    ensures AllDigits(s + [Digit(n)]) && Number(s + [Digit(n)]) == Number(s) * 10 + n
  {
    var t := s + [Digit(n)];
    assert t[..|t| - 1] == s && t[|t| - 1] == Digit(n);
  }

  lemma {:induction false} DecimalReads(n: nat)
    ensures AllDigits(Decimal(n)) && Number(Decimal(n)) == n && Decimal(n) != ""
  {
    if n < 10 {
      NumberAppend("", n);
      assert "" + [Digit(n)] == [Digit(n)];
    } else {
      DecimalReads(n / 10);
      NumberAppend(Decimal(n / 10), n % 10);
    }
  }

  lemma NumberAppend3(s: string, a: nat, b: nat, c: nat)
    requires AllDigits(s) && a < 10 && b < 10 && c < 10
    ensures var t := s + [Digit(a), Digit(b), Digit(c)];
            AllDigits(t) && Number(t) == Number(s) * 1_000 + a * 100 + b * 10 + c
  {
    var s1, s2 := s + [Digit(a)], s + [Digit(a)] + [Digit(b)];
    NumberAppend(s, a);
    NumberAppend(s1, b);
    NumberAppend(s2, c);
    assert s2 + [Digit(c)] == s + [Digit(a), Digit(b), Digit(c)];
  }

  lemma SixDigitsRead(s: string, n: nat)
    requires AllDigits(s) && n < MICRO
    ensures AllDigits(s + SixDigits(n)) && Number(s + SixDigits(n)) == Number(s) * MICRO + n
  {
    var a, b, c, d, e, f := n / 100_000, n / 10_000 % 10, n / 1_000 % 10, n / 100 % 10, n / 10 % 10, n % 10;
    var first, second := [Digit(a), Digit(b), Digit(c)], [Digit(d), Digit(e), Digit(f)];
    NumberAppend3(s, a, b, c);
    NumberAppend3(s + first, d, e, f);
    assert s + first + second == s + SixDigits(n);
    SixDigitValue(n);
  }

  lemma SixDigitValue(n: nat)
    requires n < MICRO
    ensures n == n / 100_000 * 100_000 + n / 10_000 % 10 * 10_000 + n / 1_000 % 10 * 1_000
                 + n / 100 % 10 * 100 + n / 10 % 10 * 10 + n % 10
  {
    assert n / 10 / 10 == n / 100 && n / 100 / 10 == n / 1_000 && n / 1_000 / 10 == n / 10_000 && n / 10_000 / 10 == n / 100_000;
  }

  lemma {:induction false} PointAfterDigits(s: string, rest: string)
    requires AllDigits(s)
    ensures Point(s + "." + rest) == |s|
    decreases |s|
  {
    if s != "" {
      PointAfterDigits(s[1..], rest);
      assert (s + "." + rest)[1..] == s[1..] + "." + rest;
    }
  }

  lemma PointSplits(whole: string, fraction: string, digits: string)
    requires AllDigits(whole) && digits == whole + fraction && AllDigits(digits) && digits != ""
    ensures ReadDigits(whole + "." + fraction) == Some(Rational(Number(digits), Pow10(|fraction|)))
  {
    var s := whole + "." + fraction;
    PointAfterDigits(whole, fraction);
    assert s[..|whole|] == whole && s[|whole| + 1..] == fraction;
  }

  lemma UnsignedReads(micro: nat)
    ensures ReadDigits(Unsigned(micro)) == Some(Rational(micro, MICRO))
    ensures Unsigned(micro) != "" && Unsigned(micro)[0] != '-' && Unsigned(micro)[0] != '+'
  {
    var whole, fraction := Decimal(micro / MICRO), SixDigits(micro % MICRO);
    DecimalReads(micro / MICRO);
    SixDigitsRead(whole, micro % MICRO);
    PointSplits(whole, fraction, whole + fraction);
    SixIsMicro();
    assert Unsigned(micro)[0] == whole[0];
  }

  lemma SixIsMicro()
    ensures Pow10(6) == MICRO
  {
    assert Pow10(6) == 10 * Pow10(5) == 100 * Pow10(4) == 1_000 * Pow10(3) == 10_000 * Pow10(2) == 100_000 * Pow10(1);
  }

  lemma SignReads(digits: string, r: Rational)
    requires digits != "" && digits[0] != '-' && digits[0] != '+' && ReadDigits(digits) == Some(r)
    ensures ReadDecimal(digits) == Some(r) && ReadDecimal("-" + digits) == Some(Rational(-r.num, r.den))
  {
    assert ("-" + digits)[1..] == digits;
  }

  lemma WrittenIsRead(micro: int)
    ensures ReadDecimal(MicroToDecimal(micro)) == Some(Rational(micro, MICRO))
  {
    var size := if micro < 0 then -micro else micro;
    UnsignedReads(size);
    SignReads(Unsigned(size), Rational(size, MICRO));
  }

  lemma WholeMicro(value: string, micro: int, roundUp: bool)
    requires micro <= MAX_INT64 && ReadDecimal(value) == Some(Rational(micro, MICRO))
    ensures DecimalToMicro(value, roundUp) == if micro < 0 then Err else Ok(micro)
  {
    if micro >= 0 { QuotientOfMicro(micro, roundUp); }
  }

  /** Every amount comes back exactly, whichever way reading rounds; a negative one is refused. */
  lemma MicroRoundTrips(micro: int, roundUp: bool)
    requires micro <= MAX_INT64
    ensures DecimalToMicro(MicroToDecimal(micro), roundUp) == if micro < 0 then Err else Ok(micro)
  {
    WrittenIsRead(micro);
    WholeMicro(MicroToDecimal(micro), micro, roundUp);
  }

  /** What is read is the amount rounded to a whole number of millionths, down or up. */
  lemma ReadingRounds(value: string, roundUp: bool)
    requires DecimalToMicro(value, roundUp).Ok?
    ensures ReadDecimal(value).Some? && ReadDecimal(value).value.den > 0 && ReadDecimal(value).value.num >= 0
    ensures var r := ReadDecimal(value).value;
            var micro := DecimalToMicro(value, roundUp).value;
            if roundUp then micro == 0 == r.num || (micro - 1) * r.den < r.num * MICRO <= micro * r.den
            else micro * r.den <= r.num * MICRO < (micro + 1) * r.den
  {
    ReadDenominator(value);
    var r := ReadDecimal(value).value;
    QuotientBounds(r.num * MICRO, r.den);
  }
}
