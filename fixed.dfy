/** Python's `round(x, 2)` and `"{:.2f}"` on numbers taken as exact reals:
    both round to the nearest hundredth, a tie going to the even
    neighbour. */
module FixedPoint {

  import opened Wrappers
  import opened Text

  /** `round(x)`: the nearest integer, ties to the even one. */
  function RoundHalfEven(x: real): (n: int)
    ensures -0.5 <= n as real - x <= 0.5
    ensures (n as real - x == 0.5 || x - n as real == 0.5) ==> n % 2 == 0
  {
    var f := x.Floor;
    var frac := x - f as real;
    if frac < 0.5 then f
    else if frac > 0.5 then f + 1
    else if f % 2 == 0 then f else f + 1
  }

  function Abs(x: real): real
  {
    if x < 0.0 then -x else x
  }

  /** No integer is nearer to `x` than the rounded value. */
  lemma RoundNearest(x: real, m: int)
    ensures Abs(RoundHalfEven(x) as real - x) <= Abs(m as real - x)
  {
    var n := RoundHalfEven(x);
    if m < n {
      assert m as real <= n as real - 1.0;
    } else if m > n {
      assert m as real >= n as real + 1.0;
    }
  }

  /** Whole numbers are left alone. */
  lemma RoundWhole(n: int)
    ensures RoundHalfEven(n as real) == n
  {
  }

  /** Rounding keeps the sign: a negative value never rounds above zero and
      a non-negative one never below. */
  lemma RoundSign(x: real)
    ensures x < 0.0 ==> RoundHalfEven(x) <= 0
    ensures x >= 0.0 ==> RoundHalfEven(x) >= 0
  {
  }

  /** The number of hundredths `round(x, 2)` and `"{:.2f}"` keep. */
  function Cents(x: real): int
  {
    RoundHalfEven(x * 100.0)
  }

  /** `round(x, 2)`: within half a hundredth of `x`. */
  function Round2(x: real): (r: real)
    ensures -0.005 <= r - x <= 0.005
  {
    Cents(x) as real / 100.0
  }

  /** The two digits after the point of `c` hundredths. */
  function CentDigits(c: nat): (t: string)
    ensures |t| == 2 && AllDigits(t)
  {
    [DigitChar(c % 100 / 10), DigitChar(c % 10)]
  }

  /** `"{:.2f}".format(x)`: an optional minus sign (also for a negative
      value that rounds to zero), the whole part, a point, two digits. */
  function Fixed2(x: real): string
  {
    var c := Cents(x);
    var mag: nat := if c < 0 then -c else c;
    (if x < 0.0 then "-" else "") + Decimal(mag / 100) + "." + CentDigits(mag)
  }

  /** Reading a `"{:.2f}"` rendering back: a signed count of hundredths. */
  function ParseFixed2(s: string): Option<int>
  {
    match Find(s, '.')
    case None => None
    case Some(k) =>
      var whole, frac := s[..k], s[k + 1..];
      var neg := |whole| > 0 && whole[0] == '-';
      var digits := if neg then whole[1..] else whole;
      if |digits| == 0 || !AllDigits(digits) || |frac| != 2 || !AllDigits(frac) then None
      else
        Some(Signed(neg, DecimalValue(digits) * 100 + DecimalValue(frac)))
  }

  lemma CentDigitsValue(c: nat)
    ensures DecimalValue(CentDigits(c)) == c % 100
  {
    var t := CentDigits(c);
    assert t[..1] == [DigitChar(c % 100 / 10)];
    assert [DigitChar(c % 100 / 10)][..0] == [];
    assert DecimalValue(t) == c % 100 / 10 * 10 + c % 10;
  }

  function Signed(neg: bool, mag: nat): int
  {
    if neg then -(mag as int) else mag
  }

  /** The part before the point: an optional minus sign and digits. */
  lemma WholePart(neg: bool, q: nat)
    ensures var whole := (if neg then "-" else "") + Decimal(q);
      && '.' !in whole && |whole| > 0
      && (|whole| > 0 && whole[0] == '-' <==> neg)
      && (if neg then whole[1..] else whole) == Decimal(q)
  {
    var whole := (if neg then "-" else "") + Decimal(q);
    assert forall k :: 0 <= k < |whole| ==> whole[k] == '-' || IsDigit(whole[k]);
    if !neg {
      assert whole[0] == Decimal(q)[0];
    }
  }

  /** The layout `"{:.2f}"` writes reads back as its signed count of
      hundredths. */
  lemma ParseLayout(neg: bool, mag: nat)
    ensures ParseFixed2((if neg then "-" else "") + Decimal(mag / 100) + "." + CentDigits(mag))
      == Some(Signed(neg, mag))
  {
    var whole := (if neg then "-" else "") + Decimal(mag / 100);
    var frac := CentDigits(mag);
    WholePart(neg, mag / 100);
    DecimalRoundTrip(mag / 100);
    CentDigitsValue(mag);
    ParseParts(whole, frac, neg, Decimal(mag / 100), mag);
  }

  /** The reading of a whole part, a point and a fractional part. */
  lemma ParseParts(whole: string, frac: string, neg: bool, digits: string, mag: nat)
    requires '.' !in whole && (|whole| > 0 && whole[0] == '-') == neg
    requires digits == (if neg then whole[1..] else whole)
    requires |digits| > 0 && AllDigits(digits) && |frac| == 2 && AllDigits(frac)
    requires DecimalValue(digits) * 100 + DecimalValue(frac) == mag
    ensures ParseFixed2(whole + "." + frac) == Some(Signed(neg, mag))
  {
    var s := whole + "." + frac;
    assert s == whole + ['.'] + frac;
    FindAfterFree(whole, '.', frac);
    assert s[..|whole|] == whole;
    assert s[|whole| + 1..] == frac;
  }

  /** `"{:.2f}"` shows exactly the rounded number of hundredths, so the
      value shown is within half a hundredth of `x`. */
  lemma Fixed2RoundTrip(x: real)
    ensures ParseFixed2(Fixed2(x)) == Some(Cents(x))
  {
    var c := Cents(x);
    RoundSign(x * 100.0);
    var mag: nat := if c < 0 then -c else c;
    assert Fixed2(x) == (if x < 0.0 then "-" else "") + Decimal(mag / 100) + "." + CentDigits(mag);
    ParseLayout(x < 0.0, mag);
    assert Signed(x < 0.0, mag) == c;
  }
}
