/** Numeric cells: `pd.to_numeric(..., errors='coerce')` on text, numpy's
    half-to-even `round()`, and `astype(int)` truncation, all on exact
    decimal values. */
module Numbers {
  import opened Base
  import opened Text

  /** The exact value mantissa / 10^scale. */
  datatype Decimal = Decimal(mantissa: int, scale: nat)

  /** Digits with an optional fraction part (`12`, `12.5`, `12.`, `.5`). */
  function ParseUnsigned(s: string): Option<Decimal> {
    var parts := Split(s, '.');
    if |parts| == 1 then
      if |s| > 0 && AllDigits(s) then Some(Decimal(DigitsValue(s), 0)) else None
    else if |parts| == 2 && AllDigits(parts[0]) && AllDigits(parts[1]) && |parts[0]| + |parts[1]| >= 1 then
      Some(Decimal(DigitsValue(parts[0]) * Pow10(|parts[1]|) + DigitsValue(parts[1]), |parts[1]|))
    else None
  }

  /** The numeric value of a text cell, or None where pandas produces NaN. */
  function ParseNumber(s: string): Option<Decimal> {
    var t := Strip(s);
    if |t| > 0 && (t[0] == '-' || t[0] == '+') then
      match ParseUnsigned(t[1..])
      case Some(d) => Some(if t[0] == '-' then Decimal(-d.mantissa, d.scale) else d)
      case None => None
    else ParseUnsigned(t)
  }

  /** `Series.round()`: the nearest integer, ties to the even one. */
  function RoundHalfEven(x: Decimal): (n: int)
    ensures 2 * (n * Pow10(x.scale) - x.mantissa) <= Pow10(x.scale)
    ensures 2 * (x.mantissa - n * Pow10(x.scale)) <= Pow10(x.scale)
    ensures 2 * (n * Pow10(x.scale) - x.mantissa) == Pow10(x.scale) ==> n % 2 == 0
    ensures 2 * (x.mantissa - n * Pow10(x.scale)) == Pow10(x.scale) ==> n % 2 == 0
  {
    var den := Pow10(x.scale);
    var q, r := x.mantissa / den, x.mantissa % den;
    assert x.mantissa == q * den + r;
    assert (q + 1) * den == q * den + den;
    if 2 * r < den then q
    else if 2 * r > den then q + 1
    else if q % 2 == 0 then q
    else q + 1
  }

  /** `astype(int)` on a float: the integer part, rounding toward zero. */
  function TowardZero(x: Decimal): (n: int)
    ensures x.mantissa >= 0 ==> 0 <= x.mantissa - n * Pow10(x.scale) < Pow10(x.scale)
    ensures x.mantissa < 0 ==> 0 <= n * Pow10(x.scale) - x.mantissa < Pow10(x.scale)
  {
    var den := Pow10(x.scale);
    if x.mantissa >= 0 then x.mantissa / den
    else
      var q := (-x.mantissa) / den;
      assert -x.mantissa == q * den + (-x.mantissa) % den;
      assert (-q) * den == -(q * den);
      -q
  }

  /** A run of digits, possibly zero-padded, parses as its value. */
  lemma PaddedDigitsParse(k: nat, digits: string)
    requires |digits| >= 1 && AllDigits(digits)
    ensures AllDigits(Repeat('0', k) + digits)
    ensures ParseUnsigned(Repeat('0', k) + digits) == Some(Decimal(DigitsValue(digits), 0))
  {
    var body := Repeat('0', k) + digits;
    LeadingZeros(k, digits);
    assert '.' !in body by {
      forall i | 0 <= i < |body| ensures body[i] != '.' {
        assert IsDigit(body[i]);
      }
    }
    SplitWithout(body, '.');
  }

  /** `str(n).zfill(width)` is the sign, then zeros, then the digits of |n|. */
  lemma ZFillShape(n: int, width: nat) returns (k: nat)
    ensures ZFill(IntToString(n), width)
         == (if n < 0 then "-" else "") + Repeat('0', k) + NatToString(if n < 0 then -n else n)
    ensures k == if |IntToString(n)| >= width then 0 else width - |IntToString(n)|
  {
    var s := IntToString(n);
    k := if |s| >= width then 0 else width - |s|;
    var digits := NatToString(if n < 0 then -n else n);
    if n < 0 {
      assert s == "-" + digits;
      if |s| < width {
        assert ZFill(s, width) == [s[0]] + Repeat('0', k) + s[1..];
        assert s[1..] == digits;
      } else {
        assert Repeat('0', k) == [];
      }
    } else {
      assert s == digits;
      if |s| < width {
        assert IsDigit(s[0]);
      } else {
        assert Repeat('0', k) == [];
      }
    }
  }

  /** A run of zero-padded digits parses as its value... */
  lemma UnsignedDigitsParse(body: string, v: nat)
    requires |body| >= 1 && AllDigits(body) && ParseUnsigned(body) == Some(Decimal(v, 0))
    ensures ParseNumber(body) == Some(Decimal(v, 0))
  {
    assert IsDigit(body[0]) && IsDigit(body[|body| - 1]);
    StripUnpadded(body);
  }

  /** ... and so does the same run after a minus sign, negated. */
  lemma NegatedDigitsParse(body: string, v: nat)
    requires |body| >= 1 && AllDigits(body) && ParseUnsigned(body) == Some(Decimal(v, 0))
    ensures ParseNumber("-" + body) == Some(Decimal(-(v as int), 0))
  {
    var z := "-" + body;
    assert IsDigit(body[|body| - 1]) && z[|z| - 1] == body[|body| - 1];
    StripUnpadded(z);
    assert z[1..] == body;
  }

  /** `str.zfill()` pads to the width and never truncates. */
  lemma ZFillLength(n: int, width: nat)
    ensures |ZFill(IntToString(n), width)| == if |IntToString(n)| >= width then |IntToString(n)| else width
  {
    var k := ZFillShape(n, width);
    var m: nat := if n < 0 then -n else n;
    assert |IntToString(n)| == (if n < 0 then 1 else 0) + |NatToString(m)|;
  }

  /** The digits of `m` after `k` zeros parse as `m`. */
  lemma PaddedNatParses(k: nat, m: nat)
    ensures |Repeat('0', k) + NatToString(m)| >= 1 && AllDigits(Repeat('0', k) + NatToString(m))
    ensures ParseUnsigned(Repeat('0', k) + NatToString(m)) == Some(Decimal(m, 0))
  {
    NatToStringValue(m);
    PaddedDigitsParse(k, NatToString(m));
  }

  /** The padded text of `n`: its sign, if negative, then a run of digits. */
  lemma PaddedBody(n: int, width: nat) returns (body: string)
    ensures ZFill(IntToString(n), width) == if n < 0 then "-" + body else body
    ensures exists k: nat :: body == Repeat('0', k) + NatToString(if n < 0 then -n else n)
  {
    var k := ZFillShape(n, width);
    body := Repeat('0', k) + NatToString(if n < 0 then -n else n);
    if n < 0 {
      assert "-" + Repeat('0', k) + NatToString(-n) == "-" + body;
    } else {
      assert "" + Repeat('0', k) + NatToString(n) == body;
    }
  }

  /** A sign, if `n` is negative, before digits spelling |n| reads as `n`. */
  lemma SignedReadsBack(z: string, n: int, body: string)
    requires z == if n < 0 then "-" + body else body
    requires |body| >= 1 && AllDigits(body) && ParseUnsigned(body) == Some(Decimal(if n < 0 then -n else n, 0))
    ensures ParseNumber(z) == Some(Decimal(n, 0))
  {
    if n < 0 {
      NegatedDigitsParse(body, -n);
    } else {
      UnsignedDigitsParse(body, n);
    }
  }

  /** An integer written by `str()` and padded by `str.zfill()` reads back
      as the same integer, and the padding neither truncates nor overshoots. */
  lemma ZFillReadsBack(n: int, width: nat)
    ensures |ZFill(IntToString(n), width)| == if |IntToString(n)| >= width then |IntToString(n)| else width
    ensures ParseNumber(ZFill(IntToString(n), width)) == Some(Decimal(n, 0))
  {
    ZFillLength(n, width);
    var body := PaddedBody(n, width);
    var k: nat :| body == Repeat('0', k) + NatToString(if n < 0 then -n else n);
    PaddedNatParses(k, if n < 0 then -n else n);
    SignedReadsBack(ZFill(IntToString(n), width), n, body);
  }
}
