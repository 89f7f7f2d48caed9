/** What number the limit text of a Decimal(precision, scale) denotes. */
module DecimalLimits {
  import opened Text
  import opened DataTypes

  function DotIndex(text: string): (i: nat)
    ensures i <= |text| && '.' !in text[..i] && (i < |text| ==> text[i] == '.')
  {
    if text == "" || text[0] == '.' then 0
    else
      var i := 1 + DotIndex(text[1..]);
      assert text[..i] == [text[0]] + text[1..][..i - 1];
      i
  }

  /** n times 10^e */
  function Shifted(n: nat, e: nat): nat {
    n * Power(10, e)
  }

  /** Reads `digits.digits` as a number in units of 10^-scale. */
  function ReadUnsigned(text: string, scale: nat): Option<nat> {
    var dot := DotIndex(text);
    if dot == |text| then None
    else
      var whole, fraction := text[..dot], text[dot + 1..];
      if !AllDigits(whole) || !AllDigits(fraction) || |fraction| > scale then None
      else Some(Shifted(Shifted(DigitsValue(whole), |fraction|) + DigitsValue(fraction), scale - |fraction|))
  }

  function ReadDecimal(text: string, scale: nat): Option<int> {
    if text != "" && text[0] == '-' then
      var n :- ReadUnsigned(text[1..], scale);
      Some(-(n as int))
    else
      var n :- ReadUnsigned(text, scale);
      Some(n as int)
  }

  lemma {:induction false} PowerPositive(base: nat, e: nat)
    requires 0 < base
    ensures 0 < Power(base, e)
  {
    if e > 0 { PowerPositive(base, e - 1); }
  }

  lemma {:induction false} PowerAdds(base: nat, a: nat, b: nat)
    ensures Power(base, a + b) == Power(base, a) * Power(base, b)
  {
    hide Power;
    if a == 0 {
      PowerNone(base);
    } else {
      PowerAdds(base, a - 1, b);
      PowerStep(base, a);
      PowerStep(base, a + b);
      Regroup(base, Power(base, a - 1), Power(base, b));
    }
  }

  lemma PowerNone(base: nat)
    ensures Power(base, 0) == 1
  {
  }

  lemma PowerStep(base: nat, e: pos)
    ensures Power(base, e) == base * Power(base, e - 1)
  {
  }

  lemma Regroup(x: nat, y: nat, z: nat)
    ensures x * (y * z) == (x * y) * z
  {
  }

  lemma {:induction false} NinesValue(k: nat)
    ensures AllDigits(Repeat('9', k)) && DigitsValue(Repeat('9', k)) == Power(10, k) - 1
  {
    if k > 0 {
      NinesValue(k - 1);
      assert Repeat('9', k)[..k - 1] == Repeat('9', k - 1);
    }
  }

  lemma {:induction false} DotOf(whole: string, fraction: string)
    requires '.' !in whole
    ensures var text := whole + "." + fraction;
            DotIndex(text) == |whole| && text[..|whole|] == whole && text[|whole| + 1..] == fraction
  {
    if whole != "" {
      DotOf(whole[1..], fraction);
      assert whole[0] in whole;
      assert (whole + "." + fraction)[1..] == whole[1..] + "." + fraction;
    }
  }

  /** The limit in units of 10^-scale: 10^precision - 1, the largest number of `precision` digits,
      unless every digit is fractional; then the last digit is left out and it is 10^precision - 10. */
  function LimitUnits(precision: nat, scale: nat): int {
    Power(10, precision) - if scale == precision then 10 else 1
  }

  /** Nines left and right of the point make one run of nines. */
  lemma NinesTogether(a: nat, b: nat)
    ensures (Power(10, a) - 1) * Power(10, b) + (Power(10, b) - 1) == Power(10, a + b) - 1
  {
    PowerAdds(10, a, b);
    hide Power;
    var x: int, y: int := Power(10, a), Power(10, b);
    assert (x - 1) * y == x * y - y;
  }

  lemma ReadsParts(whole: string, fraction: string, scale: nat)
    requires AllDigits(whole) && AllDigits(fraction) && |fraction| <= scale
    ensures ReadUnsigned(whole + "." + fraction, scale)
         == Some(Shifted(Shifted(DigitsValue(whole), |fraction|) + DigitsValue(fraction), scale - |fraction|))
  {
    hide Shifted, DigitsValue;
    DotOf(whole, fraction);
  }

  lemma SmallPowers(e: pos)
    ensures Power(10, 0) == 1 && Power(10, 1) == 10 && Power(10, e) == 10 * Power(10, e - 1)
  {
  }

  lemma ZeroReads()
    ensures AllDigits("0") && DigitsValue("0") == 0
  {
    assert "0"[..0] == "";
  }

  lemma AllFractionalReads(precision: pos)
    ensures ReadUnsigned(DecimalLimit(precision, precision), precision) == Some(Power(10, precision) - 10)
  {
    hide Power, DigitsValue, ReadUnsigned;
    var nines := Repeat('9', precision - 1);
    NinesValue(precision - 1);
    ZeroReads();
    ReadsParts("0", nines, precision);
    assert "0" + "." == "0.";
    SmallPowers(precision);
  }

  lemma SomeWholeReads(precision: pos, scale: nat)
    requires scale < precision
    ensures ReadUnsigned(DecimalLimit(precision, scale), scale) == Some(Power(10, precision) - 1)
  {
    hide Power, DigitsValue, ReadUnsigned;
    NinesValue(precision - scale);
    NinesValue(scale);
    ReadsParts(Repeat('9', precision - scale), Repeat('9', scale), scale);
    NinesTogether(precision - scale, scale);
    SmallPowers(1);
  }

  lemma LimitReads(precision: pos, scale: nat)
    requires scale <= precision
    ensures ReadUnsigned(DecimalLimit(precision, scale), scale) == Some(LimitUnits(precision, scale))
  {
    hide Power, ReadUnsigned, DecimalLimit;
    if scale == precision {
      AllFractionalReads(precision);
    } else {
      SomeWholeReads(precision, scale);
    }
  }

  /** Both limits of every decimal read back, are opposite, and fit `precision` digits; the
      maximum is the largest such number exactly when some digit is left of the point. */
  lemma LimitsFit(precision: pos, scale: nat)
    requires scale <= precision
    ensures var limit := DecimalLimit(precision, scale);
            var units := LimitUnits(precision, scale);
            ReadDecimal(limit, scale) == Some(units) && ReadDecimal("-" + limit, scale) == Some(-units)
            && 0 <= units < Power(10, precision)
            && (units == Power(10, precision) - 1 <==> scale < precision)
  {
    hide ReadUnsigned;
    LimitReads(precision, scale);
    PowerPositive(10, precision - 1);
    var limit := DecimalLimit(precision, scale);
    assert limit[0] != '-';
    assert ("-" + limit)[0] == '-' && ("-" + limit)[1..] == limit;
  }

  /** The four ClickHouse decimals. */
  lemma ClickHouseDecimalLimits(digits: DecimalDigits, scale: nat, legacy: bool)
    requires scale <= DecimalPrecision(digits)
    ensures var units := LimitUnits(DecimalPrecision(digits), scale);
            ReadDecimal(MaxText(Decimal(digits, scale), legacy), scale) == Some(units)
            && ReadDecimal(MinText(Decimal(digits, scale), legacy), scale) == Some(-units)
            && 0 <= units < Power(10, DecimalPrecision(digits))
            && (units == Power(10, DecimalPrecision(digits)) - 1 <==> scale < DecimalPrecision(digits))
  {
    hide ReadDecimal, LimitUnits, DecimalLimit, Power;
    LimitsFit(DecimalPrecision(digits), scale);
  }
}
