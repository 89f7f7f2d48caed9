/** What the limits of the scalars denote, and which literals hold them. */
module Limits {
  import opened Text
  import opened DataTypes
  import opened Literals
  import opened Uuids
  import opened DecimalLimits

  // ----- integers

  function Bits(width: Width): pos {
    match width
    case W8 => 8
    case W16 => 16
    case W32 => 32
    case W64 => 64
    case W128 => 128
    case W256 => 256
  }

  lemma DoublePower(e: nat)
    ensures Power(2, e + e) == Power(2, e) * Power(2, e)
  {
    PowerAdds(2, e, e);
  }

  lemma SmallPowersOfTwo()
    ensures Power(2, 8) == 256 && Power(2, 16) == 65536 && Power(2, 32) == 4294967296
  {
    assert Power(2, 8) == 256;
    DoublePower(8);
    DoublePower(16);
    hide Power;
    assert 65536 * 65536 == 4294967296;
  }

  lemma WidePowersOfTwo()
    ensures Power(2, 64) == 18446744073709551616
    ensures Power(2, 128) == 340282366920938463463374607431768211456
  {
    hide Power;
    SmallPowersOfTwo();
    DoublePower(32);
    assert 4294967296 * 4294967296 == 18446744073709551616;
    DoublePower(64);
    assert 18446744073709551616 * 18446744073709551616 == 340282366920938463463374607431768211456;
  }

  lemma PowersOfTwo(width: Width)
    ensures Power(2, Bits(width)) == IntegerMax(width, false) + 1
  {
    hide Power;
    SmallPowersOfTwo();
    WidePowersOfTwo();
    if width == W256 {
      DoublePower(128);
      assert 340282366920938463463374607431768211456 * 340282366920938463463374607431768211456
          == 115792089237316195423570985008687907853269984665640564039457584007913129639936;
    }
  }

  /** The limits of an integer type are those of its width in two's complement. */
  lemma IntegerLimits(width: Width)
    ensures IntegerMin(width, false) == 0 && IntegerMax(width, false) == Power(2, Bits(width)) - 1
    ensures 2 * IntegerMin(width, true) + Power(2, Bits(width)) == 0 && 2 * (IntegerMax(width, true) + 1) == Power(2, Bits(width))
  {
    hide Power;
    PowersOfTwo(width);
  }

  // ----- decimals

  function DecimalBits(digits: DecimalDigits): pos {
    match digits
    case D9 => 32
    case D18 => 64
    case D38 => 128
    case D76 => 256
  }

  lemma Billion()
    ensures Power(10, 9) == 1000000000
  {
    assert Power(10, 3) == 1000;
    PowerAdds(10, 3, 3);
    PowerAdds(10, 3, 6);
    hide Power;
  }

  lemma PowersOfTen()
    ensures Power(10, 9) == 1000000000 && Power(10, 10) == 10000000000
    ensures Power(10, 18) == 1000000000000000000 && Power(10, 19) == 10000000000000000000
    ensures Power(10, 38) == 100000000000000000000000000000000000000
    ensures Power(10, 39) == 1000000000000000000000000000000000000000
    ensures Power(10, 76) == 10000000000000000000000000000000000000000000000000000000000000000000000000000
    ensures Power(10, 77) == 100000000000000000000000000000000000000000000000000000000000000000000000000000
  {
    hide Power;
    Billion();
    PowerAdds(10, 9, 9);
    PowerAdds(10, 19, 19);
    PowerAdds(10, 38, 38);
    PowerStep(10, 10);
    PowerStep(10, 19);
    PowerStep(10, 39);
    PowerStep(10, 77);
  }

  /** The precision of a decimal is the largest whose numbers fit the signed integer of its width, and its
      name carries that width. */
  lemma DecimalPrecisionFits(digits: DecimalDigits)
    ensures Power(10, DecimalPrecision(digits)) < Power(2, DecimalBits(digits) - 1) < Power(10, DecimalPrecision(digits) + 1)
    ensures DecimalWidthText(digits) == NatText(DecimalBits(digits))
  {
    hide Power;
    PowersOfTen();
    SmallPowersOfTwo();
    WidePowersOfTwo();
    PowersOfTwo(W256);
    PowerStep(2, 32);
    PowerStep(2, 64);
    PowerStep(2, 128);
    PowerStep(2, 256);
    assert NatText(12) == "12" && NatText(25) == "25";
  }

  // ----- strings

  /** The longest string literal holds every letter once, except the capital S. */
  lemma AlphabetExactly(c: char)
    ensures c in ALPHABET <==> ('a' <= c <= 'z' || 'A' <= c <= 'Z') && c != 'S'
    ensures |ALPHABET| == 51 && forall i, j | 0 <= i < j < 51 :: ALPHABET[i] != ALPHABET[j]
  {
    if 'a' <= c <= 'z' {
      assert ALPHABET[c as int - 'a' as int] == c;
    } else if 'A' <= c <= 'R' {
      assert ALPHABET[26 + (c as int - 'A' as int)] == c;
    } else if 'T' <= c <= 'Z' {
      assert ALPHABET[44 + (c as int - 'T' as int)] == c;
    }
  }

  /** The longest value of a FixedString starts like that of a String and has exactly its length. */
  lemma FixedStringLimit(length: pos, legacy: bool)
    ensures |Inside(MaxText(FixedString(length), legacy))| == length
    ensures var text := Inside(MaxText(FixedString(length), legacy));
            if length <= 51 then text <= ALPHABET else ALPHABET <= text && forall i | 51 <= i < length :: text[i] == 'a'
  {
    QuotedBody(FixedStringLetters(length));
  }

  // ----- UUIDs

  lemma {:induction false} AllOnes(k: pos, n: nat)
    requires n + 1 == Power(16, k)
    ensures HexText(n) == Repeat('f', k)
  {
    PowerStep(16, k);
    if k == 1 {
      assert HexText(15) == ['f'];
    } else {
      PowerStep(16, k - 1);
      PowerPositive(16, k - 2);
      hide Power;
      assert n == 16 * (Power(16, k - 1) - 1) + 15;
      AllOnes(k - 1, n / 16);
      assert Repeat('f', k) == Repeat('f', k - 1) + ['f'];
    }
  }

  /** Texts that fill their group stay as they are. */
  lemma AllFull()
    ensures forall k: nat :: ZeroFill(Repeat('f', k), k) == Repeat('f', k)
  {
  }

  lemma AllZeros(k: pos)
    ensures ZeroFill(HexText(0), k) == Repeat('0', k)
  {
  }

  /** The UUID limits are the texts of the smallest and the largest number in every group. */
  lemma UuidLimits(legacy: bool)
    ensures MinText(Uuid, legacy) == UuidText(0, 0, 0, 0, 0)
    ensures MaxText(Uuid, legacy) == UuidText(4294967295, 65535, 65535, 65535, 281474976710655)
  {
    hide HexText;
    AllZeros(8);
    AllZeros(4);
    AllZeros(12);
    assert Power(16, 4) == 65536;
    assert Power(16, 8) == 4294967296;
    assert Power(16, 12) == 281474976710656;
    AllOnes(8, 4294967295);
    AllOnes(4, 65535);
    AllOnes(12, 281474976710655);
    hide Power, ZeroFill, Repeat;
    AllFull();
  }

  // ----- dates

  function Digit(c: char): int {
    c as int - '0' as int
  }

  function TwoDigits(text: string, i: nat): int {
    if i + 2 <= |text| then 10 * Digit(text[i]) + Digit(text[i + 1]) else 0
  }

  predicate IsLeap(year: int) {
    (year % 4 == 0 && year % 100 != 0) || year % 400 == 0
  }

  /** Leap years up to and including this one. */
  function LeapYears(year: int): int {
    year / 4 - year / 100 + year / 400
  }

  function DaysBeforeMonth(month: int, leap: bool): int {
    var february := if leap then 29 else 28;
    if month <= 1 then 0
    else if month == 2 then 31
    else
      31 + february
      + (match month
         case 3 => 0 case 4 => 31 case 5 => 61 case 6 => 92 case 7 => 122
         case 8 => 153 case 9 => 184 case 10 => 214 case 11 => 245 case _ => 275)
  }

  /** Days from 1970-01-01 in the Gregorian calendar. */
  function DayNumber(year: int, month: int, day: int): int {
    365 * (year - 1970) + LeapYears(year - 1) - LeapYears(1969) + DaysBeforeMonth(month, IsLeap(year)) + day - 1
  }

  /** Reads YYYY-MM-DD... */
  function ReadDay(text: string): int {
    DayNumber(100 * TwoDigits(text, 0) + TwoDigits(text, 2), TwoDigits(text, 5), TwoDigits(text, 8))
  }

  /** Reads YYYY-MM-DD hh:mm:ss... as seconds from 1970-01-01 00:00:00. */
  function ReadSeconds(text: string): int {
    86400 * ReadDay(text) + 3600 * TwoDigits(text, 11) + 60 * TwoDigits(text, 14) + TwoDigits(text, 17)
  }

  lemma QuotedBody(body: string)
    ensures Inside(Quote(body)) == body
  {
  }

  lemma DayNumbers()
    ensures DayNumber(1970, 1, 1) == 0
    ensures DayNumber(2149, 6, 6) == 65535
    ensures DayNumber(2106, 2, 7) == 49710
    ensures DayNumber(2262, 4, 11) == 106751
  {
  }

  lemma DayDigits(text: string, a: int, b: int, month: int, day: int)
    requires TwoDigits(text, 0) == a && TwoDigits(text, 2) == b
    requires TwoDigits(text, 5) == month && TwoDigits(text, 8) == day
    ensures ReadDay(text) == DayNumber(100 * a + b, month, day)
  {
    hide TwoDigits, DayNumber;
  }

  lemma TimeDigits(text: string, day: int, hour: int, minute: int, second: int)
    requires ReadDay(text) == day
    requires TwoDigits(text, 11) == hour && TwoDigits(text, 14) == minute && TwoDigits(text, 17) == second
    ensures ReadSeconds(text) == 86400 * day + 3600 * hour + 60 * minute + second
  {
    hide TwoDigits, ReadDay;
  }

  lemma LastDate()
    ensures ReadDay("1970-01-01") == 0 && ReadDay("2149-06-06") == 65535
  {
    hide DayNumber, ReadDay;
    DayNumbers();
    DayDigits("1970-01-01", 19, 70, 1, 1);
    DayDigits("2149-06-06", 21, 49, 6, 6);
  }

  lemma FirstDateTime()
    ensures ReadSeconds("1970-01-01 00:00:00") == 0
  {
    hide DayNumber, ReadDay, ReadSeconds;
    DayNumbers();
    DayDigits("1970-01-01 00:00:00", 19, 70, 1, 1);
    TimeDigits("1970-01-01 00:00:00", 0, 0, 0, 0);
  }

  lemma LastDateTime()
    ensures ReadSeconds("2106-02-07 06:28:15") == 4294967295
  {
    hide DayNumber, ReadDay, ReadSeconds;
    DayNumbers();
    DayDigits("2106-02-07 06:28:15", 21, 6, 2, 7);
    TimeDigits("2106-02-07 06:28:15", 49710, 6, 28, 15);
  }

  lemma LastNanosecond()
    ensures ReadSeconds("2262-04-11 23:47:16") == 9223372036
  {
    hide DayNumber, ReadDay, ReadSeconds;
    DayNumbers();
    DayDigits("2262-04-11 23:47:16", 22, 62, 4, 11);
    TimeDigits("2262-04-11 23:47:16", 106751, 23, 47, 16);
  }

  lemma ExtendedDates()
    ensures ReadDay("1900-01-01") == DayNumber(1900, 1, 1) && ReadDay("2299-12-31") == DayNumber(2299, 12, 31)
  {
    hide DayNumber, ReadDay;
    DayDigits("1900-01-01", 19, 0, 1, 1);
    DayDigits("2299-12-31", 22, 99, 12, 31);
  }

  /** A Date counts days in 16 bits, a DateTime seconds in 32, a DateTime64(9) nanoseconds in 63; a Date32
      runs from the first day of 1900 to the last of 2299. */
  lemma DateLimits(legacy: bool)
    ensures ReadDay(Inside(MinText(Date, legacy))) == 0
    ensures ReadDay(Inside(MaxText(Date, legacy))) == Power(2, 16) - 1
    ensures ReadSeconds(Inside(MinText(DateTime, legacy))) == 0
    ensures ReadSeconds(Inside(MaxText(DateTime, legacy))) == Power(2, 32) - 1
    ensures ReadSeconds(Inside(MaxText(DateTime64(9), legacy))) == (Power(2, 63) - 1) / 1000000000
    ensures ReadDay(Inside(MinText(Date32, legacy))) == DayNumber(1900, 1, 1)
    ensures ReadDay(Inside(MaxText(Date32, legacy))) == DayNumber(2299, 12, 31)
  {
    hide ReadDay, ReadSeconds, Quote, Power, Inside, DayNumber;
    ExtendedDates();
    QuotedBody("1900-01-01");
    QuotedBody("2299-12-31");
    SmallPowersOfTwo();
    WidePowersOfTwo();
    PowerStep(2, 64);
    LastDate();
    FirstDateTime();
    LastDateTime();
    LastNanosecond();
    QuotedBody("1970-01-01");
    QuotedBody("1970-01-01 00:00:00");
    QuotedBody("2149-06-06");
    QuotedBody("2106-02-07 06:28:15");
    QuotedBody("2262-04-11 23:47:16");
  }

  // ----- the literals that hold the limits

  function ConversionWord(s: Scalar): string {
    if s.DateTime64? then "toDateTime64" else "to" + ScalarName(s)
  }

  /** The second argument of a conversion, as it stands behind the comma. */
  function SecondArgument(s: Scalar): seq<string> {
    match s
    case Decimal(_, scale) => [" " + NatText(scale)]
    case DateTime64(precision) => [NatText(precision)]
    case FixedString(length) => [NatText(length)]
    case _ => []
  }

  lemma PlainArgument(n: nat)
    ensures Sealed(NatText(n)) && Sealed(" " + NatText(n)) && NatText(n) != ""
  {
    hide Sealed, NatText;
    DigitsAreInert(n);
    InertIsSealed(NatText(n));
    InertIsSealed(" ");
    SealedConcat(" ", NatText(n));
  }

  lemma JoinTwo(a: string, b: string)
    ensures CommaJoin([a]) == a && CommaJoin([a, b]) == a + "," + b
  {
    assert [a, b][1..] == [b];
  }

  lemma LimitIsCall(s: Scalar, limit: string)
    ensures LimitLiteral(s, limit) == ConversionWord(s) + "(" + CommaJoin([limit] + SecondArgument(s)) + ")"
  {
    hide ScalarName, NatText, CommaJoin;
    JoinTwo(limit, "");
    match s
    case Decimal(_, scale) =>
      var n := NatText(scale);
      JoinTwo(limit, " " + n);
      assert [limit] + [" " + n] == [limit, " " + n];
      assert limit + ", " + n == limit + "," + (" " + n);
    case DateTime64(precision) =>
      var n := NatText(precision);
      JoinTwo(limit, n);
      assert [limit] + [n] == [limit, n];
      assert "toDateTime64(" + limit + "," + n + ")" == "toDateTime64" + "(" + (limit + "," + n) + ")";
    case FixedString(length) =>
      JoinTwo(limit, NatText(length));
      assert [limit] + [NatText(length)] == [limit, NatText(length)];
    case _ =>
      assert [limit] + [] == [limit];
  }

  /** The maximum and the minimum literal of a scalar convert its limits, and nothing else. */
  lemma LimitsReadBack(s: Scalar, legacy: bool)
    ensures Arguments(ConversionWord(s), Literal(Max, Basic(s), legacy)) == Some([MaxText(s, legacy)] + SecondArgument(s))
    ensures Arguments(ConversionWord(s), Literal(Min, Basic(s), legacy)) == Some([MinText(s, legacy)] + SecondArgument(s))
  {
    hide MaxText, MinText, LimitLiteral, ConversionWord, SecondArgument, Sealed, Arguments;
    LimitTextIsSealed(s, legacy);
    LimitTextIsNotEmpty(s, legacy);
    LimitIsCall(s, MaxText(s, legacy));
    LimitIsCall(s, MinText(s, legacy));
    ArgumentsPresent(s, MaxText(s, legacy));
    ArgumentsPresent(s, MinText(s, legacy));
    CallReadsBack(ConversionWord(s), [MaxText(s, legacy)] + SecondArgument(s));
    CallReadsBack(ConversionWord(s), [MinText(s, legacy)] + SecondArgument(s));
  }

  lemma ArgumentsPresent(s: Scalar, limit: string)
    requires Sealed(limit) && limit != ""
    ensures AllPresent([limit] + SecondArgument(s))
  {
    hide Sealed, NatText;
    match s
    case Decimal(_, scale) => PlainArgument(scale);
    case DateTime64(precision) => PlainArgument(precision);
    case FixedString(length) => PlainArgument(length);
    case _ =>
  }

  /** The zero literal converts 0 for numbers, is the text of the minimum for other scalars, and is Null
      for everything nullable. */
  lemma ZeroReadsBack(t: Type, legacy: bool)
    ensures t.Nullable? ==> Literal(Zero, t, legacy) == "Null"
    ensures t.Basic? && (t.scalar.Integer? || t.scalar.Float32? || t.scalar.Float64?) ==>
              Arguments(ConversionWord(t.scalar), Literal(Zero, t, legacy)) == Some(["0"])
    ensures t.Basic? && t.scalar.Decimal? ==>
              Arguments(ConversionWord(t.scalar), Literal(Zero, t, legacy)) == Some(["0", NatText(t.scalar.scale)])
    ensures t.Basic? && !t.scalar.Integer? && !t.scalar.Float32? && !t.scalar.Float64? && !t.scalar.Decimal? ==>
              Arguments(ConversionWord(t.scalar), Literal(Min, t, legacy))
              == Some([Literal(Zero, t, legacy)] + SecondArgument(t.scalar))
  {
    hide MaxText, MinText, LimitLiteral, Sealed, Arguments, ScalarName, NatText, SecondArgument, CommaJoin;
    if t.Basic? {
      LimitsReadBack(t.scalar, legacy);
      ZeroCall(t.scalar);
    }
  }

  lemma ZeroCall(s: Scalar)
    ensures Arguments("to" + ScalarName(s), Conversion(s, "0")) == Some(["0"])
    ensures s.Decimal? ==> Arguments("to" + ScalarName(s), Conversion(s, "0," + NatText(s.scale))) == Some(["0", NatText(s.scale)])
  {
    hide Sealed, Arguments, ScalarName, NatText, CommaJoin, SecondArgument;
    InertIsSealed("0");
    JoinTwo("0", "");
    CallReadsBack("to" + ScalarName(s), ["0"]);
    if s.Decimal? {
      PlainArgument(s.scale);
      JoinTwo("0", NatText(s.scale));
      CallReadsBack("to" + ScalarName(s), ["0", NatText(s.scale)]);
      assert "0" + "," == "0,";
    }
  }
}
