/** The ClickHouse type grammar of helpers/datatypes.py: names, capability flags and
    the text of the literals each type produces. */
module DataTypes {
  import opened Text

  datatype Width = W8 | W16 | W32 | W64 | W128 | W256

  datatype Scalar =
    | Integer(width: Width, signed: bool)
    | Float32
    | Float64
    | Decimal(digits: DecimalDigits, scale: nat)
    | Date
    | Date32
    | DateTime
    | DateTime64(precision: nat)
    | String
    | FixedString(length: pos)
    | Bool
    | Uuid

  datatype DecimalDigits = D9 | D18 | D38 | D76

  datatype Type =
    | Basic(scalar: Scalar)
    | Nullable(inner: Type)
    | LowCardinality(inner: Type)
    | Array(element: Type)
    | Tuple(items: seq<Type>)
    | Map(key: Type, value: Type)

  // ----- names

  function WidthText(width: Width): string {
    match width
    case W8 => "8"
    case W16 => "16"
    case W32 => "32"
    case W64 => "64"
    case W128 => "128"
    case W256 => "256"
  }

  function DecimalWidthText(digits: DecimalDigits): string {
    match digits
    case D9 => "32"
    case D18 => "64"
    case D38 => "128"
    case D76 => "256"
  }

  function ScalarWord(s: Scalar): string {
    match s
    case Integer(width, signed) => (if signed then "Int" else "UInt") + WidthText(width)
    case Float32 => "Float32"
    case Float64 => "Float64"
    case Decimal(digits, _) => "Decimal" + DecimalWidthText(digits)
    case Date => "Date"
    case Date32 => "Date32"
    case DateTime => "DateTime"
    case DateTime64(_) => "DateTime64"
    case String => "String"
    case FixedString(_) => "FixedString"
    case Bool => "Bool"
    case Uuid => "UUID"
  }

  /** The number a parameterised scalar carries in its name. */
  function Parameter(s: Scalar): Option<nat> {
    match s
    case Decimal(_, scale) => Some(scale)
    case DateTime64(precision) => Some(precision)
    case FixedString(length) => Some(length)
    case _ => None
  }

  function ScalarName(s: Scalar): string {
    match Parameter(s)
    case None => ScalarWord(s)
    case Some(n) => ScalarWord(s) + "(" + NatText(n) + ")"
  }

  function Name(t: Type): string
    decreases t, 1
  {
    match t
    case Basic(s) => ScalarName(s)
    case Nullable(inner) => "Nullable(" + Name(inner) + ")"
    case LowCardinality(inner) => "LowCardinality(" + Name(inner) + ")"
    case Array(element) => "Array(" + Name(element) + ")"
    case Tuple(items) => "Tuple(" + CommaJoin(Names(items)) + ")"
    case Map(key, value) => "Map(" + Name(key) + "," + Name(value) + ")"
  }

  function Names(items: seq<Type>): (r: seq<string>)
    ensures |r| == |items|
    decreases items, 0
  {
    if items == [] then [] else [Name(items[0])] + Names(items[1..])
  }

  // ----- capability flags

  /** isinstance(datatype, String): FixedString is a subclass of String. */
  predicate IsStringClass(t: Type) {
    t.Basic? && (t.scalar.String? || t.scalar.FixedString?)
  }

  predicate SupportsLowCardinality(t: Type) {
    match t
    case Basic(s) => !s.Decimal? && !s.DateTime64?
    case Nullable(inner) => SupportsLowCardinality(inner)
    case _ => false
  }

  predicate IsValidMapKey(t: Type) {
    match t
    case Basic(s) => !s.Float32? && !s.Float64? && !s.Decimal? && !s.DateTime64?
    case LowCardinality(inner) => IsStringClass(inner)
    case _ => false
  }

  function Unwrap(t: Type): Type {
    match t
    case Nullable(inner) => Unwrap(inner)
    case LowCardinality(inner) => Unwrap(inner)
    case _ => t
  }

  // ----- limits

  /** `count` consecutive characters from `first` on. */
  function Letters(first: char, count: nat): (s: string)
    requires 'A' <= first && first as int + count <= 'z' as int + 1
    ensures |s| == count && forall c | c in s :: first <= c
  {
    seq(count, i requires 0 <= i < count => (first as int + i) as char)
  }

  /** "abc...zABC...Z" as the source spells it: the capital S is missing, which leaves 51 letters. */
  const ALPHABET := Letters('a', 26) + Letters('A', 18) + Letters('T', 7)

  function IntegerMax(width: Width, signed: bool): int {
    match width
    case W8 => if signed then 127 else 255
    case W16 => if signed then 32767 else 65535
    case W32 => if signed then 2147483647 else 4294967295
    case W64 => if signed then 9223372036854775807 else 18446744073709551615
    case W128 =>
      if signed then 170141183460469231731687303715884105727
      else 340282366920938463463374607431768211455
    case W256 =>
      if signed then 57896044618658097711785492504343953926634992332820282019728792003956564819967
      else 115792089237316195423570985008687907853269984665640564039457584007913129639935
  }

  function IntegerMin(width: Width, signed: bool): int {
    if signed then -IntegerMax(width, signed) - 1 else 0
  }

  function DecimalPrecision(digits: DecimalDigits): nat {
    match digits
    case D9 => 9
    case D18 => 18
    case D38 => 38
    case D76 => 76
  }

  /** The largest literal of a decimal with `precision` digits of which `scale` are fractional.
      Python's `"9" * k` is empty for a negative k. */
  function DecimalLimit(precision: nat, scale: nat): string {
    if scale == precision then "0." + Repeat('9', if scale == 0 then 0 else scale - 1)
    else Repeat('9', if precision < scale then 0 else precision - scale) + "." + Repeat('9', scale)
  }

  function FixedStringLetters(length: pos): (s: string)
    ensures |s| == length
  {
    if length <= 51 then ALPHABET[0..length] else ALPHABET + Repeat('a', length - 51)
  }

  function Quote(body: string): string {
    "'" + body + "'"
  }

  /** Five groups of hexadecimal digits in the text form of RFC 4122, section 3. */
  function Dashed(a: string, b: string, c: string, d: string, e: string): string {
    a + "-" + b + "-" + c + "-" + d + "-" + e
  }

  /** A UUID whose hexadecimal digits are all the same. */
  function UniformUuid(c: char): string {
    Quote(Dashed(Repeat(c, 8), Repeat(c, 4), Repeat(c, 4), Repeat(c, 4), Repeat(c, 12)))
  }

  /** The `max` attribute; `legacy` says that the server is older than 22.8. */
  function MaxText(s: Scalar, legacy: bool): string {
    match s
    case Integer(width, signed) => IntText(IntegerMax(width, signed))
    case Float32 => "3.4028235e38"
    case Float64 => "1.7976909999999999e308"
    case Decimal(digits, scale) => DecimalLimit(DecimalPrecision(digits), scale)
    case Date => Quote("2149-06-06")
    case Date32 => Quote("2299-12-31")
    case DateTime => Quote("2106-02-07 06:28:15")
    case DateTime64(precision) =>
      if precision == 9 then Quote("2262-04-11 23:47:16")
      else if legacy then Quote("2283-11-11 23:59:59.99999999")
      else Quote("2299-12-31 23:59:59.99999999")
    case String => Quote(ALPHABET)
    case FixedString(length) => Quote(FixedStringLetters(length))
    case Bool => "true"
    case Uuid => UniformUuid('f')
  }

  function MinText(s: Scalar, legacy: bool): string {
    match s
    case Integer(width, signed) => IntText(IntegerMin(width, signed))
    case Float32 => "-" + MaxText(s, legacy)
    case Float64 => "-" + MaxText(s, legacy)
    case Decimal(digits, scale) => "-" + DecimalLimit(DecimalPrecision(digits), scale)
    case Date => Quote("1970-01-01")
    case Date32 => Quote("1900-01-01")
    case DateTime => Quote("1970-01-01 00:00:00")
    case DateTime64(_) =>
      if legacy then Quote("1925-01-01 00:00:00.00000000") else Quote("1900-01-01 00:00:00.00000000")
    case String => Quote("")
    case FixedString(_) => Quote("")
    case Bool => "false"
    case Uuid => UniformUuid('0')
  }

  // ----- fixed literals

  datatype Pick = Max | Min | Zero

  /** `to<name>(<body>)`, with the extra argument the parameterised types append. */
  function Conversion(s: Scalar, body: string): string {
    "to" + ScalarName(s) + "(" + body + ")"
  }

  function LimitLiteral(s: Scalar, limit: string): string {
    match s
    case Decimal(_, scale) => Conversion(s, limit + ", " + NatText(scale))
    case DateTime64(precision) => "toDateTime64(" + limit + "," + NatText(precision) + ")"
    case FixedString(length) => Conversion(s, limit + "," + NatText(length))
    case _ => Conversion(s, limit)
  }

  function ScalarLiteral(pick: Pick, s: Scalar, legacy: bool): string {
    match pick
    case Max => LimitLiteral(s, MaxText(s, legacy))
    case Min => LimitLiteral(s, MinText(s, legacy))
    case Zero =>
      match s
      case Integer(_, _) => Conversion(s, "0")
      case Float32 => Conversion(s, "0")
      case Float64 => Conversion(s, "0")
      case Decimal(_, scale) => Conversion(s, "0," + NatText(scale))
      case _ => MinText(s, legacy)
  }

  function TupleText(parts: seq<string>): string {
    "tuple(" + CommaJoin(parts) + ")"
  }

  function MapText(key: string, value: string): string {
    "map(" + key + "," + value + ")"
  }

  function ArrayText(element: string): string {
    "[" + element + "]"
  }

  /** max_value, min_value and zero_or_null_value. */
  function Literal(pick: Pick, t: Type, legacy: bool): string
    decreases t, 1
  {
    match t
    case Basic(s) => ScalarLiteral(pick, s, legacy)
    case Nullable(inner) => if pick == Zero then "Null" else Literal(pick, inner, legacy)
    case LowCardinality(inner) => Literal(pick, inner, legacy)
    case Array(element) => ArrayText(Literal(pick, element, legacy))
    case Tuple(items) => TupleText(Literals(pick, items, legacy))
    case Map(key, value) => MapText(Literal(pick, key, legacy), Literal(pick, value, legacy))
  }

  function Literals(pick: Pick, items: seq<Type>, legacy: bool): (r: seq<string>)
    ensures |r| == |items|
    decreases items, 0
  {
    if items == [] then [] else [Literal(pick, items[0], legacy)] + Literals(pick, items[1..], legacy)
  }

  // ----- random literals

  /** What a literal asks the random source for. */
  datatype Request = RandInt(lo: int, hi: int) | Uniform(low: string, high: string)

  predicate IsFloatChar(c: char) {
    IsDigit(c) || c == '.' || c == 'e' || c == '+' || c == '-'
  }

  /** Text of a Python float: digits, sign, dot and exponent characters only. */
  type FloatText = s: string | s != "" && forall c | c in s :: IsFloatChar(c) witness "0"

  /** A deterministic random source: what it answers depends on the requests made so far.
      The requests made so far are therefore its state. */
  datatype Oracle = Oracle(ints: (seq<Request>, Request) -> int, reals: (seq<Request>, Request) -> FloatText)

  type History = seq<Request>

  datatype Drawn<T> = Drawn(value: T, history: History)

  function DrawInt(oracle: Oracle, h: History, lo: int, hi: int): (d: Drawn<int>)
    requires lo <= hi
    ensures lo <= d.value <= hi
  {
    var request := RandInt(lo, hi);
    var answer := oracle.ints(h, request);
    Drawn(if lo <= answer <= hi then answer else lo, h + [request])
  }

  function DrawFloat(oracle: Oracle, h: History, lo: string, hi: string): Drawn<FloatText> {
    var request := Uniform(lo, hi);
    Drawn(oracle.reals(h, request), h + [request])
  }

  function HexChar(d: nat): char
    requires d < 16
  {
    if d < 10 then DigitChar(d) else (d - 10 + 'a' as int) as char
  }

  /** hex(n)[2:] */
  function HexText(n: nat): (s: string)
    ensures s != ""
  {
    if n < 16 then [HexChar(n)] else HexText(n / 16) + [HexChar(n % 16)]
  }

  /** Right-aligned in `width` columns, filled with zeros. */
  function ZeroFill(s: string, width: nat): string {
    if |s| < width then Repeat('0', width - |s|) + s else s
  }

  function DrawUuid(oracle: Oracle, h: History): Drawn<string> {
    var a := DrawInt(oracle, h, 0, 4294967295);
    var b := DrawInt(oracle, a.history, 0, 65535);
    var c := DrawInt(oracle, b.history, 0, 65535);
    var d := DrawInt(oracle, c.history, 0, 65535);
    var e := DrawInt(oracle, d.history, 0, 281474976710655);
    Drawn(UuidText(a.value, b.value, c.value, d.value, e.value), e.history)
  }

  function UuidText(a: nat, b: nat, c: nat, d: nat, e: nat): string {
    Quote(Dashed(ZeroFill(HexText(a), 8), ZeroFill(HexText(b), 4), ZeroFill(HexText(c), 4),
                 ZeroFill(HexText(d), 4), ZeroFill(HexText(e), 12)))
  }

  /** One letter of `letters`, repeated up to `limit` times. */
  function DrawLetters(oracle: Oracle, h: History, letters: string, limit: nat): Drawn<string>
    requires letters != ""
  {
    var index := DrawInt(oracle, h, 1, |letters|);
    var count := DrawInt(oracle, index.history, 0, limit);
    Drawn(Quote(Repeat(letters[index.value - 1], count.value)), count.history)
  }

  function DrawScalar(s: Scalar, oracle: Oracle, h: History): Drawn<string> {
    match s
    case Integer(width, signed) =>
      var n := DrawInt(oracle, h, IntegerMin(width, signed), IntegerMax(width, signed));
      Drawn(Conversion(s, IntText(n.value)), n.history)
    case Float32 =>
      var x := DrawFloat(oracle, h, MinText(s, false), MaxText(s, false));
      Drawn(Conversion(s, x.value), x.history)
    case Float64 =>
      var x := DrawFloat(oracle, h, "-1.79769", "1.79769");
      var e := DrawInt(oracle, x.history, 0, 308);
      Drawn(Conversion(s, x.value + "e" + IntText(e.value)), e.history)
    case Decimal(_, scale) =>
      var x := DrawFloat(oracle, h, MinText(s, false), MaxText(s, false));
      Drawn(Conversion(s, x.value + "," + NatText(scale)), x.history)
    case DateTime64(precision) =>
      var n := DrawInt(oracle, h, 1072549200, 1672549200);
      Drawn("toDateTime64(" + IntText(n.value) + "," + NatText(precision) + ")", n.history)
    case String => DrawLetters(oracle, h, ALPHABET, 100)
    case FixedString(length) => DrawLetters(oracle, h, FixedStringLetters(length), length)
    case Bool =>
      var n := DrawInt(oracle, h, 0, 1);
      Drawn(if n.value != 0 then "true" else "false", n.history)
    case Uuid => DrawUuid(oracle, h)
    case _ =>
      var n := DrawInt(oracle, h, 1072549200, 1672549200);
      Drawn(Conversion(s, IntText(n.value)), n.history)
  }

  /** rand_value */
  function RandValue(t: Type, oracle: Oracle, h: History): Drawn<string>
    decreases t, 1
  {
    match t
    case Basic(s) => DrawScalar(s, oracle, h)
    case Nullable(inner) => RandValue(inner, oracle, h)
    case LowCardinality(inner) => RandValue(inner, oracle, h)
    case Array(element) =>
      var e := RandValue(element, oracle, h);
      Drawn(ArrayText(e.value), e.history)
    case Tuple(items) =>
      var parts := RandValues(items, oracle, h);
      Drawn(TupleText(parts.value), parts.history)
    case Map(key, value) =>
      var k := RandValue(key, oracle, h);
      var v := RandValue(value, oracle, k.history);
      Drawn(MapText(k.value, v.value), v.history)
  }

  function RandValues(items: seq<Type>, oracle: Oracle, h: History): (r: Drawn<seq<string>>)
    ensures |r.value| == |items|
    decreases items, 0
  {
    if items == [] then Drawn([], h)
    else
      var first := RandValue(items[0], oracle, h);
      var others := RandValues(items[1..], oracle, first.history);
      Drawn([first.value] + others.value, others.history)
  }
}
