/** What a random literal asks its source for, and how the literal follows from the answers. */
module Requests {
  import opened Text
  import opened DataTypes

  // ----- the requests, from the grammar alone

  /** The requests of a scalar, in order. They do not depend on any answer. */
  function ScalarRequests(s: Scalar): seq<Request> {
    match s
    case Integer(width, signed) => [RandInt(IntegerMin(width, signed), IntegerMax(width, signed))]
    case Float32 => [Uniform("-3.4028235e38", "3.4028235e38")]
    case Float64 => [Uniform("-1.79769", "1.79769"), RandInt(0, 308)]
    case Decimal(digits, scale) =>
      var limit := DecimalLimit(DecimalPrecision(digits), scale);
      [Uniform("-" + limit, limit)]
    case String => [RandInt(1, 51), RandInt(0, 100)]
    case FixedString(length) => [RandInt(1, length), RandInt(0, length)]
    case Bool => [RandInt(0, 1)]
    case Uuid =>
      [RandInt(0, 4294967295), RandInt(0, 65535), RandInt(0, 65535), RandInt(0, 65535), RandInt(0, 281474976710655)]
    case _ => [RandInt(1072549200, 1672549200)]
  }

  /** Composites ask for their components from left to right, wrappers for what they wrap. */
  function RequestsOf(t: Type): seq<Request>
    decreases t, 1
  {
    match t
    case Basic(s) => ScalarRequests(s)
    case Nullable(inner) => RequestsOf(inner)
    case LowCardinality(inner) => RequestsOf(inner)
    case Array(element) => RequestsOf(element)
    case Tuple(items) => RequestsOfAll(items)
    case Map(key, value) => RequestsOf(key) + RequestsOf(value)
  }

  function RequestsOfAll(items: seq<Type>): seq<Request>
    decreases items, 0
  {
    if items == [] then [] else RequestsOf(items[0]) + RequestsOfAll(items[1..])
  }

  lemma ScalarAsks(s: Scalar, oracle: Oracle, h: History)
    ensures DrawScalar(s, oracle, h).history == h + ScalarRequests(s)
  {
    hide IntegerMin, IntegerMax, DecimalLimit, IntText, NatText, UuidText, Conversion, Letters, FixedStringLetters;
    assert |ALPHABET| == 51;
    assert "-" + "3.4028235e38" == "-3.4028235e38";
    match s
    case Uuid => UuidAsks(oracle, h);
    case _ => assert forall first: Request, second: Request :: h + [first] + [second] == h + [first, second];
  }

  lemma UuidAsks(oracle: Oracle, h: History)
    ensures DrawUuid(oracle, h).history == h + ScalarRequests(Uuid)
  {
    hide UuidText;
    var wide, narrow, widest := RandInt(0, 4294967295), RandInt(0, 65535), RandInt(0, 281474976710655);
    assert h + [wide] + [narrow] + [narrow] + [narrow] + [widest] == h + [wide, narrow, narrow, narrow, widest];
  }

  /** Drawing a literal advances the source by exactly the requests of its type, whatever it answers. */
  lemma {:induction false} LiteralAsks(t: Type, oracle: Oracle, h: History)
    ensures RandValue(t, oracle, h).history == h + RequestsOf(t)
    decreases t, 1
  {
    hide DrawScalar, ScalarRequests, TupleText, MapText, ArrayText;
    match t
    case Basic(s) => ScalarAsks(s, oracle, h);
    case Nullable(inner) => LiteralAsks(inner, oracle, h);
    case LowCardinality(inner) => LiteralAsks(inner, oracle, h);
    case Array(element) => LiteralAsks(element, oracle, h);
    case Tuple(items) => ItemsAsk(items, oracle, h);
    case Map(key, value) =>
      LiteralAsks(key, oracle, h);
      LiteralAsks(value, oracle, h + RequestsOf(key));
      assert h + RequestsOf(key) + RequestsOf(value) == h + (RequestsOf(key) + RequestsOf(value));
  }

  lemma {:induction false} ItemsAsk(items: seq<Type>, oracle: Oracle, h: History)
    ensures RandValues(items, oracle, h).history == h + RequestsOfAll(items)
    decreases items, 0
  {
    hide RandValue, RequestsOf;
    if items == [] {
      assert h + [] == h;
    } else {
      LiteralAsks(items[0], oracle, h);
      ItemsAsk(items[1..], oracle, h + RequestsOf(items[0]));
      assert h + RequestsOf(items[0]) + RequestsOfAll(items[1..]) == h + (RequestsOf(items[0]) + RequestsOfAll(items[1..]));
    }
  }

  // ----- how a scalar's literal follows from the answers

  /** The source's answer to an integer request, if it keeps to the range. */
  predicate Answers(oracle: Oracle, h: History, lo: int, hi: int, n: int) {
    oracle.ints(h, RandInt(lo, hi)) == n && lo <= n <= hi
  }

  /** An answer in range is what is drawn. */
  lemma AnswerIsDrawn(oracle: Oracle, h: History, lo: int, hi: int, n: int)
    requires Answers(oracle, h, lo, hi, n)
    ensures DrawInt(oracle, h, lo, hi) == Drawn(n, h + [RandInt(lo, hi)])
  {
  }

  /** Integers, dates and times print the one number drawn; a Boolean is true unless it is zero. */
  lemma OneAnswerLiteral(s: Scalar, oracle: Oracle, h: History, n: int)
    requires s.Integer? || s.Bool? || s.Date? || s.Date32? || s.DateTime? || s.DateTime64?
    requires var r := ScalarRequests(s)[0]; Answers(oracle, h, r.lo, r.hi, n)
    ensures var value := DrawScalar(s, oracle, h).value;
            if s.Bool? then value == if n == 0 then "false" else "true"
            else if s.DateTime64? then value == "toDateTime64(" + IntText(n) + "," + NatText(s.precision) + ")"
            else value == "to" + ScalarName(s) + "(" + IntText(n) + ")"
  {
    hide IntText, NatText, IntegerMin, IntegerMax, ScalarName;
  }

  /** Floats and decimals print the number drawn; a Float64 takes its exponent from a second draw. */
  lemma FloatLiteral(s: Scalar, oracle: Oracle, h: History)
    requires s.Float32? || s.Float64? || s.Decimal?
    ensures var first := ScalarRequests(s)[0];
            var x := oracle.reals(h, first);
            var value := DrawScalar(s, oracle, h).value;
            && (s.Float32? ==> value == "to" + ScalarName(s) + "(" + x + ")")
            && (s.Decimal? ==> value == "to" + ScalarName(s) + "(" + (x + "," + NatText(s.scale)) + ")")
            && (s.Float64? ==> forall n | Answers(oracle, h + [first], 0, 308, n) ::
                  value == "to" + ScalarName(s) + "(" + (x + "e" + IntText(n)) + ")")
  {
    hide IntText, NatText, DecimalLimit, ScalarName;
    assert "-" + "3.4028235e38" == "-3.4028235e38";
  }

  /** A string is one letter of the maximum's, repeated: the first answer picks it, the second counts. */
  lemma LettersLiteral(s: Scalar, oracle: Oracle, h: History, index: int, count: int)
    requires s.String? || s.FixedString?
    requires var r := ScalarRequests(s);
             Answers(oracle, h, r[0].lo, r[0].hi, index) && Answers(oracle, h + [r[0]], r[1].lo, r[1].hi, count)
    ensures var letters := if s.String? then ALPHABET else FixedStringLetters(s.length);
            1 <= index <= |letters| && 0 <= count
            && DrawScalar(s, oracle, h).value == "'" + Repeat(letters[index - 1], count) + "'"
  {
    hide Letters, FixedStringLetters;
    assert |ALPHABET| == 51;
  }

  /** The five groups of a random UUID are the five answers, in order. */
  lemma UuidLiteral(oracle: Oracle, h: History, a: int, b: int, c: int, d: int, e: int)
    requires var r := ScalarRequests(Uuid);
             && Answers(oracle, h, r[0].lo, r[0].hi, a)
             && Answers(oracle, h + r[..1], r[1].lo, r[1].hi, b)
             && Answers(oracle, h + r[..2], r[2].lo, r[2].hi, c)
             && Answers(oracle, h + r[..3], r[3].lo, r[3].hi, d)
             && Answers(oracle, h + r[..4], r[4].lo, r[4].hi, e)
    ensures DrawScalar(Uuid, oracle, h).value == UuidText(a, b, c, d, e)
  {
    hide UuidText;
    var r := ScalarRequests(Uuid);
    assert h + r[..1] == h + [r[0]] && h + r[..2] == h + [r[0]] + [r[1]];
    assert h + r[..3] == h + [r[0]] + [r[1]] + [r[2]] && h + r[..4] == h + [r[0]] + [r[1]] + [r[2]] + [r[3]];
  }
}
