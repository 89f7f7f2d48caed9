/** How many distinct values a generated column has, against the number it was asked for. */
module Cardinality {
  import opened Text
  import opened DataTypes
  import opened Literals
  import opened TestData
  import opened Limits

  /** Does a value of this type hold any data at all? Empty tuples and arrays of them do not. */
  predicate HasScalar(t: Type)
    decreases t, 1
  {
    match t
    case Basic(_) => true
    case Nullable(inner) => HasScalar(inner)
    case LowCardinality(inner) => HasScalar(inner)
    case Array(element) => HasScalar(element)
    case Map(key, value) => HasScalar(key) || HasScalar(value)
    case Tuple(items) => SomeHasScalar(items)
  }

  predicate SomeHasScalar(items: seq<Type>)
    decreases items, 0
  {
    items != [] && (HasScalar(items[0]) || SomeHasScalar(items[1..]))
  }

  predicate HasNullable(t: Type)
    decreases t, 1
  {
    match t
    case Basic(_) => false
    case Nullable(_) => true
    case LowCardinality(inner) => HasNullable(inner)
    case Array(element) => HasNullable(element)
    case Map(key, value) => HasNullable(key) || HasNullable(value)
    case Tuple(items) => SomeHasNullable(items)
  }

  predicate SomeHasNullable(items: seq<Type>)
    decreases items, 0
  {
    items != [] && (HasNullable(items[0]) || SomeHasNullable(items[1..]))
  }

  // ----- the limits of a scalar differ

  lemma ShortNumbers(n: nat)
    ensures |NatText(0)| == 1 && (n >= 10 ==> |NatText(n)| >= 2)
  {
    if n >= 10 {
      assert NatText(n) == NatText(n / 10) + [DigitChar(n % 10)];
    }
  }

  lemma IntegerTextsDiffer(width: Width, signed: bool)
    ensures IntText(IntegerMax(width, signed)) != IntText(IntegerMin(width, signed))
  {
    hide NatText;
    ShortNumbers(IntegerMax(width, signed));
    assert NatText(IntegerMax(width, signed))[0] in NatText(IntegerMax(width, signed));
  }

  lemma DateTextsDiffer(s: Scalar, legacy: bool)
    requires s.Date? || s.Date32? || s.DateTime? || s.DateTime64?
    ensures MaxText(s, legacy) != MinText(s, legacy)
  {
    assert MaxText(s, legacy)[1] == '2';
    assert MinText(s, legacy)[1] == '1';
  }

  lemma UuidTextsDiffer()
    ensures UniformUuid('f') != UniformUuid('0')
  {
    assert UniformUuid('f')[1] == 'f' && UniformUuid('0')[1] == '0';
  }

  lemma LimitTextsDiffer(s: Scalar, legacy: bool)
    ensures MaxText(s, legacy) != MinText(s, legacy)
  {
    hide IntText, IntegerMax, IntegerMin, DecimalLimit, UniformUuid, FixedStringLetters;
    match s
    case Integer(width, signed) => IntegerTextsDiffer(width, signed);
    case Date => DateTextsDiffer(s, legacy);
    case Date32 => DateTextsDiffer(s, legacy);
    case DateTime => DateTextsDiffer(s, legacy);
    case DateTime64(_) => DateTextsDiffer(s, legacy);
    case Uuid => UuidTextsDiffer();
    case String => assert |MaxText(s, legacy)| > |MinText(s, legacy)|;
    case FixedString(_) => assert |MaxText(s, legacy)| > |MinText(s, legacy)|;
    case Bool => assert MaxText(s, legacy)[0] == 't' && MinText(s, legacy)[0] == 'f';
    case _ => assert |MinText(s, legacy)| == |MaxText(s, legacy)| + 1;
  }

  lemma ScalarLimitsDiffer(s: Scalar, legacy: bool)
    ensures ScalarLiteral(Max, s, legacy) != ScalarLiteral(Min, s, legacy)
  {
    hide MaxText, MinText, Arguments, ConversionWord, SecondArgument, LimitLiteral;
    LimitTextsDiffer(s, legacy);
    LimitsReadBack(s, legacy);
    var max, min := [MaxText(s, legacy)] + SecondArgument(s), [MinText(s, legacy)] + SecondArgument(s);
    assert max[0] != min[0];
  }

  // ----- composite literals are equal exactly when their components are

  lemma CompositesAgree(p: Pick, q: Pick, t: Type, legacy: bool)
    ensures t.Array? ==>
              (Literal(p, t, legacy) == Literal(q, t, legacy)
               <==> Literal(p, t.element, legacy) == Literal(q, t.element, legacy))
    ensures t.Map? ==>
              (Literal(p, t, legacy) == Literal(q, t, legacy)
               <==> Literal(p, t.key, legacy) == Literal(q, t.key, legacy)
                    && Literal(p, t.value, legacy) == Literal(q, t.value, legacy))
    ensures t.Tuple? ==>
              (Literal(p, t, legacy) == Literal(q, t, legacy)
               <==> DataTypes.Literals(p, t.items, legacy) == DataTypes.Literals(q, t.items, legacy))
  {
    hide SplitTop, Arguments, Inside, TupleText, MapText, ArrayText, Sealed;
    LiteralReadsBack(p, t, legacy);
    LiteralReadsBack(q, t, legacy);
    if t.Tuple? {
      LiteralsPresent(p, t.items, legacy);
      LiteralsPresent(q, t.items, legacy);
      TupleTextReadsBack(DataTypes.Literals(p, t.items, legacy));
      TupleTextReadsBack(DataTypes.Literals(q, t.items, legacy));
    }
  }

  /** The first two cells of a column differ exactly when its type holds a scalar. */
  lemma {:induction false} LimitsDiffer(t: Type, legacy: bool)
    ensures Literal(Max, t, legacy) != Literal(Min, t, legacy) <==> HasScalar(t)
    decreases t, 1
  {
    hide ScalarLiteral, TupleText, MapText, ArrayText;
    CompositesAgree(Max, Min, t, legacy);
    match t
    case Basic(s) => ScalarLimitsDiffer(s, legacy);
    case Nullable(inner) => LimitsDiffer(inner, legacy);
    case LowCardinality(inner) => LimitsDiffer(inner, legacy);
    case Array(element) => LimitsDiffer(element, legacy);
    case Map(key, value) =>
      LimitsDiffer(key, legacy);
      LimitsDiffer(value, legacy);
    case Tuple(items) => SomeLimitsDiffer(items, legacy);
  }

  lemma {:induction false} SomeLimitsDiffer(items: seq<Type>, legacy: bool)
    ensures DataTypes.Literals(Max, items, legacy) != DataTypes.Literals(Min, items, legacy) <==> SomeHasScalar(items)
    decreases items, 0
  {
    hide Literal, HasScalar;
    if items != [] {
      LimitsDiffer(items[0], legacy);
      SomeLimitsDiffer(items[1..], legacy);
      ConsAgree(Max, Min, items, legacy);
    }
  }

  lemma ConsAgree(p: Pick, q: Pick, items: seq<Type>, legacy: bool)
    requires items != []
    ensures DataTypes.Literals(p, items, legacy) == DataTypes.Literals(q, items, legacy)
       <==> Literal(p, items[0], legacy) == Literal(q, items[0], legacy)
            && DataTypes.Literals(p, items[1..], legacy) == DataTypes.Literals(q, items[1..], legacy)
  {
    hide Literal;
    var a, b := DataTypes.Literals(p, items, legacy), DataTypes.Literals(q, items, legacy);
    assert a[0] == Literal(p, items[0], legacy) && a[1..] == DataTypes.Literals(p, items[1..], legacy);
    assert b[0] == Literal(q, items[0], legacy) && b[1..] == DataTypes.Literals(q, items[1..], legacy);
    assert a == [a[0]] + a[1..] && b == [b[0]] + b[1..];
  }

  // ----- types without a scalar

  lemma {:induction false} EmptyIsNotNull(t: Type, legacy: bool)
    requires !HasScalar(t)
    ensures Literal(Max, t, legacy) != "" && Literal(Max, t, legacy)[0] != 'N'
  {
    hide DataTypes.Literals, CommaJoin;
    match t
    case Nullable(inner) => EmptyIsNotNull(inner, legacy);
    case LowCardinality(inner) => EmptyIsNotNull(inner, legacy);
    case _ =>
  }

  /** Without a scalar the third literal differs from the first exactly when something may be Null. */
  lemma {:induction false} ZeroDiffers(t: Type, legacy: bool)
    requires !HasScalar(t)
    ensures Literal(Max, t, legacy) != Literal(Zero, t, legacy) <==> HasNullable(t)
    decreases t, 1
  {
    hide ScalarLiteral, TupleText, MapText, ArrayText;
    CompositesAgree(Max, Zero, t, legacy);
    match t
    case Nullable(inner) =>
      EmptyIsNotNull(inner, legacy);
      assert "Null"[0] == 'N';
    case LowCardinality(inner) => ZeroDiffers(inner, legacy);
    case Array(element) => ZeroDiffers(element, legacy);
    case Map(key, value) =>
      ZeroDiffers(key, legacy);
      ZeroDiffers(value, legacy);
    case Tuple(items) => SomeZeroDiffers(items, legacy);
  }

  lemma {:induction false} SomeZeroDiffers(items: seq<Type>, legacy: bool)
    requires !SomeHasScalar(items)
    ensures DataTypes.Literals(Max, items, legacy) != DataTypes.Literals(Zero, items, legacy) <==> SomeHasNullable(items)
    decreases items, 0
  {
    hide Literal, HasScalar, HasNullable;
    if items != [] {
      ZeroDiffers(items[0], legacy);
      SomeZeroDiffers(items[1..], legacy);
      ConsAgree(Max, Zero, items, legacy);
    }
  }

  /** Without a scalar nothing is drawn. */
  lemma {:induction false} NothingToDraw(t: Type, legacy: bool, oracle: Oracle, h: History)
    requires !HasScalar(t)
    ensures RandValue(t, oracle, h) == Drawn(Literal(Max, t, legacy), h)
    decreases t, 1
  {
    hide TupleText, MapText, ArrayText;
    match t
    case Nullable(inner) => NothingToDraw(inner, legacy, oracle, h);
    case LowCardinality(inner) => NothingToDraw(inner, legacy, oracle, h);
    case Array(element) => NothingToDraw(element, legacy, oracle, h);
    case Map(key, value) =>
      NothingToDraw(key, legacy, oracle, h);
      NothingToDraw(value, legacy, oracle, h);
    case Tuple(items) => NothingInItems(items, legacy, oracle, h);
  }

  lemma {:induction false} NothingInItems(items: seq<Type>, legacy: bool, oracle: Oracle, h: History)
    requires !SomeHasScalar(items)
    ensures RandValues(items, oracle, h) == Drawn(DataTypes.Literals(Max, items, legacy), h)
    decreases items, 0
  {
    hide RandValue, Literal, HasScalar;
    if items != [] {
      NothingToDraw(items[0], legacy, oracle, h);
      NothingInItems(items[1..], legacy, oracle, h);
    }
  }

  // ----- the number of distinct values

  function Values(cells: seq<string>): set<string> {
    set cell | cell in cells
  }

  lemma OneValue(cells: seq<string>)
    requires cells != []
    ensures |Values(cells)| == 1 <==> forall cell | cell in cells :: cell == cells[0]
  {
    if forall cell | cell in cells :: cell == cells[0] {
      assert Values(cells) == {cells[0]};
    } else {
      var other :| other in cells && other != cells[0];
      var pair := {cells[0], other};
      assert pair <= Values(cells) && |pair| == 2;
      var others := Values(cells) - pair;
      assert Values(cells) == pair + others && |Values(cells)| == |pair| + |others|;
    }
  }

  lemma EmptyColumn(feeds: seq<Feed>, c: nat, r: nat, rowCount: int, legacy: bool, store: Store)
    requires Covers(store, feeds) && c < |feeds| && r < rowCount && !HasScalar(feeds[c].kind)
    ensures GenerateEagerly(feeds, rowCount, legacy, store).columns[c][r]
         == Literal(if r == 2 then Zero else Max, feeds[c].kind, legacy)
  {
    hide GenerateEagerly, Literal, RandValue, Draws, HasScalar;
    CellsOfColumn(feeds, c, r, rowCount, legacy, store);
    var f := feeds[c];
    LimitsDiffer(f.kind, legacy);
    if r >= 3 {
      var start := GenerateEagerly(feeds[..c], rowCount, legacy, store).store[f.random];
      NothingToDraw(f.kind, legacy, f.random.oracle, Draws(f.kind, r - 3, f.random.oracle, start).history);
    }
  }

  /** The cells of the generated columns do not depend on the cardinality asked for, and a column has one
      distinct value exactly when it has one row, or holds no scalar and has two rows or no Null. So asking
      for one value fails for every column with a scalar and more than one row. */
  lemma OneValueExactly(feeds: seq<Feed>, c: nat, rowCount: pos, legacy: bool, store: Store)
    requires Covers(store, feeds) && c < |feeds|
    ensures var cells := GenerateEagerly(feeds, rowCount, legacy, store).columns[c][..rowCount];
            var t := feeds[c].kind;
            |Values(cells)| == 1 <==> rowCount == 1 || (!HasScalar(t) && (rowCount == 2 || !HasNullable(t)))
  {
    hide GenerateEagerly, Literal, Values, HasScalar, HasNullable;
    var cells := GenerateEagerly(feeds, rowCount, legacy, store).columns[c][..rowCount];
    var t := feeds[c].kind;
    OneValue(cells);
    LimitsDiffer(t, legacy);
    CellsOfColumn(feeds, c, 0, rowCount, legacy, store);
    if HasScalar(t) {
      if rowCount >= 2 {
        CellsOfColumn(feeds, c, 1, rowCount, legacy, store);
        assert cells[1] in cells;
      }
    } else {
      ZeroDiffers(t, legacy);
      forall r | 0 <= r < rowCount ensures cells[r] == Literal(if r == 2 then Zero else Max, t, legacy) {
        EmptyColumn(feeds, c, r, rowCount, legacy, store);
      }
      if rowCount >= 3 {
        assert cells[2] in cells;
      }
    }
  }

  lemma BooleanLimits()
    ensures Literal(Max, Basic(Bool), false) == "toBool(true)" && Literal(Min, Basic(Bool), false) == "toBool(false)"
  {
    assert "to" + "Bool" + "(" == "toBool(";
    assert "toBool(" + "true" + ")" == "toBool(true)" && "toBool(" + "false" + ")" == "toBool(false)";
  }

  /** Two rows of a Boolean column hold two values, also when one was asked for. */
  lemma OneValueWitness(random: Random, store: Store)
    requires random in store
    ensures GenerateEagerly([Feed(Basic(Bool), random)], 2, false, store).columns[0][..2] == ["toBool(true)", "toBool(false)"]
  {
    hide GenerateEagerly, Literal;
    var feeds := [Feed(Basic(Bool), random)];
    BooleanLimits();
    CellsOfColumn(feeds, 0, 0, 2, false, store);
    CellsOfColumn(feeds, 0, 1, 2, false, store);
  }
}
