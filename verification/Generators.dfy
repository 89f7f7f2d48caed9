/** The lists of types that helpers/tables.py generates: every type is legal at every depth and no
    two columns share a name. */
module Generators {
  import opened Text
  import opened DataTypes
  import opened ColumnNames

  // ----- the generators

  /** May the type be wrapped in LowCardinality? `below224` is the outcome of check_clickhouse_version("<22.4"). */
  predicate Wrappable(t: Type, below224: bool) {
    SupportsLowCardinality(Unwrap(t)) && (if below224 then !t.Nullable? else true)
  }

  function LowCardinalityTypes(types: seq<Type>, below224: bool): seq<Type> {
    if types == [] then []
    else
      var t := types[0];
      var others := LowCardinalityTypes(types[1..], below224);
      if Wrappable(t, below224)
      then [LowCardinality(t)] + others
      else others
  }

  function NullableTypes(types: seq<Type>): (r: seq<Type>)
    ensures |r| == |types|
  {
    seq(|types|, i requires 0 <= i < |types| => Nullable(types[i]))
  }

  function ArrayTypes(types: seq<Type>): (r: seq<Type>)
    ensures |r| == |types|
  {
    seq(|types|, i requires 0 <= i < |types| => Array(types[i]))
  }

  /** Every combination of one key with every value. */
  function MapsOfKey(key: Type, values: seq<Type>): (r: seq<Type>)
    ensures |r| == |values|
  {
    seq(|values|, i requires 0 <= i < |values| => Map(key, values[i]))
  }

  function MapTypes(keys: seq<Type>, values: seq<Type>): seq<Type> {
    if keys == [] then []
    else (if IsValidMapKey(keys[0]) then MapsOfKey(keys[0], values) else []) + MapTypes(keys[1..], values)
  }

  const COMMON_COMPLEX: seq<Type> := [
    Array(Basic(String)),
    Map(Basic(String), LowCardinality(Basic(Float64))),
    Tuple([Basic(String)])
  ]

  const BASIC_TYPES: seq<Type> := [
    Basic(Integer(W8, false)), Basic(Integer(W16, false)), Basic(Integer(W32, false)),
    Basic(Integer(W64, false)), Basic(Integer(W128, false)),
    Basic(Integer(W8, true)), Basic(Integer(W16, true)), Basic(Integer(W32, true)),
    Basic(Integer(W64, true)), Basic(Integer(W128, true)),
    Basic(Float32), Basic(Float64), Basic(Decimal(D38, 38)),
    Basic(Date), Basic(DateTime), Basic(DateTime64(3)),
    Basic(Bool), Basic(String), Basic(FixedString(51)), Basic(Uuid)
  ]

  /** What arrays, maps and the tuple are built from. */
  function Pool(basic: seq<Type>, below224: bool): seq<Type> {
    var nulls := NullableTypes(basic);
    basic + nulls + LowCardinalityTypes(basic + nulls, below224) + COMMON_COMPLEX
  }

  function AllTypes(basic: seq<Type>, below224: bool): seq<Type> {
    var nulls := NullableTypes(basic);
    var low := LowCardinalityTypes(basic + nulls, below224);
    var pool := Pool(basic, below224);
    basic + MapTypes(pool, pool) + nulls + ArrayTypes(pool) + low + [Tuple(pool)]
  }

  function Chosen(include_: Option<seq<Type>>): seq<Type> {
    if include_.Some? && include_.value != [] then include_.value else BASIC_TYPES
  }

  /** The `exclude` argument exists but nothing reads it; an empty `include` counts as absent. */
  function GenerateAllColumnTypes(include_: Option<seq<Type>>, exclude: Option<seq<Type>>, below224: bool): seq<string> {
    ColumnNamesOf(AllTypes(Chosen(include_), below224))
  }

  function ColumnNamesOf(types: seq<Type>): (r: seq<string>)
    ensures |r| == |types|
  {
    seq(|types|, i requires 0 <= i < |types| => ColumnName(types[i]))
  }

  // ----- distinctness

  predicate Distinct<T(==)>(s: seq<T>) {
    forall i, j | 0 <= i < j < |s| :: s[i] != s[j]
  }

  predicate AllBasic(types: seq<Type>) {
    forall t | t in types :: t.Basic?
  }

  /** Which list of the generator a type comes from, judged by its outermost constructor. */
  function Group(t: Type): nat {
    match t
    case Basic(_) => 0
    case Map(_, _) => 1
    case Nullable(_) => 2
    case Array(_) => 3
    case LowCardinality(_) => 4
    case Tuple(_) => 5
  }

  predicate AllIn(types: seq<Type>, group: nat) {
    forall t | t in types :: Group(t) == group
  }

  predicate NoneIn(types: seq<Type>, group: nat) {
    forall t | t in types :: Group(t) != group
  }

  lemma DistinctConcat(a: seq<Type>, b: seq<Type>, group: nat)
    requires Distinct(a) && Distinct(b) && NoneIn(a, group) && AllIn(b, group)
    ensures Distinct(a + b)
  {
    forall i, j | 0 <= i < j < |a + b| ensures (a + b)[i] != (a + b)[j] {
      if i < |a| <= j {
        assert a[i] in a && b[j - |a|] in b;
      }
    }
  }

  /** Exactly the wrappable types of the list are wrapped. */
  lemma {:induction false} LowCardinalityMembers(types: seq<Type>, below224: bool)
    ensures forall t :: t in LowCardinalityTypes(types, below224) <==>
              t.LowCardinality? && t.inner in types && Wrappable(t.inner, below224)
  {
    hide Wrappable;
    if types != [] {
      LowCardinalityMembers(types[1..], below224);
      assert types == [types[0]] + types[1..];
    }
  }

  lemma {:induction false} LowCardinalityDistinct(types: seq<Type>, below224: bool)
    requires Distinct(types)
    ensures Distinct(LowCardinalityTypes(types, below224))
  {
    if types != [] {
      LowCardinalityDistinct(types[1..], below224);
      LowCardinalityMembers(types[1..], below224);
      assert types[0] !in types[1..];
    }
  }

  /** Exactly the combinations of a valid key with any value are built. */
  lemma {:induction false} MapMembers(keys: seq<Type>, values: seq<Type>)
    ensures forall t :: t in MapTypes(keys, values) <==>
              t.Map? && t.key in keys && t.value in values && IsValidMapKey(t.key)
  {
    hide IsValidMapKey;
    if keys != [] {
      MapMembers(keys[1..], values);
      MapsOfKeyMembers(keys[0], values);
      assert keys == [keys[0]] + keys[1..];
    }
  }

  lemma MapsOfKeyMembers(key: Type, values: seq<Type>)
    ensures forall t :: t in MapsOfKey(key, values) <==> t.Map? && t.key == key && t.value in values
  {
    forall t: Type | t.Map? && t.key == key && t.value in values ensures t in MapsOfKey(key, values) {
      var i :| 0 <= i < |values| && values[i] == t.value;
      assert MapsOfKey(key, values)[i] == t;
    }
  }

  lemma WrapperMembers(types: seq<Type>)
    ensures forall t :: t in NullableTypes(types) <==> t.Nullable? && t.inner in types
    ensures forall t :: t in ArrayTypes(types) <==> t.Array? && t.element in types
  {
    forall t: Type | t.Nullable? && t.inner in types ensures t in NullableTypes(types) {
      var i :| 0 <= i < |types| && types[i] == t.inner;
      assert NullableTypes(types)[i] == t;
    }
    forall t: Type | t.Array? && t.element in types ensures t in ArrayTypes(types) {
      var i :| 0 <= i < |types| && types[i] == t.element;
      assert ArrayTypes(types)[i] == t;
    }
  }

  lemma {:induction false} MapsDistinct(keys: seq<Type>, values: seq<Type>)
    requires Distinct(keys) && Distinct(values)
    ensures Distinct(MapTypes(keys, values))
  {
    if keys != [] {
      MapsDistinct(keys[1..], values);
      MapMembers(keys[1..], values);
      assert keys[0] !in keys[1..];
      var a, b := MapsOfKey(keys[0], values), MapTypes(keys[1..], values);
      forall i, j | 0 <= i < j < |a + b| ensures (a + b)[i] != (a + b)[j] {
        if i < |a| <= j {
          assert b[j - |a|] in b;
        }
      }
    }
  }

  lemma BasicAndNullable(basic: seq<Type>)
    requires AllBasic(basic) && Distinct(basic)
    ensures Distinct(basic + NullableTypes(basic))
    ensures forall t | t in basic + NullableTypes(basic) :: t.Basic? || (t.Nullable? && t.inner in basic)
  {
    DistinctConcat(basic, NullableTypes(basic), 2);
  }

  lemma PoolDistinct(basic: seq<Type>, below224: bool)
    requires AllBasic(basic) && Distinct(basic)
    ensures Distinct(Pool(basic, below224))
  {
    var plain := basic + NullableTypes(basic);
    var low := LowCardinalityTypes(plain, below224);
    BasicAndNullable(basic);
    LowCardinalityDistinct(plain, below224);
    LowCardinalityMembers(plain, below224);
    DistinctConcat(plain, low, 4);
    DistinctConcat(plain + low, COMMON_COMPLEX[..1], 3);
    DistinctConcat(plain + low + COMMON_COMPLEX[..1], COMMON_COMPLEX[1..2], 1);
    DistinctConcat(plain + low + COMMON_COMPLEX[..1] + COMMON_COMPLEX[1..2], COMMON_COMPLEX[2..], 5);
    assert Pool(basic, below224) == plain + low + COMMON_COMPLEX[..1] + COMMON_COMPLEX[1..2] + COMMON_COMPLEX[2..];
  }

  lemma TypesDistinct(basic: seq<Type>, below224: bool)
    requires AllBasic(basic) && Distinct(basic)
    ensures Distinct(AllTypes(basic, below224))
  {
    hide Pool;
    var pool := Pool(basic, below224);
    var nulls := NullableTypes(basic);
    var low := LowCardinalityTypes(basic + nulls, below224);
    PoolDistinct(basic, below224);
    MapsDistinct(pool, pool);
    MapMembers(pool, pool);
    var maps := MapTypes(pool, pool);
    DistinctConcat(basic, maps, 1);
    DistinctConcat(basic + maps, nulls, 2);
    DistinctConcat(basic + maps + nulls, ArrayTypes(pool), 3);
    BasicAndNullable(basic);
    LowCardinalityDistinct(basic + nulls, below224);
    LowCardinalityMembers(basic + nulls, below224);
    DistinctConcat(basic + maps + nulls + ArrayTypes(pool), low, 4);
    DistinctConcat(basic + maps + nulls + ArrayTypes(pool) + low, [Tuple(pool)], 5);
  }

  lemma NamesDistinctAsTypes(types: seq<Type>)
    ensures Distinct(ColumnNamesOf(types)) <==> Distinct(types)
  {
    hide ColumnName;
    var names := ColumnNamesOf(types);
    forall i, j | 0 <= i < j < |types| ensures names[i] == names[j] <==> types[i] == types[j] {
      EqualNamesEqualTypes(types[i], types[j]);
    }
  }

  lemma NamesDistinctAsGiven(basic: seq<Type>, below224: bool)
    requires AllBasic(basic)
    ensures Distinct(ColumnNamesOf(AllTypes(basic, below224))) <==> Distinct(basic)
  {
    hide ColumnNamesOf;
    var all := AllTypes(basic, below224);
    NamesDistinctAsTypes(all);
    if Distinct(basic) {
      TypesDistinct(basic, below224);
    }
    if Distinct(all) {
      forall i, j | 0 <= i < j < |basic| ensures basic[i] != basic[j] {
        assert all[i] == basic[i] && all[j] == basic[j];
      }
    }
  }

  /** Over scalars the generated columns have pairwise distinct names exactly when the scalars given are
      pairwise distinct; the default list always gives distinct names. */
  lemma GeneratedNamesDistinct(include_: Option<seq<Type>>, exclude: Option<seq<Type>>, below224: bool)
    requires include_.Some? ==> AllBasic(include_.value)
    ensures Distinct(GenerateAllColumnTypes(include_, exclude, below224)) <==> include_.None? || Distinct(include_.value)
  {
    hide AllTypes, ColumnNamesOf, AllBasic;
    BasicTypesDistinct();
    var chosen := Chosen(include_);
    NamesDistinctAsGiven(chosen, below224);
  }

  lemma BasicTypesDistinct()
    ensures AllBasic(BASIC_TYPES) && Distinct(BASIC_TYPES) && |BASIC_TYPES| == 20
  {
    assert forall i | 0 <= i < 20 :: Position(BASIC_TYPES[i]) == i;
    hide Position;
  }

  /** Where a type stands in the default list. */
  function Position(t: Type): int {
    if !t.Basic? then -1
    else
      match t.scalar
      case Integer(width, signed) =>
        (if signed then 5 else 0)
        + (match width case W8 => 0 case W16 => 1 case W32 => 2 case W64 => 3 case W128 => 4 case W256 => 20)
      case Float32 => 10
      case Float64 => 11
      case Decimal(_, _) => 12
      case Date => 13
      case DateTime => 14
      case DateTime64(_) => 15
      case Bool => 16
      case String => 17
      case FixedString(_) => 18
      case Uuid => 19
      case Date32 => 20
  }

  /** An empty `include` counts as absent, any other is used as given, and `exclude` does not matter. */
  lemma IncludeAndExclude(include_: seq<Type>, exclude: Option<seq<Type>>, other: Option<seq<Type>>, below224: bool)
    ensures GenerateAllColumnTypes(Some(include_), exclude, below224)
         == if include_ == [] then GenerateAllColumnTypes(None, other, below224)
            else ColumnNamesOf(AllTypes(include_, below224))
  {
    hide AllTypes, ColumnNamesOf;
  }

  /** Which scalars may be wrapped in LowCardinality, bare or nullable, and which may be map keys. */
  lemma QualifyingScalars(s: Scalar, below224: bool)
    ensures Wrappable(Basic(s), below224) <==>
              s.Integer? || s.Float32? || s.Float64? || s.Date? || s.Date32? || s.DateTime?
              || s.String? || s.FixedString? || s.Bool? || s.Uuid?
    ensures Wrappable(Nullable(Basic(s)), below224) <==> Wrappable(Basic(s), below224) && !below224
    ensures IsValidMapKey(Basic(s)) <==>
              s.Integer? || s.Date? || s.Date32? || s.DateTime? || s.String? || s.FixedString? || s.Bool? || s.Uuid?
    ensures IsValidMapKey(LowCardinality(Basic(s))) <==> s.String? || s.FixedString?
    ensures forall t | IsValidMapKey(t) :: t.Basic? || (t.LowCardinality? && t.inner.Basic?)
  {
  }

  /** Every integer but the widest, both floats, one decimal, and the other scalars except Date32. */
  predicate IsDefaultScalar(s: Scalar) {
    match s
    case Integer(width, _) => width != W256
    case Decimal(digits, scale) => digits == D38 && scale == 38
    case DateTime64(precision) => precision == 3
    case FixedString(length) => length == 51
    case Date32 => false
    case _ => true
  }

  /** The default list holds exactly these. */
  lemma DefaultScalars(s: Scalar)
    ensures Basic(s) in BASIC_TYPES <==> IsDefaultScalar(s)
  {
    if IsDefaultScalar(s) {
      assert BASIC_TYPES[Position(Basic(s))] == Basic(s);
    } else {
      DefaultMembers();
    }
  }

  lemma DefaultMembers()
    ensures forall t | t in BASIC_TYPES :: t.Basic? && IsDefaultScalar(t.scalar)
  {
  }

  /** Over scalars the kinds come in a fixed order: scalars, maps, nullables, arrays, low-cardinality types
      and the tuple last. */
  lemma KindsInOrder(basic: seq<Type>, below224: bool)
    requires AllBasic(basic)
    ensures forall i, j | 0 <= i < j < |AllTypes(basic, below224)| ::
              Group(AllTypes(basic, below224)[i]) <= Group(AllTypes(basic, below224)[j])
  {
    hide Pool, Wrappable;
    var pool := Pool(basic, below224);
    var nulls := NullableTypes(basic);
    var low := LowCardinalityTypes(basic + nulls, below224);
    MapMembers(pool, pool);
    LowCardinalityMembers(basic + nulls, below224);
    var one := basic;
    var two := one + MapTypes(pool, pool);
    OrderedConcat(one, MapTypes(pool, pool), 1);
    OrderedConcat(two, nulls, 2);
    OrderedConcat(two + nulls, ArrayTypes(pool), 3);
    OrderedConcat(two + nulls + ArrayTypes(pool), low, 4);
    OrderedConcat(two + nulls + ArrayTypes(pool) + low, [Tuple(pool)], 5);
  }

  predicate Ordered(types: seq<Type>) {
    forall i, j | 0 <= i < j < |types| :: Group(types[i]) <= Group(types[j])
  }

  lemma OrderedConcat(a: seq<Type>, b: seq<Type>, group: nat)
    requires Ordered(a) && AllIn(b, group) && forall t | t in a :: Group(t) <= group
    ensures Ordered(a + b) && forall t | t in a + b :: Group(t) <= group
  {
    forall i, j | 0 <= i < j < |a + b| ensures Group((a + b)[i]) <= Group((a + b)[j]) {
      assert (a + b)[i] in a + b;
      assert j >= |a| ==> (a + b)[j] in b;
      assert (a + b)[i] in a || (a + b)[i] in b;
    }
  }

  // ----- completeness

  /** What may stand inside a generated array, map or tuple. */
  predicate IsComponent(t: Type, basic: seq<Type>, below224: bool) {
    || t in basic
    || (t.Nullable? && t.inner in basic)
    || (t.LowCardinality? && (t.inner in basic || (t.inner.Nullable? && t.inner.inner in basic))
        && Wrappable(t.inner, below224))
    || t in COMMON_COMPLEX
  }

  /** What a generated column may be. */
  predicate IsGenerated(t: Type, basic: seq<Type>, below224: bool) {
    match t
    case Array(element) => IsComponent(element, basic, below224)
    case Map(key, value) =>
      IsValidMapKey(key) && IsComponent(key, basic, below224) && IsComponent(value, basic, below224)
    case Tuple(items) => items == Pool(basic, below224)
    case _ => IsComponent(t, basic, below224)
  }

  lemma PoolMembers(basic: seq<Type>, below224: bool)
    ensures forall t :: t in Pool(basic, below224) <==> IsComponent(t, basic, below224)
  {
    hide Wrappable;
    WrapperMembers(basic);
    LowCardinalityMembers(basic + NullableTypes(basic), below224);
  }

  /** Over scalars exactly the described types are generated: none is missing and none is extra. */
  lemma GeneratedTypesComplete(basic: seq<Type>, below224: bool, t: Type)
    requires AllBasic(basic)
    ensures t in AllTypes(basic, below224) <==> IsGenerated(t, basic, below224)
  {
    hide Wrappable, IsValidMapKey, Pool;
    var pool := Pool(basic, below224);
    PoolMembers(basic, below224);
    WrapperMembers(basic);
    WrapperMembers(pool);
    MapMembers(pool, pool);
    LowCardinalityMembers(basic + NullableTypes(basic), below224);
    CommonComplexGroups(t);
    AllTypesMember(basic, below224, t);
  }

  lemma AllTypesMember(basic: seq<Type>, below224: bool, t: Type)
    ensures var pool := Pool(basic, below224);
            var nulls := NullableTypes(basic);
            t in AllTypes(basic, below224) <==>
              t in basic || t in MapTypes(pool, pool) || t in nulls || t in ArrayTypes(pool)
              || t in LowCardinalityTypes(basic + nulls, below224) || t == Tuple(pool)
  {
    hide Pool, MapTypes, LowCardinalityTypes, ArrayTypes, NullableTypes;
  }

  lemma CommonComplexGroups(t: Type)
    ensures t in COMMON_COMPLEX ==> t.Array? || t.Map? || t.Tuple?
  {
  }

  // ----- legality

  /** What ClickHouse accepts, at every depth. `below224`: the server is older than 22.4. */
  predicate Legal(t: Type, below224: bool)
    decreases t, 1
  {
    match t
    case Basic(_) => true
    case Nullable(inner) => inner.Basic?
    case LowCardinality(inner) =>
      (inner.Basic? || (inner.Nullable? && inner.inner.Basic? && !below224)) && SupportsLowCardinality(inner)
    case Array(element) => Legal(element, below224)
    case Tuple(items) => items != [] && AllLegal(items, below224)
    case Map(key, value) => IsValidMapKey(key) && Legal(key, below224) && Legal(value, below224)
  }

  predicate AllLegal(types: seq<Type>, below224: bool)
    decreases types, 0
  {
    forall t | t in types :: Legal(t, below224)
  }

  lemma LowCardinalityLegal(basic: seq<Type>, below224: bool)
    requires AllBasic(basic)
    ensures AllLegal(LowCardinalityTypes(basic + NullableTypes(basic), below224), below224)
  {
    var plain := basic + NullableTypes(basic);
    LowCardinalityMembers(plain, below224);
    forall t | t in LowCardinalityTypes(plain, below224) ensures Legal(t, below224) {
      assert t.inner in plain;
      if t.inner.Nullable? {
        assert t.inner.inner in basic;
        assert Unwrap(t.inner) == t.inner.inner;
      }
    }
  }

  lemma CommonComplexLegal(below224: bool)
    ensures AllLegal(COMMON_COMPLEX, below224)
  {
    var s := Basic(String);
    assert Legal(COMMON_COMPLEX[0], below224);
    assert Legal(LowCardinality(Basic(Float64)), below224);
    assert Legal(COMMON_COMPLEX[1], below224);
    assert AllLegal([s], below224);
    assert Legal(COMMON_COMPLEX[2], below224);
  }

  lemma PoolLegal(basic: seq<Type>, below224: bool)
    requires AllBasic(basic)
    ensures AllLegal(Pool(basic, below224), below224)
  {
    LowCardinalityLegal(basic, below224);
    CommonComplexLegal(below224);
    assert AllLegal(basic + NullableTypes(basic), below224);
  }

  /** Every generated type is legal at every depth. */
  lemma GeneratedTypesLegal(basic: seq<Type>, below224: bool)
    requires AllBasic(basic)
    ensures AllLegal(AllTypes(basic, below224), below224)
  {
    hide Pool;
    var pool := Pool(basic, below224);
    PoolLegal(basic, below224);
    MapMembers(pool, pool);
    assert pool != [] by { PoolNotEmpty(basic, below224); }
    LowCardinalityLegal(basic, below224);
    forall t | t in AllTypes(basic, below224) ensures Legal(t, below224) {
    }
  }

  lemma PoolNotEmpty(basic: seq<Type>, below224: bool)
    ensures Pool(basic, below224) != []
  {
  }

  lemma KeyScalarLiteral(s: Scalar, pick: Pick, legacy: bool)
    requires IsValidMapKey(Basic(s))
    ensures ScalarLiteral(pick, s, legacy) != "" && ScalarLiteral(pick, s, legacy)[0] != 'N'
  {
    hide ScalarName, IntegerMax, IntegerMin;
    assert Quote(FixedStringLetters(1))[0] == '\'';
  }

  lemma KeyScalarDraw(s: Scalar, oracle: Oracle, h: History)
    requires IsValidMapKey(Basic(s))
    ensures DrawScalar(s, oracle, h).value != "" && DrawScalar(s, oracle, h).value[0] != 'N'
  {
    hide ScalarName, IntegerMax, IntegerMin, MaxText, MinText, Dashed;
  }

  /** A valid map key never prints as Null, whichever literal is asked for. */
  lemma ValidKeyIsNeverNull(key: Type, pick: Pick, legacy: bool, oracle: Oracle, h: History)
    requires IsValidMapKey(key)
    ensures Literal(pick, key, legacy) != "Null" && RandValue(key, oracle, h).value != "Null"
  {
    hide ScalarLiteral, DrawScalar;
    var s := if key.Basic? then key.scalar else key.inner.scalar;
    KeyScalarLiteral(s, pick, legacy);
    KeyScalarDraw(s, oracle, h);
    assert key.LowCardinality? ==> Literal(pick, key.inner, legacy) == ScalarLiteral(pick, s, legacy);
    assert key.LowCardinality? ==> RandValue(key.inner, oracle, h) == DrawScalar(s, oracle, h);
  }
}
