/** Column names: the flattening of a type name into an identifier, and the decoder
    which shows that nothing but punctuation and case was lost. */
module ColumnNames {
  import opened Text
  import opened DataTypes

  /** One character of a name after the replacements and lower-casing. */
  function FlattenChar(c: char): char {
    if c == '(' || c == ')' || c == ',' then '_'
    else if 'A' <= c <= 'Z' then (c as int - 'A' as int + 'a' as int) as char
    else c
  }

  function Flatten(s: string): (r: string)
    ensures |r| == |s|
  {
    seq(|s|, i requires 0 <= i < |s| => FlattenChar(s[i]))
  }

  /** The name a column gets when the caller supplies none. */
  function ColumnName(t: Type): string {
    Flatten(Name(t))
  }

  lemma FlattenConcat(a: string, b: string)
    ensures Flatten(a + b) == Flatten(a) + Flatten(b)
  {
  }

  // ----- decoder

  /** What the first word of a flattened name announces. */
  datatype Head =
    | PlainHead(scalar: Scalar)
    | DecimalHead(digits: DecimalDigits)
    | DateTime64Head
    | FixedStringHead
    | NullableHead
    | LowCardinalityHead
    | ArrayHead
    | TupleHead
    | MapHead
    | NoHead

  function WidthOf(text: string): Option<Width> {
    if text == "8" then Some(W8)
    else if text == "16" then Some(W16)
    else if text == "32" then Some(W32)
    else if text == "64" then Some(W64)
    else if text == "128" then Some(W128)
    else if text == "256" then Some(W256)
    else None
  }

  function DecimalDigitsOf(text: string): Option<DecimalDigits> {
    if text == "32" then Some(D9)
    else if text == "64" then Some(D18)
    else if text == "128" then Some(D38)
    else if text == "256" then Some(D76)
    else None
  }

  function IntegerHead(width: string, signed: bool): Head {
    match WidthOf(width)
    case None => NoHead
    case Some(w) => PlainHead(Integer(w, signed))
  }

  function HeadD(word: string): Head {
    if word == "date" then PlainHead(Date)
    else if word == "date32" then PlainHead(Date32)
    else if word == "datetime" then PlainHead(DateTime)
    else if word == "datetime64" then DateTime64Head
    else if "decimal" <= word then
      match DecimalDigitsOf(word[7..])
      case None => NoHead
      case Some(digits) => DecimalHead(digits)
    else NoHead
  }

  function HeadF(word: string): Head {
    if word == "float32" then PlainHead(Float32)
    else if word == "float64" then PlainHead(Float64)
    else if word == "fixedstring" then FixedStringHead
    else NoHead
  }

  /** The head a lower-cased word announces, found by its first letter. */
  function HeadOf(word: string): Head {
    if word == "" then NoHead
    else
      match word[0]
      case 'i' => if "int" <= word then IntegerHead(word[3..], true) else NoHead
      case 'u' =>
        if word == "uuid" then PlainHead(Uuid)
        else if "uint" <= word then IntegerHead(word[4..], false)
        else NoHead
      case 'd' => HeadD(word)
      case 'f' => HeadF(word)
      case 's' => if word == "string" then PlainHead(String) else NoHead
      case 'b' => if word == "bool" then PlainHead(Bool) else NoHead
      case 'n' => if word == "nullable" then NullableHead else NoHead
      case 'l' => if word == "lowcardinality" then LowCardinalityHead else NoHead
      case 'a' => if word == "array" then ArrayHead else NoHead
      case 't' => if word == "tuple" then TupleHead else NoHead
      case 'm' => if word == "map" then MapHead else NoHead
      case _ => NoHead
  }

  function NumberedScalar(head: Head, n: nat): Option<Scalar> {
    match head
    case DecimalHead(digits) => Some(Decimal(digits, n))
    case DateTime64Head => Some(DateTime64(n))
    case FixedStringHead => if 0 < n then Some(FixedString(n)) else None
    case _ => None
  }

  /** Length of the longest prefix without an underscore. */
  function WordLength(text: string): (n: nat)
    ensures n <= |text|
    ensures n < |text| ==> text[n] == '_'
  {
    if text == "" || text[0] == '_' then 0 else 1 + WordLength(text[1..])
  }

  function SkipUnderscore(text: string): (r: Option<string>)
    ensures r.Some? ==> text == "_" + r.value
  {
    if text != "" && text[0] == '_' then Some(text[1..]) else None
  }

  /** Reads one type off the front of a flattened name; returns it with the unread rest. */
  function ParseType(text: string): (r: Option<(Type, string)>)
    ensures r.Some? ==> |r.value.1| < |text|
    decreases |text|, 1
  {
    var n := WordLength(text);
    if n == 0 then None
    else
      var head := HeadOf(text[..n]);
      if head.PlainHead? then Some((Basic(head.scalar), text[n..]))
      else
        var body :- SkipUnderscore(text[n..]);
        ParseBody(head, body)
  }

  /** Reads what follows `<head>_`, up to and including the closing underscore. */
  function ParseBody(head: Head, body: string): (r: Option<(Type, string)>)
    ensures r.Some? ==> |r.value.1| <= |body|
    decreases |body|, 3
  {
    match head
    case NullableHead =>
      var inner :- ParseType(body);
      var rest :- SkipUnderscore(inner.1);
      Some((Nullable(inner.0), rest))
    case LowCardinalityHead =>
      var inner :- ParseType(body);
      var rest :- SkipUnderscore(inner.1);
      Some((LowCardinality(inner.0), rest))
    case ArrayHead =>
      var element :- ParseType(body);
      var rest :- SkipUnderscore(element.1);
      Some((Array(element.0), rest))
    case MapHead =>
      var key :- ParseType(body);
      var middle :- SkipUnderscore(key.1);
      var value :- ParseType(middle);
      var rest :- SkipUnderscore(value.1);
      Some((Map(key.0, value.0), rest))
    case TupleHead =>
      if body != "" && body[0] == '_' then Some((Tuple([]), body[1..]))
      else
        var items :- ParseItems(body);
        Some((Tuple(items.0), items.1))
    case _ => ParseNumber(head, body)
  }

  function ParseNumber(head: Head, body: string): (r: Option<(Type, string)>)
    ensures r.Some? ==> |r.value.1| <= |body|
  {
    var digits := body[..WordLength(body)];
    if digits == "" || !AllDigits(digits) then None
    else
      var scalar :- NumberedScalar(head, DigitsValue(digits));
      var rest :- SkipUnderscore(body[|digits|..]);
      Some((Basic(scalar), rest))
  }

  /** Reads the items of a tuple and its closing underscore. An underscore closes the tuple
      exactly when no word follows it. */
  function ParseItems(text: string): (r: Option<(seq<Type>, string)>)
    ensures r.Some? ==> |r.value.1| < |text|
    decreases |text|, 2
  {
    var first :- ParseType(text);
    var after :- SkipUnderscore(first.1);
    if after == "" || after[0] == '_' then Some(([first.0], after))
    else
      var others :- ParseItems(after);
      Some(([first.0] + others.0, others.1))
  }

  function DecodeColumnName(name: string): Option<Type> {
    var parsed :- ParseType(name);
    if parsed.1 == "" then Some(parsed.0) else None
  }

  // ----- the decoder undoes the flattening

  /** What may follow a type inside a longer flattened name. */
  predicate AtBoundary(rest: string) {
    rest == "" || rest[0] == '_'
  }

  predicate IsWord(w: string) {
    w != "" && '_' !in w
  }

  lemma {:induction false} WordLengthOfWord(w: string, rest: string)
    requires '_' !in w && AtBoundary(rest)
    ensures WordLength(w + rest) == |w|
  {
    if w != "" {
      assert w[0] in w;
      assert (w + rest)[1..] == w[1..] + rest;
      WordLengthOfWord(w[1..], rest);
    } else {
      assert w + rest == rest;
    }
  }

  function HeadOfScalar(s: Scalar): Head {
    match s
    case Decimal(digits, _) => DecimalHead(digits)
    case DateTime64(_) => DateTime64Head
    case FixedString(_) => FixedStringHead
    case _ => PlainHead(s)
  }

  lemma IntegerWordDecodes(width: Width, signed: bool)
    ensures IsWord(Flatten(ScalarWord(Integer(width, signed))))
    ensures HeadOf(Flatten(ScalarWord(Integer(width, signed)))) == PlainHead(Integer(width, signed))
  {
    var digits := WidthText(width);
    WidthTextReads(width);
    FlattenDigits(digits);
    assert Flatten("Int") == "int" && Flatten("UInt") == "uint";
    FlattenConcat(if signed then "Int" else "UInt", digits);
    hide Flatten, WidthText, WidthOf, HeadOf;
    if signed { HeadOfInt(digits); } else { HeadOfUInt(digits); }
  }

  lemma HeadOfInt(digits: string)
    ensures HeadOf("int" + digits) == IntegerHead(digits, true)
  {
    hide IntegerHead;
    var w := "int" + digits;
    assert w[3..] == digits;
  }

  lemma HeadOfUInt(digits: string)
    ensures HeadOf("uint" + digits) == IntegerHead(digits, false)
  {
    hide IntegerHead;
    var w := "uint" + digits;
    assert w[1] == 'i' && w[4..] == digits;
  }

  lemma WidthTextReads(width: Width)
    ensures AllDigits(WidthText(width)) && WidthOf(WidthText(width)) == Some(width)
  {
  }

  lemma DecimalWordDecodes(digits: DecimalDigits)
    ensures IsWord(Flatten("Decimal" + DecimalWidthText(digits)))
    ensures HeadOf(Flatten("Decimal" + DecimalWidthText(digits))) == DecimalHead(digits)
  {
    var text := DecimalWidthText(digits);
    assert Flatten("Decimal") == "decimal";
    FlattenConcat("Decimal", text);
    DecimalWidthReads(digits);
    FlattenDigits(text);
    hide Flatten, DecimalWidthText, DecimalDigitsOf, HeadOf;
    HeadOfDecimal(text, digits);
  }

  lemma HeadOfDecimal(text: string, digits: DecimalDigits)
    requires DecimalDigitsOf(text) == Some(digits)
    ensures HeadOf("decimal" + text) == DecimalHead(digits)
  {
    hide DecimalDigitsOf;
    var w := "decimal" + text;
    assert w[7..] == text && w[2] == 'c';
  }

  lemma DecimalWidthReads(digits: DecimalDigits)
    ensures AllDigits(DecimalWidthText(digits)) && DecimalDigitsOf(DecimalWidthText(digits)) == Some(digits)
  {
  }

  lemma DateWordsDecode(s: Scalar)
    requires s.Date? || s.Date32?
    ensures IsWord(Flatten(ScalarWord(s)))
    ensures HeadOf(Flatten(ScalarWord(s))) == HeadOfScalar(s)
  {
    match s
    case Date => assert Flatten("Date") == "date";
    case Date32 => assert Flatten("Date32") == "date32";
  }

  lemma DateTimeWordsDecode(s: Scalar)
    requires s.DateTime? || s.DateTime64?
    ensures IsWord(Flatten(ScalarWord(s)))
    ensures HeadOf(Flatten(ScalarWord(s))) == HeadOfScalar(s)
  {
    match s
    case DateTime => assert Flatten("DateTime") == "datetime";
    case DateTime64(_) => assert Flatten("DateTime64") == "datetime64";
  }

  lemma FWordsDecode(s: Scalar)
    requires s.Float32? || s.Float64? || s.FixedString?
    ensures IsWord(Flatten(ScalarWord(s)))
    ensures HeadOf(Flatten(ScalarWord(s))) == HeadOfScalar(s)
  {
    match s
    case Float32 => assert Flatten("Float32") == "float32";
    case Float64 => assert Flatten("Float64") == "float64";
    case FixedString(_) => assert Flatten("FixedString") == "fixedstring";
  }

  lemma OtherWordsDecode(s: Scalar)
    requires s.String? || s.Bool? || s.Uuid?
    ensures IsWord(Flatten(ScalarWord(s)))
    ensures HeadOf(Flatten(ScalarWord(s))) == HeadOfScalar(s)
  {
    match s
    case String => assert Flatten("String") == "string";
    case Bool => assert Flatten("Bool") == "bool";
    case Uuid => assert Flatten("UUID") == "uuid";
  }

  /** Every scalar word survives flattening: it stays one word and announces the same scalar. */
  lemma ScalarWordDecodes(s: Scalar)
    ensures IsWord(Flatten(ScalarWord(s)))
    ensures HeadOf(Flatten(ScalarWord(s))) == HeadOfScalar(s)
  {
    match s
    case Integer(width, signed) => IntegerWordDecodes(width, signed);
    case Decimal(digits, _) => DecimalWordDecodes(digits);
    case Date => DateWordsDecode(s);
    case Date32 => DateWordsDecode(s);
    case DateTime => DateTimeWordsDecode(s);
    case DateTime64(_) => DateTimeWordsDecode(s);
    case Float32 => FWordsDecode(s);
    case Float64 => FWordsDecode(s);
    case FixedString(_) => FWordsDecode(s);
    case _ => OtherWordsDecode(s);
  }

  lemma CompositeWordsDecode()
    ensures HeadOf("nullable") == NullableHead && IsWord("nullable")
    ensures HeadOf("lowcardinality") == LowCardinalityHead && IsWord("lowcardinality")
    ensures HeadOf("array") == ArrayHead && IsWord("array")
    ensures HeadOf("tuple") == TupleHead && IsWord("tuple")
    ensures HeadOf("map") == MapHead && IsWord("map")
  {
  }

  lemma FlattenDigits(s: string)
    requires AllDigits(s)
    ensures Flatten(s) == s && '_' !in s
  {
    forall i | 0 <= i < |s| ensures Flatten(s)[i] == s[i] {
      assert s[i] in s;
    }
  }

  /** `<word>_<body>` is read as its head followed by the body. */
  lemma ParseHead(word: string, head: Head, body: string)
    requires IsWord(word) && HeadOf(word) == head && !head.PlainHead?
    ensures ParseType(word + ("_" + body)) == ParseBody(head, body)
  {
    hide HeadOf;
    var text := word + ("_" + body);
    WordLengthOfWord(word, "_" + body);
    assert text[..|word|] == word && text[|word|..] == "_" + body;
    assert SkipUnderscore("_" + body) == Some(body);
  }

  lemma FlattenWrapped(word: string, body: string)
    ensures Flatten(word + "(" + body + ")") == Flatten(word) + ("_" + Flatten(body) + "_")
  {
  }

  lemma Regroup(word: string, body: string, rest: string)
    ensures SkipUnderscore("_" + rest) == Some(rest)
    ensures word + ("_" + body + "_") + rest == word + ("_" + (body + ("_" + rest)))
  {
  }

  lemma ParseNumbered(s: Scalar, rest: string)
    requires AtBoundary(rest) && Parameter(s).Some?
    ensures ParseNumber(HeadOfScalar(s), NatText(Parameter(s).value) + ("_" + rest)) == Some((Basic(s), rest))
  {
    var digits := NatText(Parameter(s).value);
    var body := digits + ("_" + rest);
    FlattenDigits(digits);
    NatTextReadsBack(Parameter(s).value);
    WordLengthOfWord(digits, "_" + rest);
    assert body[..|digits|] == digits && body[|digits|..] == "_" + rest;
    assert SkipUnderscore("_" + rest) == Some(rest);
  }

  lemma ParseScalar(s: Scalar, rest: string)
    requires AtBoundary(rest)
    ensures ParseType(ColumnName(Basic(s)) + rest) == Some((Basic(s), rest))
  {
    hide HeadOf, ScalarWord, Flatten, ParseNumber;
    var w := Flatten(ScalarWord(s));
    ScalarWordDecodes(s);
    match Parameter(s)
    case None =>
      WordLengthOfWord(w, rest);
      assert (w + rest)[..|w|] == w && (w + rest)[|w|..] == rest;
    case Some(n) =>
      var digits := NatText(n);
      ParseHead(w, HeadOfScalar(s), digits + ("_" + rest));
      FlattenWrapped(ScalarWord(s), digits);
      FlattenDigits(digits);
      Regroup(w, digits, rest);
      ParseNumbered(s, rest);
  }

  // What the column name of each composite looks like.

  lemma FlattenWrapper(t: Type)
    requires t.Nullable? || t.LowCardinality? || t.Array?
    ensures t.Nullable? ==> ColumnName(t) == "nullable" + ("_" + ColumnName(t.inner) + "_")
    ensures t.LowCardinality? ==> ColumnName(t) == "lowcardinality" + ("_" + ColumnName(t.inner) + "_")
    ensures t.Array? ==> ColumnName(t) == "array" + ("_" + ColumnName(t.element) + "_")
  {
    match t
    case Nullable(inner) =>
      assert Flatten("Nullable") == "nullable" && "Nullable" + "(" == "Nullable(";
      FlattenWrapped("Nullable", Name(inner));
    case LowCardinality(inner) =>
      assert Flatten("LowCardinality") == "lowcardinality" && "LowCardinality" + "(" == "LowCardinality(";
      FlattenWrapped("LowCardinality", Name(inner));
    case Array(element) =>
      assert Flatten("Array") == "array" && "Array" + "(" == "Array(";
      FlattenWrapped("Array", Name(element));
  }

  lemma NameOfMap(t: Type)
    requires t.Map?
    ensures Name(t) == "Map" + "(" + (Name(t.key) + "," + Name(t.value)) + ")"
  {
  }

  lemma FlattenMap(t: Type)
    requires t.Map?
    ensures ColumnName(t) == "map" + ("_" + (ColumnName(t.key) + ("_" + ColumnName(t.value))) + "_")
  {
    hide Name;
    var k, v := Name(t.key), Name(t.value);
    assert Flatten("Map") == "map";
    FlattenWrapped("Map", k + "," + v);
    assert Flatten(k + "," + v) == Flatten(k) + ("_" + Flatten(v));
    NameOfMap(t);
  }

  lemma FlattenTuple(t: Type)
    requires t.Tuple?
    ensures ColumnName(t) == "tuple" + ("_" + FlatItems(t.items) + "_")
  {
    assert Flatten("Tuple") == "tuple" && "Tuple" + "(" == "Tuple(";
    FlattenWrapped("Tuple", CommaJoin(Names(t.items)));
  }

  // One step of the parser per composite.

  lemma SkipSeparator(rest: string)
    ensures SkipUnderscore("_" + rest) == Some(rest)
  {
  }

  /** A name of the form `<word>_<inside>_` is read as its head followed by what is inside. */
  lemma ParseComposite(t: Type, word: string, head: Head, inside: string, rest: string)
    requires IsWord(word) && HeadOf(word) == head && !head.PlainHead?
    requires ColumnName(t) == word + ("_" + inside + "_")
    ensures ParseType(ColumnName(t) + rest) == ParseBody(head, inside + ("_" + rest))
  {
    hide HeadOf, ParseType, ParseBody, ColumnName;
    Regroup(word, inside, rest);
    ParseHead(word, head, inside + ("_" + rest));
  }

  lemma WrapperBody(inner: Type, body: string, rest: string)
    requires ParseType(body) == Some((inner, "_" + rest))
    ensures ParseBody(NullableHead, body) == Some((Nullable(inner), rest))
    ensures ParseBody(LowCardinalityHead, body) == Some((LowCardinality(inner), rest))
    ensures ParseBody(ArrayHead, body) == Some((Array(inner), rest))
  {
    hide ParseType, SkipUnderscore;
    SkipSeparator(rest);
  }

  lemma MapBody(key: Type, value: Type, body: string, middle: string, rest: string)
    requires ParseType(body) == Some((key, "_" + middle)) && ParseType(middle) == Some((value, "_" + rest))
    ensures ParseBody(MapHead, body) == Some((Map(key, value), rest))
  {
    hide ParseType, SkipUnderscore;
    SkipSeparator(middle);
    SkipSeparator(rest);
  }

  lemma TupleBody(items: seq<Type>, body: string, rest: string)
    requires items == [] ==> body == "_" + rest
    requires items != [] ==> ParseItems(body) == Some((items, rest)) && body != "" && body[0] != '_'
    ensures ParseBody(TupleHead, body) == Some((Tuple(items), rest))
  {
    hide ParseItems;
  }

  lemma ParseWrapper(t: Type, inner: Type, rest: string)
    requires t == Nullable(inner) || t == LowCardinality(inner) || t == Array(inner)
    requires ParseType(ColumnName(inner) + ("_" + rest)) == Some((inner, "_" + rest))
    ensures ParseType(ColumnName(t) + rest) == Some((t, rest))
  {
    hide HeadOf, ParseType, ParseBody, ColumnName;
    CompositeWordsDecode();
    FlattenWrapper(t);
    WrapperBody(inner, ColumnName(inner) + ("_" + rest), rest);
    match t {
      case Nullable(_) => ParseComposite(t, "nullable", NullableHead, ColumnName(inner), rest);
      case LowCardinality(_) => ParseComposite(t, "lowcardinality", LowCardinalityHead, ColumnName(inner), rest);
      case Array(_) => ParseComposite(t, "array", ArrayHead, ColumnName(inner), rest);
    }
  }

  lemma ParseMap(t: Type, rest: string)
    requires t.Map?
    requires var middle := ColumnName(t.value) + ("_" + rest);
             ParseType(ColumnName(t.key) + ("_" + middle)) == Some((t.key, "_" + middle))
             && ParseType(middle) == Some((t.value, "_" + rest))
    ensures ParseType(ColumnName(t) + rest) == Some((t, rest))
  {
    hide HeadOf, ParseType, ParseBody, ColumnName;
    var k, v := ColumnName(t.key), ColumnName(t.value);
    CompositeWordsDecode();
    FlattenMap(t);
    ParseComposite(t, "map", MapHead, k + ("_" + v), rest);
    assert k + ("_" + v) + ("_" + rest) == k + ("_" + (v + ("_" + rest)));
    MapBody(t.key, t.value, k + ("_" + (v + ("_" + rest))), v + ("_" + rest), rest);
  }

  lemma ParseTuple(t: Type, rest: string)
    requires t.Tuple? && AtBoundary(rest)
    requires t.items != [] ==>
               ParseItems(FlatItems(t.items) + ("_" + rest)) == Some((t.items, rest))
               && FlatItems(t.items) != "" && FlatItems(t.items)[0] != '_'
    ensures ParseType(ColumnName(t) + rest) == Some((t, rest))
  {
    assert t.items == [] ==> FlatItems(t.items) == "";
    hide HeadOf, ParseType, ParseBody, ParseItems, ColumnName, FlatItems;
    CompositeWordsDecode();
    FlattenTuple(t);
    ParseComposite(t, "tuple", TupleHead, FlatItems(t.items), rest);
    TupleBody(t.items, FlatItems(t.items) + ("_" + rest), rest);
  }

  /** A column name starts with a letter, so it is neither empty nor a separator. */
  lemma StartsWithLetter(t: Type)
    ensures ColumnName(t) != "" && ColumnName(t)[0] != '_'
  {
    if t.Basic? {
      hide HeadOf, ScalarWord;
      var w := ScalarWord(t.scalar);
      ScalarWordDecodes(t.scalar);
      assert Flatten(w)[0] in Flatten(w);
      assert ColumnName(t)[0] == Flatten(w)[0];
    }
  }

  function FlatItems(items: seq<Type>): string {
    Flatten(CommaJoin(Names(items)))
  }

  lemma {:induction false} ParseColumnName(t: Type, rest: string)
    requires AtBoundary(rest)
    ensures ParseType(ColumnName(t) + rest) == Some((t, rest))
    decreases t, 1
  {
    hide HeadOf, ParseType, ColumnName;
    match t
    case Basic(s) => ParseScalar(s, rest);
    case Nullable(inner) =>
      ParseColumnName(inner, "_" + rest);
      ParseWrapper(t, inner, rest);
    case LowCardinality(inner) =>
      ParseColumnName(inner, "_" + rest);
      ParseWrapper(t, inner, rest);
    case Array(element) =>
      ParseColumnName(element, "_" + rest);
      ParseWrapper(t, element, rest);
    case Map(key, value) =>
      ParseColumnName(key, "_" + (ColumnName(value) + ("_" + rest)));
      ParseColumnName(value, "_" + rest);
      ParseMap(t, rest);
    case Tuple(items) =>
      if items != [] {
        ParseItemNames(items, rest);
        StartsWithLetter(items[0]);
        FlatItemsCons(items);
      }
      ParseTuple(t, rest);
  }

  lemma SeparatorFlattened(first: string, others: string)
    ensures Flatten(first + "," + others) == Flatten(first) + ("_" + Flatten(others))
  {
  }

  lemma FlatItemsCons(items: seq<Type>)
    requires items != []
    ensures FlatItems(items)
         == ColumnName(items[0]) + if |items| == 1 then "" else "_" + FlatItems(items[1..])
  {
    hide Flatten, Name;
    var names := Names(items);
    assert names[0] == Name(items[0]) && names[1..] == Names(items[1..]);
    if |items| > 1 {
      SeparatorFlattened(names[0], CommaJoin(names[1..]));
    }
  }

  lemma {:induction false} ParseItemNames(items: seq<Type>, rest: string)
    requires items != [] && AtBoundary(rest)
    ensures ParseItems(FlatItems(items) + ("_" + rest)) == Some((items, rest))
    decreases items, 0
  {
    hide ParseType, ColumnName, FlatItems;
    var text := FlatItems(items) + ("_" + rest);
    FlatItemsCons(items);
    if |items| == 1 {
      assert items == [items[0]];
      assert text == ColumnName(items[0]) + ("_" + rest);
      ParseColumnName(items[0], "_" + rest);
      assert SkipUnderscore("_" + rest) == Some(rest);
    } else {
      var after := FlatItems(items[1..]) + ("_" + rest);
      assert text == ColumnName(items[0]) + ("_" + after);
      ParseColumnName(items[0], "_" + after);
      ParseItemNames(items[1..], rest);
      FlatItemsCons(items[1..]);
      StartsWithLetter(items[1]);
      assert after[0] == ColumnName(items[1])[0];
      assert SkipUnderscore("_" + after) == Some(after);
      assert items == [items[0]] + items[1..];
    }
  }

  /** Flattening loses nothing: every type of the grammar is recovered from its column name. */
  lemma ColumnNameDecodes(t: Type)
    ensures DecodeColumnName(ColumnName(t)) == Some(t)
  {
    assert ColumnName(t) + "" == ColumnName(t);
    ParseColumnName(t, "");
  }

  /** Columns compare by name, and that is the same as comparing types. */
  lemma EqualNamesEqualTypes(t: Type, u: Type)
    ensures ColumnName(t) == ColumnName(u) <==> t == u
    ensures Name(t) == Name(u) <==> t == u
  {
    ColumnNameDecodes(t);
    ColumnNameDecodes(u);
  }
}
