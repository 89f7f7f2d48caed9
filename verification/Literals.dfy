/** The VALUES text of an INSERT: every literal is self-contained, so a reader that only
    understands brackets and quotes can cut the text back into rows and cells. */
module Literals {
  import opened Text
  import opened DataTypes

  /** Where a reader stands inside a text: bracket depth and whether a quote is open.
      `Broken` means that the text closed a bracket it did not open, or had a comma or
      a closing bracket at depth zero. */
  datatype Place = At(depth: nat, quoted: bool) | Broken

  function Step(p: Place, c: char): Place {
    match p
    case Broken => Broken
    case At(d, true) => At(d, c != '\'')
    case At(d, false) =>
      if c == '\'' then At(d, true)
      else if c == '(' || c == '[' then At(d + 1, false)
      else if c == ')' || c == ']' then (if d == 0 then Broken else At(d - 1, false))
      else if c == ',' && d == 0 then Broken
      else p
  }

  function Walk(p: Place, t: string): Place
    decreases t
  {
    if t == "" then p else Walk(Step(p, t[0]), t[1..])
  }

  /** Self-contained: balanced, quote-closed and without a top-level comma. */
  predicate Sealed(t: string) {
    Walk(At(0, false), t) == At(0, false)
  }

  /** May stand between brackets: like `Sealed`, but commas are allowed. */
  predicate Enclosable(t: string) {
    Walk(At(1, false), t) == At(1, false)
  }

  // ----- the reader

  /** Cuts a text at its top-level commas; an empty text has no pieces. */
  function SplitTop(t: string): seq<string> {
    if t == "" then [] else Pieces(t, At(0, false), "")
  }

  function Pieces(t: string, p: Place, piece: string): (r: seq<string>)
    ensures r != []
  {
    if t == "" then [piece]
    else if t[0] == ',' && p == At(0, false) then [piece] + Pieces(t[1..], p, "")
    else Pieces(t[1..], Step(p, t[0]), piece + [t[0]])
  }

  /** The text between the outer brackets of a row. */
  function Inside(row: string): string {
    if |row| < 2 then "" else row[1..|row| - 1]
  }

  function ReadRow(row: string): seq<string> {
    SplitTop(Inside(row))
  }

  function ReadRows(text: string): seq<seq<string>> {
    var rows := SplitTop(text);
    seq(|rows|, i requires 0 <= i < |rows| => ReadRow(rows[i]))
  }

  // ----- the writer

  function RowText(cells: seq<string>): string {
    "(" + CommaJoin(cells) + ")"
  }

  function RowTexts(matrix: seq<seq<string>>): seq<string> {
    seq(|matrix|, i requires 0 <= i < |matrix| => RowText(matrix[i]))
  }

  // ----- walking

  lemma {:induction false} WalkConcat(p: Place, a: string, b: string)
    ensures Walk(p, a + b) == Walk(Walk(p, a), b)
    decreases a
  {
    if a == "" {
      assert a + b == b;
    } else {
      assert (a + b)[1..] == a[1..] + b;
      WalkConcat(Step(p, a[0]), a[1..], b);
    }
  }

  lemma {:induction false} WalkBroken(t: string)
    ensures Walk(Broken, t) == Broken
  {
    if t != "" { WalkBroken(t[1..]); }
  }

  /** A walk that succeeds at one depth succeeds one level deeper. */
  lemma {:induction false} WalkDeeper(p: Place, t: string)
    requires p.At? && Walk(p, t).At?
    ensures Walk(p.(depth := p.depth + 1), t) == Walk(p, t).(depth := Walk(p, t).depth + 1)
    decreases t
  {
    if t != "" {
      if Step(p, t[0]).Broken? {
        WalkBroken(t[1..]);
      } else {
        WalkDeeper(Step(p, t[0]), t[1..]);
      }
    }
  }

  lemma SealedIsEnclosable(t: string)
    requires Sealed(t)
    ensures Enclosable(t)
  {
    WalkDeeper(At(0, false), t);
  }

  lemma SealedConcat(a: string, b: string)
    requires Sealed(a) && Sealed(b)
    ensures Sealed(a + b)
  {
    WalkConcat(At(0, false), a, b);
  }

  lemma EnclosableConcat(a: string, b: string)
    requires Enclosable(a) && Enclosable(b)
    ensures Enclosable(a + b)
  {
    WalkConcat(At(1, false), a, b);
  }

  /** Brackets around an enclosable text seal it. */
  lemma Enclose(open: char, t: string, close: char)
    requires (open == '(' && close == ')') || (open == '[' && close == ']')
    requires Enclosable(t)
    ensures Sealed([open] + t + [close])
  {
    WalkConcat(At(0, false), [open] + t, [close]);
    WalkConcat(At(0, false), [open], t);
    assert Walk(At(0, false), [open]) == Walk(At(1, false), "");
    assert Walk(At(1, false), [close]) == Walk(At(0, false), "");
  }

  /** Characters that mean nothing to the reader outside quotes. */
  predicate Inert(c: char) {
    c != '(' && c != ')' && c != '[' && c != ']' && c != ',' && c != '\''
  }

  predicate AllInert(t: string) {
    forall c | c in t :: Inert(c)
  }

  lemma {:induction false} InertIsSealed(t: string)
    requires AllInert(t)
    ensures Sealed(t)
  {
    if t != "" {
      assert Inert(t[0]);
      InertIsSealed(t[1..]);
    }
  }

  lemma {:induction false} WalkQuoted(t: string)
    requires '\'' !in t
    ensures Walk(At(0, true), t) == At(0, true)
  {
    if t != "" { WalkQuoted(t[1..]); }
  }

  lemma QuotedIsSealed(t: string)
    requires '\'' !in t
    ensures Sealed(Quote(t))
  {
    WalkConcat(At(0, false), "'" + t, "'");
    WalkConcat(At(0, false), "'", t);
    assert Walk(At(0, false), "'") == Walk(At(0, true), "");
    assert Walk(At(0, true), "'") == Walk(At(0, false), "");
    WalkQuoted(t);
  }

  predicate AllSealed(parts: seq<string>) {
    forall part | part in parts :: Sealed(part)
  }

  lemma CommaIsEnclosable()
    ensures Enclosable(",") && Enclosable("")
  {
    assert Walk(At(1, false), ",") == Walk(At(1, false), "");
  }

  lemma {:induction false} JoinIsEnclosable(parts: seq<string>)
    requires AllSealed(parts)
    ensures Enclosable(CommaJoin(parts))
  {
    CommaIsEnclosable();
    if parts != [] {
      SealedIsEnclosable(parts[0]);
      if |parts| > 1 {
        JoinIsEnclosable(parts[1..]);
        EnclosableConcat(parts[0], ",");
        EnclosableConcat(parts[0] + ",", CommaJoin(parts[1..]));
      }
    }
  }

  // ----- the reader undoes the writer

  /** While no piece ends, reading a prefix only moves the place and extends the piece. */
  lemma {:induction false} PiecesPrefix(a: string, b: string, p: Place, piece: string)
    requires Walk(p, a).At?
    ensures Pieces(a + b, p, piece) == Pieces(b, Walk(p, a), piece + a)
  {
    if a == "" {
      assert a + b == b && piece + a == piece;
    } else {
      if Step(p, a[0]).Broken? { WalkBroken(a[1..]); }
      assert (a + b)[0] == a[0] && (a + b)[1..] == a[1..] + b;
      PiecesPrefix(a[1..], b, Step(p, a[0]), piece + [a[0]]);
      assert piece + [a[0]] + a[1..] == piece + a;
    }
  }

  /** Joining with commas and cutting at top-level commas are inverse on sealed, non-empty parts. */
  lemma {:induction false} SplitJoin(parts: seq<string>)
    requires AllSealed(parts) && "" !in parts
    ensures SplitTop(CommaJoin(parts)) == parts
  {
    assert forall part | part in parts[..] :: Sealed(part);
    if |parts| == 1 {
      assert Sealed(parts[0]);
      PiecesPrefix(parts[0], "", At(0, false), "");
      assert parts[0] + "" == parts[0] && "" + parts[0] == parts[0];
    } else if |parts| > 1 {
      assert Sealed(parts[0]);
      var rest := CommaJoin(parts[1..]);
      SplitJoin(parts[1..]);
      assert rest != "" by { assert SplitTop("") == []; }
      assert CommaJoin(parts) == parts[0] + ("," + rest);
      PiecesPrefix(parts[0], "," + rest, At(0, false), "");
      assert ("," + rest)[1..] == rest && "" + parts[0] == parts[0];
      assert parts == [parts[0]] + parts[1..];
    }
  }

  lemma RowIsSealed(cells: seq<string>)
    requires AllSealed(cells)
    ensures Sealed(RowText(cells))
  {
    JoinIsEnclosable(cells);
    Enclose('(', CommaJoin(cells), ')');
  }

  /** The VALUES text of any matrix of sealed, non-empty cells reads back as that matrix. */
  lemma ReadsBack(matrix: seq<seq<string>>)
    requires forall row | row in matrix :: AllSealed(row) && "" !in row
    ensures ReadRows(CommaJoin(RowTexts(matrix))) == matrix
  {
    var rows := RowTexts(matrix);
    forall row | row in rows ensures Sealed(row) && row != "" {
      var i :| 0 <= i < |rows| && rows[i] == row;
      RowIsSealed(matrix[i]);
    }
    SplitJoin(rows);
    forall i | 0 <= i < |matrix| ensures ReadRow(rows[i]) == matrix[i] {
      assert Inside(rows[i]) == CommaJoin(matrix[i]);
      SplitJoin(matrix[i]);
    }
  }

  // ----- every literal is sealed

  lemma DigitsAreInert(n: nat)
    ensures AllInert(NatText(n))
  {
    forall c | c in NatText(n) ensures Inert(c) {
      assert IsDigit(c);
    }
  }

  lemma IntTextIsInert(n: int)
    ensures AllInert(IntText(n))
  {
    if n < 0 { DigitsAreInert(-n); } else { DigitsAreInert(n); }
  }

  lemma WidthIsInert(width: Width, digits: DecimalDigits)
    ensures AllInert(WidthText(width)) && AllInert(DecimalWidthText(digits))
  {
  }

  lemma WordIsInert(s: Scalar)
    ensures AllInert(ScalarWord(s))
  {
    hide WidthText, DecimalWidthText;
    match s
    case Integer(width, signed) =>
      assert AllInert("Int") && AllInert("UInt");
      WidthIsInert(width, D9);
    case Decimal(digits, _) =>
      assert AllInert("Decimal");
      WidthIsInert(W8, digits);
    case _ =>
  }

  lemma ToWordIsSealed(word: string)
    requires AllInert(word)
    ensures Sealed("to" + word)
  {
    hide Sealed;
    assert Inert('t') && Inert('o');
    InertIsSealed("to" + word);
  }

  lemma NumberIsSealed(n: nat)
    ensures Sealed("(" + NatText(n) + ")")
  {
    hide Sealed, AllInert, Enclosable, NatText;
    DigitsAreInert(n);
    InertIsSealed(NatText(n));
    SealedIsEnclosable(NatText(n));
    Enclose('(', NatText(n), ')');
  }

  lemma NumberedName(word: string, digits: string)
    ensures "to" + (word + "(" + digits + ")") == "to" + word + ("(" + digits + ")")
  {
  }

  lemma NameIsSealed(s: Scalar)
    ensures Sealed("to" + ScalarName(s))
  {
    hide Sealed, AllInert, NatText, ScalarWord, Parameter;
    WordIsInert(s);
    ToWordIsSealed(ScalarWord(s));
    match Parameter(s)
    case None =>
    case Some(n) =>
      NumberIsSealed(n);
      SealedConcat("to" + ScalarWord(s), "(" + NatText(n) + ")");
      NumberedName(ScalarWord(s), NatText(n));
  }

  lemma ConversionIsSealed(s: Scalar, body: string)
    requires Enclosable(body)
    ensures Sealed(Conversion(s, body))
  {
    NameIsSealed(s);
    Enclose('(', body, ')');
    SealedConcat("to" + ScalarName(s), "(" + body + ")");
    assert Conversion(s, body) == "to" + ScalarName(s) + ("(" + body + ")");
  }

  /** `<limit>,<n>` between brackets, with or without a blank after the comma. */
  lemma LimitAndNumber(limit: string, n: nat)
    requires Sealed(limit)
    ensures Enclosable(limit + "," + NatText(n)) && Enclosable(limit + ", " + NatText(n))
  {
    CommaIsEnclosable();
    DigitsAreInert(n);
    InertIsSealed(NatText(n));
    SealedIsEnclosable(NatText(n));
    SealedIsEnclosable(limit);
    EnclosableConcat(limit, ",");
    EnclosableConcat(limit + ",", NatText(n));
    InertIsSealed(" ");
    SealedIsEnclosable(" ");
    EnclosableConcat(limit + ",", " ");
    EnclosableConcat(limit + "," + " ", NatText(n));
    assert limit + "," + " " == limit + ", ";
  }

  lemma DecimalLimitIsInert(precision: nat, scale: nat)
    ensures AllInert(DecimalLimit(precision, scale))
  {
  }

  lemma LettersHaveNoQuote(length: pos)
    ensures '\'' !in ALPHABET && '\'' !in FixedStringLetters(length)
  {
  }

  lemma DashedHasNoQuote(a: string, b: string, c: string, d: string, e: string)
    requires '\'' !in a && '\'' !in b && '\'' !in c && '\'' !in d && '\'' !in e
    ensures Sealed(Quote(Dashed(a, b, c, d, e)))
  {
    var ab := a + "-" + b;
    assert '\'' !in ab;
    var abc := ab + "-" + c;
    assert '\'' !in abc;
    var abcd := abc + "-" + d;
    assert '\'' !in abcd;
    assert Dashed(a, b, c, d, e) == abcd + "-" + e;
    QuotedIsSealed(abcd + "-" + e);
  }

  lemma UniformUuidIsSealed(c: char)
    requires c == '0' || c == 'f'
    ensures Sealed(UniformUuid(c))
  {
    DashedHasNoQuote(Repeat(c, 8), Repeat(c, 4), Repeat(c, 4), Repeat(c, 4), Repeat(c, 12));
  }

  lemma DateLimitIsSealed(s: Scalar, legacy: bool)
    requires s.Date? || s.Date32? || s.DateTime?
    ensures Sealed(MaxText(s, legacy)) && Sealed(MinText(s, legacy))
  {
    hide Sealed;
    match s
    case Date => QuotedIsSealed("2149-06-06"); QuotedIsSealed("1970-01-01");
    case Date32 => QuotedIsSealed("2299-12-31"); QuotedIsSealed("1900-01-01");
    case DateTime => QuotedIsSealed("2106-02-07 06:28:15"); QuotedIsSealed("1970-01-01 00:00:00");
  }

  lemma DateTime64MaxIsSealed(precision: nat, legacy: bool)
    ensures Sealed(MaxText(DateTime64(precision), legacy))
  {
    hide Sealed;
    if precision == 9 {
      QuotedIsSealed("2262-04-11 23:47:16");
    } else if legacy {
      QuotedIsSealed("2283-11-11 23:59:59.99999999");
    } else {
      QuotedIsSealed("2299-12-31 23:59:59.99999999");
    }
  }

  lemma DateTime64MinIsSealed(precision: nat, legacy: bool)
    ensures Sealed(MinText(DateTime64(precision), legacy))
  {
    hide Sealed;
    if legacy {
      QuotedIsSealed("1925-01-01 00:00:00.00000000");
    } else {
      QuotedIsSealed("1900-01-01 00:00:00.00000000");
    }
  }

  lemma FloatLimitIsSealed(s: Scalar, legacy: bool)
    requires s.Float32? || s.Float64?
    ensures Sealed(MaxText(s, legacy)) && Sealed(MinText(s, legacy))
  {
    hide Sealed;
    InertIsSealed(MaxText(s, legacy));
    InertIsSealed("-");
    SealedConcat("-", MaxText(s, legacy));
  }

  lemma IntegerLimitIsSealed(width: Width, signed: bool, legacy: bool)
    ensures Sealed(MaxText(Integer(width, signed), legacy)) && Sealed(MinText(Integer(width, signed), legacy))
  {
    hide IntegerMax, IntegerMin;
    IntTextIsInert(IntegerMax(width, signed));
    InertIsSealed(IntText(IntegerMax(width, signed)));
    IntTextIsInert(IntegerMin(width, signed));
    InertIsSealed(IntText(IntegerMin(width, signed)));
  }

  lemma DecimalLimitIsSealed(digits: DecimalDigits, scale: nat, legacy: bool)
    ensures Sealed(MaxText(Decimal(digits, scale), legacy)) && Sealed(MinText(Decimal(digits, scale), legacy))
  {
    hide DecimalLimit;
    DecimalLimitIsInert(DecimalPrecision(digits), scale);
    InertIsSealed(MaxText(Decimal(digits, scale), legacy));
    InertIsSealed(MinText(Decimal(digits, scale), legacy));
  }

  lemma LimitTextIsSealed(s: Scalar, legacy: bool)
    ensures Sealed(MaxText(s, legacy)) && Sealed(MinText(s, legacy))
  {
    hide MaxText, MinText;
    match s
    case Integer(width, signed) => IntegerLimitIsSealed(width, signed, legacy);
    case Decimal(digits, scale) => DecimalLimitIsSealed(digits, scale, legacy);
    case Float32 => FloatLimitIsSealed(s, legacy);
    case Float64 => FloatLimitIsSealed(s, legacy);
    case Date => DateLimitIsSealed(s, legacy);
    case Date32 => DateLimitIsSealed(s, legacy);
    case DateTime => DateLimitIsSealed(s, legacy);
    case DateTime64(precision) =>
      DateTime64MaxIsSealed(precision, legacy);
      DateTime64MinIsSealed(precision, legacy);
    case _ => TextLimitIsSealed(s, legacy);
  }

  lemma TextLimitIsSealed(s: Scalar, legacy: bool)
    requires s.String? || s.FixedString? || s.Bool? || s.Uuid?
    ensures Sealed(MaxText(s, legacy)) && Sealed(MinText(s, legacy))
  {
    hide Sealed;
    match s
    case String =>
      LettersHaveNoQuote(1);
      QuotedIsSealed(ALPHABET);
      QuotedIsSealed("");
    case FixedString(length) =>
      LettersHaveNoQuote(length);
      QuotedIsSealed(FixedStringLetters(length));
      QuotedIsSealed("");
    case Bool =>
      InertIsSealed("true");
      InertIsSealed("false");
    case Uuid =>
      UniformUuidIsSealed('f');
      UniformUuidIsSealed('0');
  }

  lemma LimitLiteralIsSealed(s: Scalar, limit: string)
    requires Sealed(limit)
    ensures Sealed(LimitLiteral(s, limit))
  {
    hide Sealed, Enclosable, ScalarName;
    SealedIsEnclosable(limit);
    match s
    case Decimal(_, scale) =>
      LimitAndNumber(limit, scale);
      ConversionIsSealed(s, limit + ", " + NatText(scale));
    case DateTime64(precision) =>
      LimitAndNumber(limit, precision);
      DateTime64Call(limit + "," + NatText(precision));
      assert LimitLiteral(s, limit) == "toDateTime64(" + (limit + "," + NatText(precision)) + ")";
    case FixedString(length) =>
      LimitAndNumber(limit, length);
      ConversionIsSealed(s, limit + "," + NatText(length));
    case _ => ConversionIsSealed(s, limit);
  }

  lemma DateTime64Call(body: string)
    requires Enclosable(body)
    ensures Sealed("toDateTime64(" + body + ")")
  {
    Call("toDateTime64", body);
    assert "toDateTime64" + "(" == "toDateTime64(";
  }

  /** `<word>(<body>)` */
  lemma Call(word: string, body: string)
    requires AllInert(word) && Enclosable(body)
    ensures Sealed(word + "(" + body + ")")
  {
    InertIsSealed(word);
    Enclose('(', body, ')');
    SealedConcat(word, "(" + body + ")");
    assert word + "(" + body + ")" == word + ("(" + body + ")");
  }

  lemma ScalarLiteralIsSealed(pick: Pick, s: Scalar, legacy: bool)
    ensures Sealed(ScalarLiteral(pick, s, legacy)) && ScalarLiteral(pick, s, legacy) != ""
  {
    hide Sealed, Enclosable, MaxText, MinText, ScalarName;
    LimitTextIsSealed(s, legacy);
    LimitLiteralIsSealed(s, MaxText(s, legacy));
    LimitLiteralIsSealed(s, MinText(s, legacy));
    LimitTextIsNotEmpty(s, legacy);
    if pick == Zero {
      InertIsSealed("0");
      SealedIsEnclosable("0");
      ConversionIsSealed(s, "0");
      if s.Decimal? {
        LimitAndNumber("0", s.scale);
        assert "0" + "," == "0,";
        ConversionIsSealed(s, "0," + NatText(s.scale));
      }
    }
  }

  lemma LimitTextIsNotEmpty(s: Scalar, legacy: bool)
    ensures MaxText(s, legacy) != "" && MinText(s, legacy) != ""
  {
  }

  // ----- random literals

  lemma FloatTextIsSealed(x: FloatText, e: int)
    ensures Sealed(x) && Sealed(x + "e" + IntText(e))
  {
    hide Sealed, IntText;
    IntTextIsInert(e);
    InertIsSealed(x);
    InertIsSealed("e");
    InertIsSealed(IntText(e));
    SealedConcat(x, "e");
    SealedConcat(x + "e", IntText(e));
  }

  lemma IntTextIsSealed(n: int)
    ensures Sealed(IntText(n))
  {
    IntTextIsInert(n);
    InertIsSealed(IntText(n));
  }

  lemma {:induction false} HexTextHasNoQuote(n: nat, width: nat)
    ensures '\'' !in HexText(n) && '\'' !in ZeroFill(HexText(n), width)
  {
    if n >= 16 { HexTextHasNoQuote(n / 16, 0); }
  }

  lemma UuidIsSealed(oracle: Oracle, h: History)
    ensures Sealed(DrawUuid(oracle, h).value)
  {
    hide Sealed, Quote, Dashed, HexText, ZeroFill;
    var a := DrawInt(oracle, h, 0, 4294967295);
    var b := DrawInt(oracle, a.history, 0, 65535);
    var c := DrawInt(oracle, b.history, 0, 65535);
    var d := DrawInt(oracle, c.history, 0, 65535);
    var e := DrawInt(oracle, d.history, 0, 281474976710655);
    HexTextHasNoQuote(a.value, 8);
    HexTextHasNoQuote(b.value, 4);
    HexTextHasNoQuote(c.value, 4);
    HexTextHasNoQuote(d.value, 4);
    HexTextHasNoQuote(e.value, 12);
    DashedHasNoQuote(ZeroFill(HexText(a.value), 8), ZeroFill(HexText(b.value), 4), ZeroFill(HexText(c.value), 4),
                     ZeroFill(HexText(d.value), 4), ZeroFill(HexText(e.value), 12));
  }

  lemma DrawnLettersAreSealed(oracle: Oracle, h: History, letters: string, limit: nat)
    requires letters != "" && '\'' !in letters
    ensures Sealed(DrawLetters(oracle, h, letters, limit).value)
  {
    hide Sealed, Quote;
    var index := DrawInt(oracle, h, 1, |letters|);
    var count := DrawInt(oracle, index.history, 0, limit);
    assert letters[index.value - 1] in letters;
    QuotedIsSealed(Repeat(letters[index.value - 1], count.value));
  }

  lemma IntegerDrawIsSealed(s: Scalar, oracle: Oracle, h: History)
    requires s.Integer? || s.Date? || s.Date32? || s.DateTime?
    ensures Sealed(DrawScalar(s, oracle, h).value)
  {
    hide Sealed, Enclosable, Conversion, IntText;
    var d := if s.Integer?
      then DrawInt(oracle, h, IntegerMin(s.width, s.signed), IntegerMax(s.width, s.signed))
      else DrawInt(oracle, h, 1072549200, 1672549200);
    IntTextIsSealed(d.value);
    SealedIsEnclosable(IntText(d.value));
    ConversionIsSealed(s, IntText(d.value));
  }

  lemma FloatDrawIsSealed(s: Scalar, oracle: Oracle, h: History)
    requires s.Float32? || s.Float64? || s.Decimal?
    ensures Sealed(DrawScalar(s, oracle, h).value)
  {
    hide Sealed, Enclosable, Conversion, IntText, MaxText, MinText;
    if s.Float64? {
      var x := DrawFloat(oracle, h, "-1.79769", "1.79769");
      var e := DrawInt(oracle, x.history, 0, 308);
      FloatTextIsSealed(x.value, e.value);
      SealedIsEnclosable(x.value + "e" + IntText(e.value));
      ConversionIsSealed(s, x.value + "e" + IntText(e.value));
    } else {
      var x := DrawFloat(oracle, h, MinText(s, false), MaxText(s, false));
      FloatTextIsSealed(x.value, 0);
      SealedIsEnclosable(x.value);
      ConversionIsSealed(s, x.value);
      if s.Decimal? {
        LimitAndNumber(x.value, s.scale);
        ConversionIsSealed(s, x.value + "," + NatText(s.scale));
      }
    }
  }

  lemma DateTime64DrawIsSealed(precision: nat, oracle: Oracle, h: History)
    ensures Sealed(DrawScalar(DateTime64(precision), oracle, h).value)
  {
    hide Sealed, Enclosable, IntText;
    var n := DrawInt(oracle, h, 1072549200, 1672549200);
    IntTextIsSealed(n.value);
    LimitAndNumber(IntText(n.value), precision);
    DateTime64Call(IntText(n.value) + "," + NatText(precision));
    assert DrawScalar(DateTime64(precision), oracle, h).value
        == "toDateTime64(" + (IntText(n.value) + "," + NatText(precision)) + ")";
  }

  lemma DrawScalarIsSealed(s: Scalar, oracle: Oracle, h: History)
    ensures Sealed(DrawScalar(s, oracle, h).value) && DrawScalar(s, oracle, h).value != ""
  {
    hide Sealed;
    match s
    case Float32 => FloatDrawIsSealed(s, oracle, h);
    case Float64 => FloatDrawIsSealed(s, oracle, h);
    case Decimal(_, _) => FloatDrawIsSealed(s, oracle, h);
    case DateTime64(precision) => DateTime64DrawIsSealed(precision, oracle, h);
    case String =>
      LettersHaveNoQuote(1);
      DrawnLettersAreSealed(oracle, h, ALPHABET, 100);
    case FixedString(length) =>
      LettersHaveNoQuote(length);
      DrawnLettersAreSealed(oracle, h, FixedStringLetters(length), length);
    case Bool =>
      InertIsSealed("true");
      InertIsSealed("false");
    case Uuid => UuidIsSealed(oracle, h);
    case _ => IntegerDrawIsSealed(s, oracle, h);
  }

  // ----- composite literals

  lemma TupleTextIsSealed(parts: seq<string>)
    requires AllSealed(parts)
    ensures Sealed(TupleText(parts))
  {
    hide Sealed, Enclosable;
    JoinIsEnclosable(parts);
    Call("tuple", CommaJoin(parts));
    assert "tuple" + "(" == "tuple(";
  }

  lemma MapTextIsSealed(key: string, value: string)
    requires Sealed(key) && Sealed(value)
    ensures Sealed(MapText(key, value))
  {
    hide Sealed, Enclosable;
    JoinIsEnclosable([key, value]);
    assert CommaJoin([key, value]) == key + "," + value;
    Call("map", key + "," + value);
    assert MapText(key, value) == "map" + "(" + (key + "," + value) + ")";
  }

  lemma ArrayTextIsSealed(element: string)
    requires Sealed(element)
    ensures Sealed(ArrayText(element))
  {
    hide Sealed, Enclosable;
    SealedIsEnclosable(element);
    Enclose('[', element, ']');
  }

  /** Every maximum, minimum and zero literal of every type is sealed. */
  lemma {:induction false} LiteralIsSealed(pick: Pick, t: Type, legacy: bool)
    ensures Sealed(Literal(pick, t, legacy)) && Literal(pick, t, legacy) != ""
    decreases t, 1
  {
    hide Sealed, ScalarLiteral;
    match t
    case Basic(s) => ScalarLiteralIsSealed(pick, s, legacy);
    case Nullable(inner) =>
      InertIsSealed("Null");
      LiteralIsSealed(pick, inner, legacy);
    case LowCardinality(inner) => LiteralIsSealed(pick, inner, legacy);
    case Array(element) =>
      LiteralIsSealed(pick, element, legacy);
      ArrayTextIsSealed(Literal(pick, element, legacy));
    case Tuple(items) =>
      LiteralsAreSealed(pick, items, legacy);
      TupleTextIsSealed(Literals(pick, items, legacy));
    case Map(key, value) =>
      LiteralIsSealed(pick, key, legacy);
      LiteralIsSealed(pick, value, legacy);
      MapTextIsSealed(Literal(pick, key, legacy), Literal(pick, value, legacy));
  }

  lemma {:induction false} LiteralsAreSealed(pick: Pick, items: seq<Type>, legacy: bool)
    ensures AllSealed(Literals(pick, items, legacy))
    decreases items, 0
  {
    hide Sealed;
    if items != [] {
      LiteralIsSealed(pick, items[0], legacy);
      LiteralsAreSealed(pick, items[1..], legacy);
    }
  }

  /** Every random literal of every type is sealed, whatever the random source answers. */
  lemma {:induction false} RandValueIsSealed(t: Type, oracle: Oracle, h: History)
    ensures Sealed(RandValue(t, oracle, h).value) && RandValue(t, oracle, h).value != ""
    decreases t, 1
  {
    hide Sealed, DrawScalar;
    match t
    case Basic(s) => DrawScalarIsSealed(s, oracle, h);
    case Nullable(inner) => RandValueIsSealed(inner, oracle, h);
    case LowCardinality(inner) => RandValueIsSealed(inner, oracle, h);
    case Array(element) =>
      RandValueIsSealed(element, oracle, h);
      ArrayTextIsSealed(RandValue(element, oracle, h).value);
    case Tuple(items) =>
      RandValuesAreSealed(items, oracle, h);
      TupleTextIsSealed(RandValues(items, oracle, h).value);
    case Map(key, value) =>
      var k := RandValue(key, oracle, h);
      RandValueIsSealed(key, oracle, h);
      RandValueIsSealed(value, oracle, k.history);
      MapTextIsSealed(k.value, RandValue(value, oracle, k.history).value);
  }

  lemma {:induction false} RandValuesAreSealed(items: seq<Type>, oracle: Oracle, h: History)
    ensures AllSealed(RandValues(items, oracle, h).value)
    decreases items, 0
  {
    hide Sealed;
    if items != [] {
      RandValueIsSealed(items[0], oracle, h);
      RandValuesAreSealed(items[1..], oracle, RandValue(items[0], oracle, h).history);
    }
  }

  // ----- composite literals read back as their components

  /** The arguments of a call `<word>(...)`. */
  function Arguments(word: string, text: string): Option<seq<string>> {
    if word + "(" <= text && |word| + 2 <= |text| && text[|text| - 1] == ')'
    then Some(SplitTop(text[|word| + 1..|text| - 1]))
    else None
  }

  predicate AllPresent(parts: seq<string>) {
    AllSealed(parts) && "" !in parts
  }

  lemma CallReadsBack(word: string, parts: seq<string>)
    requires AllPresent(parts)
    ensures Arguments(word, word + "(" + CommaJoin(parts) + ")") == Some(parts)
  {
    var text := word + "(" + CommaJoin(parts) + ")";
    assert text[|word| + 1..|text| - 1] == CommaJoin(parts);
    assert text[..|word| + 1] == word + "(";
    SplitJoin(parts);
  }

  lemma TupleTextReadsBack(parts: seq<string>)
    requires AllPresent(parts)
    ensures Arguments("tuple", TupleText(parts)) == Some(parts)
  {
    CallReadsBack("tuple", parts);
    assert "tuple" + "(" == "tuple(";
  }

  lemma MapTextReadsBack(key: string, value: string)
    requires AllPresent([key, value])
    ensures Arguments("map", MapText(key, value)) == Some([key, value])
  {
    hide Sealed;
    CallReadsBack("map", [key, value]);
    assert CommaJoin([key, value]) == key + "," + value;
    assert MapText(key, value) == "map" + "(" + (key + "," + value) + ")";
  }

  lemma ArrayTextReadsBack(element: string)
    requires Sealed(element) && element != ""
    ensures SplitTop(Inside(ArrayText(element))) == [element]
  {
    assert Inside(ArrayText(element)) == CommaJoin([element]);
    SplitJoin([element]);
  }

  lemma {:induction false} LiteralsPresent(pick: Pick, items: seq<Type>, legacy: bool)
    ensures AllPresent(Literals(pick, items, legacy))
    ensures forall i | 0 <= i < |items| :: Literals(pick, items, legacy)[i] == Literal(pick, items[i], legacy)
    decreases items
  {
    hide Sealed, Literal;
    if items != [] {
      LiteralIsSealed(pick, items[0], legacy);
      LiteralsPresent(pick, items[1..], legacy);
    }
  }

  /** A composite literal holds exactly the same kind of literal of each component, in order. */
  lemma LiteralReadsBack(pick: Pick, t: Type, legacy: bool)
    ensures t.Array? ==> SplitTop(Inside(Literal(pick, t, legacy))) == [Literal(pick, t.element, legacy)]
    ensures t.Map? ==>
              var key, value := Literal(pick, t.key, legacy), Literal(pick, t.value, legacy);
              Arguments("map", Literal(pick, t, legacy)) == Some([key, value])
    ensures t.Tuple? ==>
              var parts := Arguments("tuple", Literal(pick, t, legacy));
              parts.Some? && |parts.value| == |t.items|
              && forall i | 0 <= i < |t.items| :: parts.value[i] == Literal(pick, t.items[i], legacy)
  {
    hide Sealed, SplitTop, Arguments, TupleText, MapText, ArrayText;
    match t
    case Array(element) =>
      LiteralIsSealed(pick, element, legacy);
      ArrayTextReadsBack(Literal(pick, element, legacy));
    case Map(key, value) =>
      LiteralIsSealed(pick, key, legacy);
      LiteralIsSealed(pick, value, legacy);
      MapTextReadsBack(Literal(pick, key, legacy), Literal(pick, value, legacy));
    case Tuple(items) =>
      LiteralsPresent(pick, items, legacy);
      TupleTextReadsBack(Literals(pick, items, legacy));
    case _ =>
  }

  lemma {:induction false} RandValuesPresent(items: seq<Type>, oracle: Oracle, h: History)
    ensures AllPresent(RandValues(items, oracle, h).value)
    decreases items
  {
    hide Sealed, RandValue;
    if items != [] {
      RandValueIsSealed(items[0], oracle, h);
      RandValuesPresent(items[1..], oracle, RandValue(items[0], oracle, h).history);
    }
  }

  /** A composite random literal holds the random literals of its components, drawn left to right. */
  lemma RandValueReadsBack(t: Type, oracle: Oracle, h: History)
    ensures var d := RandValue(t, oracle, h);
            (t.Array? ==> SplitTop(Inside(d.value)) == [RandValue(t.element, oracle, h).value])
            && (t.Map? ==>
                  var k := RandValue(t.key, oracle, h);
                  var v := RandValue(t.value, oracle, k.history);
                  Arguments("map", d.value) == Some([k.value, v.value]) && d.history == v.history)
            && (t.Tuple? ==>
                  Arguments("tuple", d.value) == Some(RandValues(t.items, oracle, h).value)
                  && d.history == RandValues(t.items, oracle, h).history)
  {
    hide Sealed, SplitTop, Arguments, TupleText, MapText, ArrayText;
    match t
    case Array(element) =>
      RandValueIsSealed(element, oracle, h);
      ArrayTextReadsBack(RandValue(element, oracle, h).value);
    case Map(key, value) =>
      var k := RandValue(key, oracle, h);
      RandValueIsSealed(key, oracle, h);
      RandValueIsSealed(value, oracle, k.history);
      MapTextReadsBack(k.value, RandValue(value, oracle, k.history).value);
    case Tuple(items) =>
      RandValuesPresent(items, oracle, h);
      TupleTextReadsBack(RandValues(items, oracle, h).value);
    case _ =>
  }
}
