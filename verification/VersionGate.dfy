/** check_clickhouse_version: comparing a version requirement with the server version, and the image
    tag scan that supplies the server version. */
module VersionGate {
  import opened Text

  // ----- parsing

  /** Python's s.split("."): always at least one part. */
  function SplitDots(s: string): (parts: seq<string>)
    ensures parts != []
  {
    if s == "" then [""]
    else
      var rest := SplitDots(s[1..]);
      if s[0] == '.' then [""] + rest else [[s[0]] + rest[0]] + rest[1..]
  }

  predicate IsNumeric(part: string) {
    part != "" && AllDigits(part)
  }

  /** How many parts come before the first that is not numeric. */
  function LeadingNumeric(parts: seq<string>): (n: nat)
    ensures n <= |parts|
    ensures forall i | 0 <= i < n :: IsNumeric(parts[i])
    ensures n < |parts| ==> !IsNumeric(parts[n])
  {
    if parts == [] || !IsNumeric(parts[0]) then 0 else 1 + LeadingNumeric(parts[1..])
  }

  /** What int() skips around a number. */
  predicate IsBlank(c: char) {
    c == ' ' || '\t' <= c <= '\r'
  }

  /** Python's text.strip() */
  function Strip(text: string): string {
    if text == "" then ""
    else if IsBlank(text[0]) then Strip(text[1..])
    else if IsBlank(text[|text| - 1]) then Strip(text[..|text| - 1])
    else text
  }

  /** Digits, possibly grouped by single underscores. */
  predicate IsGrouped(text: string) {
    && text != "" && IsDigit(text[0]) && IsDigit(text[|text| - 1])
    && (forall c | c in text :: IsDigit(c) || c == '_')
    && (forall i | 0 < i < |text| :: text[i] == '_' ==> text[i - 1] != '_')
  }

  function Ungrouped(text: string): (digits: string)
    requires forall c | c in text :: IsDigit(c) || c == '_'
    ensures AllDigits(digits)
  {
    if text == "" then ""
    else if text[0] == '_' then Ungrouped(text[1..])
    else [text[0]] + Ungrouped(text[1..])
  }

  /** Python's int(text), or nothing where it raises. */
  function IntOf(text: string): Option<int> {
    var body := Strip(text);
    var signed := body != "" && (body[0] == '+' || body[0] == '-');
    var digits := if signed then body[1..] else body;
    if !IsGrouped(digits) then None
    else
      var n: int := DigitsValue(Ungrouped(digits));
      Some(if signed && body[0] == '-' then -n else n)
  }

  lemma PlainDigits(part: string)
    requires IsNumeric(part)
    ensures IsDigit(part[0]) && Strip(part) == part && IsGrouped(part)
  {
    assert forall i | 0 <= i < |part| :: part[i] in part;
  }

  /** int() reads plain digits as the number they denote. */
  lemma NumericIsInt(part: string)
    requires IsNumeric(part)
    ensures IntOf(part) == Some(DigitsValue(part))
  {
    PlainDigits(part);
    NothingGrouped(part);
    hide Ungrouped, Strip, DigitsValue, IsGrouped;
  }

  lemma {:induction false} NothingGrouped(digits: string)
    requires AllDigits(digits)
    ensures Ungrouped(digits) == digits
  {
    if digits != "" {
      assert digits[0] in digits && forall c | c in digits[1..] :: c in digits;
      NothingGrouped(digits[1..]);
    }
  }

  /** A sign before plain digits. */
  lemma SignedInt(sign: char, digits: string)
    requires (sign == '-' || sign == '+') && IsNumeric(digits)
    ensures var n: int := DigitsValue(digits);
            IntOf([sign] + digits) == Some(if sign == '-' then -n else n)
  {
    hide IntOf, Ungrouped, Strip, DigitsValue, IsGrouped;
    PlainDigits(digits);
    NothingGrouped(digits);
    SignIsKept(sign, digits);
    IntOfSigned([sign] + digits, digits);
  }

  lemma IntOfSigned(text: string, digits: string)
    requires text != "" && (text[0] == '-' || text[0] == '+') && text[1..] == digits && Strip(text) == text
    requires AllDigits(digits) && IsGrouped(digits) && Ungrouped(digits) == digits
    ensures var n: int := DigitsValue(digits);
            IntOf(text) == Some(if text[0] == '-' then -n else n)
  {
    hide Ungrouped, Strip, DigitsValue, IsGrouped;
  }

  lemma SignIsKept(sign: char, digits: string)
    requires (sign == '-' || sign == '+') && IsNumeric(digits)
    ensures var text := [sign] + digits;
            Strip(text) == text && text[0] == sign && text[1..] == digits
  {
    assert digits[|digits| - 1] in digits;
  }

  /** One underscore between two groups of digits is skipped. */
  lemma GroupedInts(first: string, second: string)
    requires IsNumeric(first) && IsNumeric(second)
    ensures AllDigits(first + second) && IntOf(first + ("_" + second)) == Some(DigitsValue(first + second))
  {
    hide IntOf, Ungrouped, Strip, DigitsValue, IsGrouped;
    GroupedShape(first, second);
    UnderscoreDropped(first, second);
    IntOfGroups(first + ("_" + second), first + second);
  }

  lemma GroupedShape(first: string, second: string)
    requires IsNumeric(first) && IsNumeric(second)
    ensures var text := first + ("_" + second);
            IsDigit(text[0]) && Strip(text) == text && IsGrouped(text)
  {
    var text := first + ("_" + second);
    assert first[0] in first && second[|second| - 1] in second;
    assert forall i | 0 <= i < |first| :: first[i] in first;
    assert forall i | 0 <= i < |second| :: second[i] in second;
  }

  lemma IntOfGroups(text: string, digits: string)
    requires text != "" && IsDigit(text[0]) && Strip(text) == text
    requires IsGrouped(text) && AllDigits(digits) && Ungrouped(text) == digits
    ensures IntOf(text) == Some(DigitsValue(digits))
  {
    hide Ungrouped, Strip, DigitsValue;
  }

  lemma {:induction false} UnderscoreDropped(first: string, second: string)
    requires AllDigits(first) && AllDigits(second)
    ensures forall c | c in first + ("_" + second) :: IsDigit(c) || c == '_'
    ensures Ungrouped(first + ("_" + second)) == first + second
  {
    var text := first + ("_" + second);
    if first == "" {
      assert text[1..] == second && first + second == second;
      NothingGrouped(second);
    } else {
      assert first[0] in first && text[1..] == first[1..] + ("_" + second);
      UnderscoreDropped(first[1..], second);
    }
  }

  /** Blanks around a number are skipped. */
  lemma BlanksSkipped(c: char, text: string)
    requires IsBlank(c)
    ensures IntOf([c] + text) == IntOf(text) && IntOf(text + [c]) == IntOf(text)
  {
    StripStart(c, text);
    StripEnd(c, text);
    OnlyStripped([c] + text, text);
    OnlyStripped(text + [c], text);
  }

  lemma OnlyStripped(a: string, b: string)
    requires Strip(a) == Strip(b)
    ensures IntOf(a) == IntOf(b)
  {
    hide Strip, IsGrouped, DigitsValue, Ungrouped;
  }

  lemma StripStart(c: char, text: string)
    requires IsBlank(c)
    ensures Strip([c] + text) == Strip(text)
  {
    assert ([c] + text)[1..] == text;
  }

  lemma {:induction false} StripEnd(c: char, text: string)
    requires IsBlank(c)
    ensures Strip(text + [c]) == Strip(text)
  {
    var longer := text + [c];
    assert longer[..|text|] == text;
    if text == "" {
      assert longer[1..] == "";
    } else if IsBlank(text[0]) {
      assert longer[1..] == text[1..] + [c];
      StripEnd(c, text[1..]);
    }
  }

  /** int() skips the six layout characters of ASCII. */
  lemma BlanksExactly(c: char)
    ensures IsBlank(c) <==> c in {' ', '\t', '\n', '\r', '\U{0B}', '\U{0C}'}
  {
  }

  /** int() refuses everything without a digit, and every other character. */
  lemma RefusedInts(text: string)
    requires IntOf(text).Some?
    ensures exists c :: c in text && IsDigit(c)
    ensures forall c | c in text :: IsDigit(c) || IsBlank(c) || c == '_' || c == '+' || c == '-'
  {
    hide IntOf, Strip;
    StripKeeps(text);
    var body := Strip(text);
    var sign := IntBody(text);
    assert body[sign..][0] in body;
    assert body == body[..sign] + body[sign..];
  }

  /** After stripping, int() reads at most one sign and then digits. */
  lemma IntBody(text: string) returns (sign: nat)
    requires IntOf(text).Some?
    ensures var body := Strip(text);
            sign <= 1 && sign <= |body| && IsGrouped(body[sign..]) && (sign == 1 ==> body[0] == '+' || body[0] == '-')
  {
    hide Strip, DigitsValue, Ungrouped, IsGrouped;
    var body := Strip(text);
    sign := if body != "" && (body[0] == '+' || body[0] == '-') then 1 else 0;
    assert sign == 0 ==> body[sign..] == body;
  }

  /** It refuses two underscores in a row. */
  lemma RefusedUnderscores(text: string, i: nat)
    requires IntOf(text).Some? && 0 < i < |text|
    ensures text[i - 1] != '_' || text[i] != '_'
  {
    hide IntOf, Strip, IsGrouped;
    var start := StripStarts(text);
    var sign := IntBody(text);
    var body := Strip(text);
    if start < i < start + |body| {
      assert body[i - start] == text[i] && body[i - 1 - start] == text[i - 1];
      if i - start > sign {
        GroupedAt(body[sign..], i - start - sign);
      }
    }
  }

  lemma GroupedAt(digits: string, i: nat)
    requires IsGrouped(digits) && 0 < i < |digits|
    ensures digits[i - 1] != '_' || digits[i] != '_'
  {
  }

  /** Where the stripped text starts: what stands before and after it is blank. */
  lemma {:induction false} StripStarts(text: string) returns (start: nat)
    ensures StandsAt(Strip(text), text, start)
    decreases |text|
  {
    start := 0;
    if text != "" {
      var last := |text| - 1;
      hide StandsAt;
      if IsBlank(text[0]) {
        var rest := StripStarts(text[1..]);
        start := rest + 1;
        StandsLater(Strip(text), text, rest);
      } else if IsBlank(text[last]) {
        start := StripStarts(text[..last]);
        StandsEarlier(Strip(text), text, start);
      } else {
        StandsAlone(text);
      }
    }
  }

  /** The part starts here, and everything around it is blank. */
  predicate StandsAt(part: string, text: string, start: nat) {
    && start + |part| <= |text| && text[start..start + |part|] == part
    && forall i | 0 <= i < |text| && (i < start || start + |part| <= i) :: IsBlank(text[i])
  }

  lemma StandsAlone(text: string)
    ensures StandsAt(text, text, 0)
  {
  }

  lemma StandsLater(part: string, text: string, start: nat)
    requires text != "" && IsBlank(text[0]) && StandsAt(part, text[1..], start)
    ensures StandsAt(part, text, start + 1)
  {
    assert text[1..][start..start + |part|] == text[start + 1..start + 1 + |part|];
    assert forall i | 1 <= i < |text| :: text[i] == text[1..][i - 1];
  }

  lemma StandsEarlier(part: string, text: string, start: nat)
    requires text != "" && IsBlank(text[|text| - 1]) && StandsAt(part, text[..|text| - 1], start)
    ensures StandsAt(part, text, start)
  {
    var last := |text| - 1;
    assert text[..last][start..start + |part|] == text[start..start + |part|];
    assert forall i | 0 <= i < last :: text[i] == text[..last][i];
  }

  lemma {:induction false} StripKeeps(text: string)
    ensures forall c | c in Strip(text) :: c in text
    ensures forall c | c in text :: c in Strip(text) || IsBlank(c)
    decreases |text|
  {
    if text != "" {
      var last := |text| - 1;
      assert text == [text[0]] + text[1..] && text == text[..last] + [text[last]];
      StripKeeps(text[1..]);
      StripKeeps(text[..last]);
    }
  }

  /** [int(i) for i in parts], or nothing where int() raises. */
  function Ints(parts: seq<string>): (r: Option<seq<int>>)
    ensures r.Some? ==> |r.value| == |parts|
    ensures r.Some? <==> forall i | 0 <= i < |parts| :: IntOf(parts[i]).Some?
  {
    if parts == [] then Some([])
    else if IntOf(parts[0]).None? then None
    else
      var rest := Ints(parts[1..]);
      if rest.None? then
        assert exists i | 0 <= i < |parts[1..]| :: IntOf(parts[1..][i]).None?;
        None
      else Some([IntOf(parts[0]).value] + rest.value)
  }

  /** The leading numeric components of a version. */
  function Components(version: string): seq<int> {
    var parts := SplitDots(version);
    var n := LeadingNumeric(parts);
    NumericInts(parts[..n]);
    Ints(parts[..n]).value
  }

  lemma NumericInts(parts: seq<string>)
    requires forall i | 0 <= i < |parts| :: IsNumeric(parts[i])
    ensures Ints(parts).Some?
  {
    hide IntOf;
    forall i | 0 <= i < |parts| ensures IntOf(parts[i]).Some? {
      NumericIsInt(parts[i]);
    }
  }

  /** How many parts come before the first that int() refuses. */
  function LeadingInts(parts: seq<string>): (n: nat)
    ensures n <= |parts|
  {
    if parts == [] || IntOf(parts[0]).None? then 0 else 1 + LeadingInts(parts[1..])
  }

  lemma {:induction false} LeadingIntsRead(parts: seq<string>)
    ensures var n := LeadingInts(parts);
            Ints(parts[..n]).Some? && (n < |parts| ==> IntOf(parts[n]).None?)
  {
    hide IntOf;
    if parts != [] && IntOf(parts[0]).Some? {
      var n := LeadingInts(parts[1..]);
      LeadingIntsRead(parts[1..]);
      assert parts[..n + 1][1..] == parts[1..][..n];
    }
  }

  /** The leading components of a version that int() reads, at least the numeric ones. */
  function IntComponents(version: string): seq<int> {
    var parts := SplitDots(version);
    LeadingIntsRead(parts);
    Ints(parts[..LeadingInts(parts)]).value
  }

  function JoinDots(parts: seq<string>): string
    requires parts != []
  {
    if |parts| == 1 then parts[0] else parts[0] + ("." + JoinDots(parts[1..]))
  }

  /** The parts hold no dot, and joined with dots they are the text again. */
  lemma {:induction false} SplitDotsExactly(s: string)
    ensures JoinDots(SplitDots(s)) == s
    ensures forall part | part in SplitDots(s) :: '.' !in part
  {
    assert JoinDots([""]) == "";
    hide JoinDots;
    if s != "" {
      var rest := SplitDots(s[1..]);
      SplitDotsExactly(s[1..]);
      assert s == [s[0]] + s[1..];
      if s[0] == '.' {
        JoinFirst("", rest);
      } else {
        JoinLonger(s[0], rest);
      }
    }
  }

  lemma JoinFirst(first: string, rest: seq<string>)
    requires rest != []
    ensures JoinDots([first] + rest) == first + ("." + JoinDots(rest))
  {
    assert ([first] + rest)[1..] == rest;
  }

  lemma JoinLonger(c: char, parts: seq<string>)
    requires parts != []
    ensures JoinDots([[c] + parts[0]] + parts[1..]) == [c] + JoinDots(parts)
  {
    assert ([[c] + parts[0]] + parts[1..])[1..] == parts[1..];
  }

  predicate IsOperator(c: char) {
    c == '<' || c == '>' || c == '='
  }

  /** Removes every operator character, wherever it stands. */
  function StripOperators(s: string): string {
    if s == "" then ""
    else if IsOperator(s[0]) then StripOperators(s[1..])
    else [s[0]] + StripOperators(s[1..])
  }

  /** Exactly the operator characters go, wherever they stand. */
  lemma {:induction false} StripOperatorsExactly(a: string, c: char, b: string)
    ensures StripOperators(a + ([c] + b)) == StripOperators(a) + ((if IsOperator(c) then "" else [c]) + StripOperators(b))
  {
    var text := a + ([c] + b);
    if a == "" {
      assert text == [c] + b && text[1..] == b;
    } else {
      assert text[1..] == a[1..] + ([c] + b);
      StripOperatorsExactly(a[1..], c, b);
    }
  }

  function Take<T>(s: seq<T>, n: nat): seq<T> {
    if n <= |s| then s[..n] else s
  }

  // ----- comparing

  /** Python's `a < b` on lists. */
  predicate Less(a: seq<int>, b: seq<int>) {
    if b == [] then false
    else if a == [] then true
    else if a[0] != b[0] then a[0] < b[0]
    else Less(a[1..], b[1..])
  }

  datatype Operator = Equal | AtLeast | AtMost | Greater | Smaller

  /** The operator a requirement starts with; none means equality. */
  function OperatorOf(requirement: string): Operator {
    if "==" <= requirement then Equal
    else if ">=" <= requirement then AtLeast
    else if "<=" <= requirement then AtMost
    else if "=" <= requirement then Equal
    else if ">" <= requirement then Greater
    else if "<" <= requirement then Smaller
    else Equal
  }

  predicate Compare(operator: Operator, server: seq<int>, spec: seq<int>) {
    match operator
    case Equal => server == spec
    case AtLeast => !Less(server, spec)
    case AtMost => !Less(spec, server)
    case Greater => Less(spec, server)
    case Smaller => Less(server, spec)
  }

  datatype Outcome = Holds(value: bool) | ValueError

  /** The specification of the check, given the server version if it is known. */
  function Check(requirement: string, server: Option<string>): Outcome {
    if server.None? then Holds(false)
    else
      var parts := SplitDots(server.value);
      var n := LeadingNumeric(parts);
      var spec := Ints(Take(SplitDots(StripOperators(requirement)), n));
      if n == 0 || spec.None? then ValueError
      else Holds(Compare(OperatorOf(requirement), Components(server.value), spec.value))
  }

  /** The check as the source computes it: the loop leaves `index` at the first part that is not
      numeric, or one past the end. */
  method CheckVersion(requirement: string, server: Option<string>) returns (r: Outcome)
    ensures r == Check(requirement, server)
  {
    if server.None? {
      return Holds(false);
    }
    var versionList := SplitDots(StripOperators(requirement));
    var serverList := SplitDots(server.value);
    var index := 0;
    for k := 0 to |serverList|
      invariant index == if k == |serverList| then k else if k == 0 then 0 else k - 1
      invariant forall i | 0 <= i < k :: IsNumeric(serverList[i])
    {
      index := k;
      if !IsNumeric(serverList[k]) {
        break;
      } else if index == |serverList| - 1 {
        index := index + 1;
      }
    }
    LeadingNumericIs(serverList, index);
    if index == 0 {
      return ValueError;
    }
    NumericInts(serverList[..index]);
    var spec := Ints(Take(versionList, index));
    if spec.None? {
      return ValueError;
    }
    r := Holds(Compare(OperatorOf(requirement), Ints(serverList[..index]).value, spec.value));
  }

  lemma {:induction false} LeadingNumericIs(parts: seq<string>, n: nat)
    requires n <= |parts| && forall i | 0 <= i < n :: IsNumeric(parts[i])
    requires n < |parts| ==> !IsNumeric(parts[n])
    ensures LeadingNumeric(parts) == n
  {
    if n > 0 {
      LeadingNumericIs(parts[1..], n - 1);
    }
  }

  // ----- order laws

  lemma {:induction false} LessTrichotomy(a: seq<int>, b: seq<int>)
    ensures Less(a, b) ==> a != b && !Less(b, a)
    ensures a != b ==> Less(a, b) || Less(b, a)
  {
    if a != [] && b != [] && a[0] == b[0] {
      LessTrichotomy(a[1..], b[1..]);
      assert a == [a[0]] + a[1..] && b == [b[0]] + b[1..];
    }
  }

  /** The lists agree up to `i`, where the first ends or has the smaller number. */
  ghost predicate SmallerAt(a: seq<int>, b: seq<int>, i: nat) {
    i <= |a| && i < |b| && a[..i] == b[..i] && (i == |a| || a[i] < b[i])
  }

  /** Lexicographic order without recursion. */
  ghost predicate Before(a: seq<int>, b: seq<int>) {
    exists i: nat :: SmallerAt(a, b, i)
  }

  /** List comparison is lexicographic order: the first difference decides. */
  lemma {:induction false} LessExactly(a: seq<int>, b: seq<int>)
    ensures Less(a, b) <==> Before(a, b)
  {
    if b == [] || a == [] || a[0] != b[0] {
      if Less(a, b) {
        assert SmallerAt(a, b, 0);
      }
      if Before(a, b) {
        var i: nat :| SmallerAt(a, b, i);
        HeadAgrees(a, b, i);
      }
    } else {
      LessExactly(a[1..], b[1..]);
      if Before(a, b) {
        var i: nat :| SmallerAt(a, b, i);
        TailSmaller(a, b, i);
      }
      if Before(a[1..], b[1..]) {
        var i: nat :| SmallerAt(a[1..], b[1..], i);
        HeadEqual(a, b, i);
      }
    }
  }

  lemma HeadAgrees(a: seq<int>, b: seq<int>, i: nat)
    requires SmallerAt(a, b, i)
    ensures i > 0 ==> a != [] && b != [] && a[0] == b[0]
  {
    if i > 0 {
      assert a[0] == a[..i][0] && b[0] == b[..i][0];
    }
  }

  lemma TailSmaller(a: seq<int>, b: seq<int>, i: nat)
    requires a != [] && b != [] && a[0] == b[0] && SmallerAt(a, b, i)
    ensures i > 0 && SmallerAt(a[1..], b[1..], i - 1)
  {
    assert i > 0;
    assert a[1..][..i - 1] == a[..i][1..] && b[1..][..i - 1] == b[..i][1..];
  }

  lemma HeadEqual(a: seq<int>, b: seq<int>, i: nat)
    requires a != [] && b != [] && a[0] == b[0] && SmallerAt(a[1..], b[1..], i)
    ensures SmallerAt(a, b, i + 1)
  {
    assert a[..i + 1] == [a[0]] + a[1..][..i] && b[..i + 1] == [b[0]] + b[1..][..i];
  }

  /** After a common beginning the first differing component decides, whatever follows it. */
  lemma {:induction false} FirstDifferenceDecides(p: seq<int>, x: int, s: seq<int>, y: int, t: seq<int>)
    requires x != y
    ensures Less(p + ([x] + s), p + ([y] + t)) <==> x < y
  {
    var a, b := p + ([x] + s), p + ([y] + t);
    if p == [] {
      assert a[0] == x && b[0] == y;
    } else {
      assert a[0] == b[0] && a[1..] == p[1..] + ([x] + s) && b[1..] == p[1..] + ([y] + t);
      FirstDifferenceDecides(p[1..], x, s, y, t);
    }
  }

  lemma {:induction false} LessTransitive(a: seq<int>, b: seq<int>, c: seq<int>)
    requires Less(a, b) && Less(b, c)
    ensures Less(a, c)
  {
    if a != [] && a[0] == b[0] && b[0] == c[0] {
      LessTransitive(a[1..], b[1..], c[1..]);
    }
  }

  predicate Opposite(a: Outcome, b: Outcome) {
    (a.ValueError? && b.ValueError?) || (a.Holds? && b.Holds? && a.value != b.value)
  }

  lemma StripPrefix(operator: string, x: string)
    requires operator in {"<", ">", "=", "==", "<=", ">="}
    ensures StripOperators(operator + x) == StripOperators(x)
  {
    assert (operator + x)[1..] == operator[1..] + x;
    if |operator| == 2 {
      assert (operator[1..] + x)[1..] == x;
      assert IsOperator(operator[0]) && IsOperator((operator[1..] + x)[0]);
    } else {
      assert operator[1..] + x == x;
    }
  }

  /** `<x` negates `>=x`, and `>x` negates `<=x`, for every server and every `x` that does not itself
      start with an equals sign, even when `x` is cut to the server's length; they also raise alike. */
  lemma StrictNegatesWeak(x: string, server: string)
    requires x == "" || x[0] != '='
    ensures Opposite(Check("<" + x, Some(server)), Check(">=" + x, Some(server)))
    ensures Opposite(Check(">" + x, Some(server)), Check("<=" + x, Some(server)))
  {
    hide LeadingNumeric, SplitDots, Ints, Less, StripOperators, OperatorOf;
    StripPrefix("<", x);
    StripPrefix(">=", x);
    StripPrefix(">", x);
    StripPrefix("<=", x);
    StrictOperators(x);
    EqualOperators(x);
  }

  /** The excluded case, `x` being `=y`: `<x` is read as `<=y` and `>x` as `>=y`, so both negations fail
      exactly when the server equals `y`. */
  lemma LeadingEqualsSign(y: string, server: string)
    ensures Opposite(Check("<" + ("=" + y), Some(server)), Check(">=" + ("=" + y), Some(server)))
       <==> Check("=" + y, Some(server)) != Holds(true)
    ensures Opposite(Check(">" + ("=" + y), Some(server)), Check("<=" + ("=" + y), Some(server)))
       <==> Check("=" + y, Some(server)) != Holds(true)
  {
    hide LeadingNumeric, SplitDots, Ints, Less, StripOperators, OperatorOf;
    assert "<" + ("=" + y) == "<=" + y && ">" + ("=" + y) == ">=" + y;
    StripPrefix("<=", y);
    StripPrefix("=", y);
    StripPrefix(">=", y);
    StripPrefix(">=", "=" + y);
    StripPrefix("<=", "=" + y);
    EqualOperators(y);
    EqualOperators("=" + y);
    var n := LeadingNumeric(SplitDots(server));
    var spec := Ints(Take(SplitDots(StripOperators(y)), n));
    if spec.Some? {
      LessTrichotomy(Components(server), spec.value);
    }
  }

  /** The exact condition, for every `x` and whether or not the server version is known: an unknown version
      answers no to every requirement, and a known one breaks the negations exactly when `x` starts with
      an equals sign and holds as a requirement of its own. */
  lemma NegationExactly(x: string, server: Option<string>)
    ensures Opposite(Check("<" + x, server), Check(">=" + x, server))
       <==> server.Some? && !(x != "" && x[0] == '=' && Check(x, server) == Holds(true))
    ensures Opposite(Check(">" + x, server), Check("<=" + x, server))
       <==> server.Some? && !(x != "" && x[0] == '=' && Check(x, server) == Holds(true))
  {
    if server.None? {
      assert forall requirement :: Check(requirement, server) == Holds(false);
    } else if x != "" && x[0] == '=' {
      hide Check, Opposite;
      assert x == "=" + x[1..];
      LeadingEqualsSign(x[1..], server.value);
    } else {
      hide Check, Opposite;
      StrictNegatesWeak(x, server.value);
    }
  }

  lemma {:induction false} OnePart(s: string)
    requires '.' !in s
    ensures SplitDots(s) == [s]
  {
    if s != "" {
      OnePart(s[1..]);
      assert s == [s[0]] + s[1..];
    }
  }

  lemma StrictOperators(x: string)
    requires x == "" || x[0] != '='
    ensures OperatorOf("<" + x) == Smaller && OperatorOf(">" + x) == Greater
  {
    var a, b := "<" + x, ">" + x;
    assert a[0] == '<' && b[0] == '>';
    assert x != "" ==> a[1] == x[0] && b[1] == x[0];
    assert "=="[0] == '=' && "="[0] == '=' && ">="[0] == '>' && ">="[1] == '=' && "<="[1] == '=' && "<="[0] == '<';
    assert "<" <= a && ">" <= b;
  }

  lemma EqualOperators(x: string)
    ensures OperatorOf("<=" + x) == AtMost && OperatorOf(">=" + x) == AtLeast && OperatorOf("=" + x) == Equal
  {
    var a, b, c := "<=" + x, ">=" + x, "=" + x;
    assert a[0] == '<' && b[0] == '>' && c[0] == '=';
    assert "=="[0] == '=' && ">="[0] == '>' && "<="[0] == '<';
    assert "<=" <= a && ">=" <= b && "=" <= c;
  }

  // ----- version windows

  /** A list lies between p.k (included) and p.(k+1) (excluded) exactly when it starts with p.k. */
  lemma {:induction false} WindowIsPrefix(c: seq<int>, p: seq<int>, k: int)
    ensures !Less(c, p + [k]) && Less(c, p + [k + 1]) <==> p + [k] <= c
  {
    if p == [] {
      if c != [] {
        assert ([k] <= c) == (c[0] == k);
        LessNothing(c[1..]);
      }
    } else if c != [] {
      assert (p + [k])[1..] == p[1..] + [k] && (p + [k + 1])[1..] == p[1..] + [k + 1];
      if c[0] == p[0] {
        WindowIsPrefix(c[1..], p[1..], k);
        PrefixTail(p + [k], c);
      }
    }
  }

  lemma LessNothing(c: seq<int>)
    ensures !Less(c, []) && (c != [] ==> Less([], c))
  {
  }

  lemma PrefixTail(a: seq<int>, b: seq<int>)
    requires a != [] && b != [] && a[0] == b[0]
    ensures a <= b <==> a[1..] <= b[1..]
  {
    if a[1..] <= b[1..] {
      assert a == [a[0]] + a[1..] && b == [b[0]] + b[1..];
    }
  }

  /** The components a requirement spells out, if int() reads all its parts. */
  function SpecComponents(requirement: string): Option<seq<int>> {
    Ints(SplitDots(StripOperators(requirement)))
  }

  lemma {:induction false} IntsOfPrefix(parts: seq<string>, n: nat)
    requires Ints(parts).Some? && n <= |parts|
    ensures Ints(parts[..n]) == Some(Ints(parts).value[..n])
  {
    if n > 0 {
      IntsOfPrefix(parts[1..], n - 1);
      assert parts[..n][1..] == parts[1..][..n - 1];
      assert Ints(parts).value[1..] == Ints(parts[1..]).value;
      assert Ints(parts).value[..n] == [IntOf(parts[0]).value] + Ints(parts[1..]).value[..n - 1];
    } else {
      assert parts[..0] == [];
    }
  }

  lemma ComponentsLength(server: string)
    ensures |Components(server)| == LeadingNumeric(SplitDots(server))
    ensures Ints(SplitDots(server)[..|Components(server)|]) == Some(Components(server))
  {
    hide IntOf, LeadingNumeric, SplitDots;
    var parts := SplitDots(server);
    NumericInts(parts[..LeadingNumeric(parts)]);
  }

  /** A requirement whose parts int() reads never raises for a server with a numeric first part, and compares
      its components, cut to the number the server has. */
  lemma CheckNumeric(requirement: string, server: string)
    requires SpecComponents(requirement).Some? && Components(server) != []
    ensures var c := Components(server);
            var spec := Take(SpecComponents(requirement).value, |c|);
            Check(requirement, Some(server)) == Holds(Compare(OperatorOf(requirement), c, spec))
  {
    hide LeadingNumeric, OperatorOf, Compare, Ints;
    var parts := SplitDots(StripOperators(requirement));
    var n := |Components(server)|;
    ComponentsLength(server);
    if n <= |parts| {
      IntsOfPrefix(parts, n);
    }
  }

  /** Without a numeric first component every requirement raises. */
  lemma UnusableServer(requirement: string, server: string)
    requires Components(server) == []
    ensures Check(requirement, Some(server)) == ValueError
  {
    hide LeadingNumeric, OperatorOf, Compare, Ints, Components;
    ComponentsLength(server);
  }

  /** `>=lo` together with `<hi`, where lo is p.k and hi is p.(k+1): true exactly for servers whose
      components start with p.k. In particular a server with fewer components is never inside. */
  lemma VersionWindow(lo: string, hi: string, server: string, p: seq<int>, k: int)
    requires hi == "" || hi[0] != '='
    requires SpecComponents(lo) == Some(p + [k]) && SpecComponents(hi) == Some(p + [k + 1])
    ensures Check(">=" + lo, Some(server)) == Holds(true) && Check("<" + hi, Some(server)) == Holds(true)
       <==> p + [k] <= Components(server)
  {
    hide LeadingNumeric, OperatorOf, StripOperators, Components, Check, Ints, SplitDots, Less;
    var c := Components(server);
    if c == [] {
      UnusableServer(">=" + lo, server);
      return;
    }
    StripPrefix(">=", lo);
    StripPrefix("<", hi);
    EqualOperators(lo);
    StrictOperators(hi);
    CheckNumeric(">=" + lo, server);
    CheckNumeric("<" + hi, server);
    if |c| < |p| + 1 {
      assert Take(p + [k], |c|) == Take(p + [k + 1], |c|);
    } else {
      assert Take(p + [k], |c|) == p + [k] && Take(p + [k + 1], |c|) == p + [k + 1];
      WindowIsPrefix(c, p, k);
    }
  }

  /** Splitting takes off the first part. */
  lemma {:induction false} SplitFirst(first: string, rest: string)
    requires '.' !in first
    ensures SplitDots(first + ("." + rest)) == [first] + SplitDots(rest)
  {
    var text := first + ("." + rest);
    if first == "" {
      assert text[1..] == rest;
    } else {
      assert text[1..] == first[1..] + ("." + rest);
      SplitFirst(first[1..], rest);
      assert first == [first[0]] + first[1..];
    }
  }

  // ----- whole versions

  function Texts(components: seq<nat>): (r: seq<string>)
    ensures |r| == |components|
  {
    seq(|components|, i requires 0 <= i < |components| => NatText(components[i]))
  }

  /** The components printed with dots between them. */
  function Dotted(components: seq<nat>): string
    requires components != []
  {
    if |components| == 1 then NatText(components[0])
    else NatText(components[0]) + ("." + Dotted(components[1..]))
  }

  lemma {:induction false} SplitDotted(p: seq<nat>)
    requires p != []
    ensures SplitDots(Dotted(p)) == Texts(p)
  {
    assert '.' !in NatText(p[0]);
    hide NatText, SplitDots;
    if |p| == 1 {
      OnePart(NatText(p[0]));
    } else {
      SplitFirst(NatText(p[0]), Dotted(p[1..]));
      SplitDotted(p[1..]);
    }
  }

  lemma {:induction false} DottedCharacters(p: seq<nat>)
    requires p != []
    ensures Dotted(p) != "" && IsDigit(Dotted(p)[0])
    ensures forall c | c in Dotted(p) :: !IsOperator(c)
  {
    hide NatText;
    assert NatText(p[0])[0] in NatText(p[0]);
    if |p| > 1 {
      DottedCharacters(p[1..]);
    }
  }

  lemma {:induction false} IntsOfTexts(p: seq<nat>)
    ensures Ints(Texts(p)) == Some(p)
  {
    hide NatText, IntOf, DigitsValue;
    if p != [] {
      NatTextReadsBack(p[0]);
      NumericIsInt(NatText(p[0]));
      IntsOfTexts(p[1..]);
      assert Texts(p)[1..] == Texts(p[1..]);
      assert p == [p[0]] + p[1..];
    }
  }

  lemma DottedComponents(p: seq<nat>)
    requires p != []
    ensures Components(Dotted(p)) == p && SpecComponents(Dotted(p)) == Some(p)
  {
    hide NatText, SplitDots, IntOf, Ints, StripOperators;
    SplitDotted(p);
    IntsOfTexts(p);
    LeadingNumericIs(Texts(p), |p|);
    assert Texts(p)[..|p|] == Texts(p);
    DottedCharacters(p);
    StripNothing(Dotted(p));
  }

  /** What a requirement is compared with: its components cut to the number the server has. */
  function CutTo(server: seq<nat>, p: seq<nat>): (cut: seq<int>)
    ensures |cut| == if |p| < |server| then |p| else |server|
    ensures forall i | 0 <= i < |cut| :: cut[i] == p[i]
  {
    Take(p, |server|)
  }

  /** `>=` and `<=` with printed versions, in lexicographic order. */
  lemma PrintedWeak(p: seq<nat>, server: seq<nat>)
    requires p != [] && server != []
    ensures Check(">=" + Dotted(p), Some(Dotted(server))) == Holds(!Before(server, CutTo(server, p)))
    ensures Check("<=" + Dotted(p), Some(Dotted(server))) == Holds(!Before(CutTo(server, p), server))
  {
    hide *;
    var x := Dotted(p);
    EqualOperators(x);
    StripPrefix(">=", x);
    StripPrefix("<=", x);
    CheckDotted(">=" + x, p, server);
    CheckDotted("<=" + x, p, server);
  }

  /** `>` and `<` with printed versions, in lexicographic order. */
  lemma PrintedStrict(p: seq<nat>, server: seq<nat>)
    requires p != [] && server != []
    ensures Check(">" + Dotted(p), Some(Dotted(server))) == Holds(Before(CutTo(server, p), server))
    ensures Check("<" + Dotted(p), Some(Dotted(server))) == Holds(Before(server, CutTo(server, p)))
  {
    assert !IsDigit('=');
    hide *;
    var x := Dotted(p);
    DottedCharacters(p);
    StrictOperators(x);
    StripPrefix(">", x);
    StripPrefix("<", x);
    CheckDotted(">" + x, p, server);
    CheckDotted("<" + x, p, server);
  }

  /** One equals sign, two of them and none all mean equality. */
  lemma PrintedEqual(p: seq<nat>, server: seq<nat>)
    requires p != [] && server != []
    ensures var x, known, same := Dotted(p), Some(Dotted(server)), Holds(server == CutTo(server, p));
            Check("=" + x, known) == same && Check("==" + x, known) == same && Check(x, known) == same
  {
    hide *;
    var x := Dotted(p);
    DottedCharacters(p);
    EqualOperators(x);
    EqualOperators("=" + x);
    assert "=" + ("=" + x) == "==" + x;
    NoOperator(x);
    StripPrefix("=", x);
    StripPrefix("==", x);
    CheckDotted("=" + x, p, server);
    CheckDotted("==" + x, p, server);
    CheckDotted(x, p, server);
  }

  lemma NoOperator(x: string)
    requires x != "" && !IsOperator(x[0])
    ensures OperatorOf(x) == Equal
  {
    assert ">="[0] == '>' && "<="[0] == '<' && ">"[0] == '>' && "<"[0] == '<';
  }

  /** Does int() refuse one of the first `n` parts? */
  predicate RefusesOne(parts: seq<string>, n: nat) {
    exists i | 0 <= i < n && i < |parts| :: IntOf(parts[i]).None?
  }

  /** A known server makes a requirement raise exactly when it has no numeric component or int() refuses a
      part of the requirement that is compared with one. */
  lemma RaisesExactly(requirement: string, server: string)
    ensures Check(requirement, Some(server)) == ValueError <==>
              Components(server) == [] || RefusesOne(SplitDots(StripOperators(requirement)), |Components(server)|)
  {
    hide IntOf, Components, SplitDots, StripOperators, OperatorOf, Compare, LeadingNumeric, Ints, RefusesOne;
    ComponentsLength(server);
    IntsRefused(SplitDots(StripOperators(requirement)), |Components(server)|);
  }

  lemma IntsRefused(parts: seq<string>, n: nat)
    ensures Ints(Take(parts, n)).None? <==> RefusesOne(parts, n)
  {
    hide IntOf, Ints;
    var taken := Take(parts, n);
    assert |taken| == (if n <= |parts| then n else |parts|) && forall i | 0 <= i < |taken| :: taken[i] == parts[i];
    if RefusesOne(parts, n) {
      var i :| 0 <= i < n && i < |parts| && IntOf(parts[i]).None?;
      assert IntOf(taken[i]).None?;
    }
  }

  lemma CheckDotted(requirement: string, p: seq<nat>, server: seq<nat>)
    requires p != [] && server != [] && StripOperators(requirement) == StripOperators(Dotted(p))
    ensures var a: seq<int> := server;
            var b := CutTo(server, p);
            Check(requirement, Some(Dotted(server)))
            == Holds(match OperatorOf(requirement)
                     case Equal => a == b
                     case AtLeast => !Before(a, b)
                     case AtMost => !Before(b, a)
                     case Greater => Before(b, a)
                     case Smaller => Before(a, b))
  {
    hide Components, Check, Less, OperatorOf, StripOperators, SplitDots, Ints, Dotted, Before;
    DottedComponents(p);
    DottedComponents(server);
    CheckNumeric(requirement, Dotted(server));
    LessExactly(server, CutTo(server, p));
    LessExactly(CutTo(server, p), server);
  }

  /** Any single number fails both negations on itself. */
  lemma NumberBreaksNegation(n: nat)
    ensures var y := Dotted([n]);
            !Opposite(Check("<" + ("=" + y), Some(y)), Check(">=" + ("=" + y), Some(y)))
            && !Opposite(Check(">" + ("=" + y), Some(y)), Check("<=" + ("=" + y), Some(y)))
  {
    hide *;
    PrintedEqual([n], [n]);
    assert CutTo([n], [n]) == [n];
    LeadingEqualsSign(Dotted([n]), Dotted([n]));
  }

  /** A failing input: for server 22 and x being `=22` both `<x` and `>=x` hold, and so do `>x` and `<=x`. */
  lemma LeadingEqualsSignWitness()
    ensures var x := "=" + "22";
            !Opposite(Check("<" + x, Some("22")), Check(">=" + x, Some("22")))
            && !Opposite(Check(">" + x, Some("22")), Check("<=" + x, Some("22")))
  {
    assert NatText(2) == "2" && Dotted([22]) == "22";
    hide *;
    NumberBreaksNegation(22);
  }

  /** Two components: the major number decides, and on a tie the minor one. */
  lemma MajorThenMinor(a: nat, b: nat, c: nat, d: nat)
    ensures Check(">=" + Dotted([a, b]), Some(Dotted([c, d]))) == Holds(c > a || (c == a && d >= b))
  {
    hide Check, Dotted, Before;
    PrintedWeak([a, b], [c, d]);
    assert CutTo([c, d], [a, b]) == [a, b];
    LessExactly([c, d], [a, b]);
    LessPairs(c, d, a, b);
  }

  lemma LessPairs(c: int, d: int, a: int, b: int)
    ensures Less([c, d], [a, b]) <==> c < a || (c == a && d < b)
  {
    assert [c, d][1..] == [d] && [a, b][1..] == [b];
    assert [d][1..] == [] && [b][1..] == [];
    assert Less([d], [b]) <==> d < b;
  }

  /** The window for printed versions: `>=p.k` with `<p.(k+1)` means that the server starts with p.k. */
  lemma PrintedWindow(p: seq<nat>, k: nat, server: string)
    ensures var lo, hi := Dotted(p + [k]), Dotted(p + [k + 1]);
            (Check(">=" + lo, Some(server)) == Holds(true) && Check("<" + hi, Some(server)) == Holds(true)
             <==> p + [k] <= Components(server))
  {
    assert !IsDigit('=');
    hide *;
    DottedComponents(p + [k]);
    DottedComponents(p + [k + 1]);
    DottedCharacters(p + [k + 1]);
    VersionWindow(Dotted(p + [k]), Dotted(p + [k + 1]), server, p, k);
  }

  // ----- the image tag

  /** Python's image.rsplit(":", 1)[-1] */
  function AfterLastColon(image: string): string {
    if ':' !in image then image
    else if image[|image| - 1] == ':' then ""
    else AfterLastColon(image[..|image| - 1]) + [image[|image| - 1]]
  }

  predicate IsVersionChar(c: char) {
    c == '.' || IsDigit(c)
  }

  function VersionPrefix(tag: string): (v: string)
    ensures forall c | c in v :: IsVersionChar(c)
  {
    if tag == "" || !IsVersionChar(tag[0]) then "" else [tag[0]] + VersionPrefix(tag[1..])
  }

  /** The server version an image name announces, if its tag starts with a usable one. */
  function ScanImage(image: string): Option<string> {
    var v := VersionPrefix(AfterLastColon(image));
    if v == "" || v[0] == '.' || v[|v| - 1] == '.' then None else Some(v)
  }

  /** The scanned version is the longest run of digits and dots after the last colon, unless that is empty
      or starts or ends with a dot. */
  lemma ScanExactly(image: string, before: string, tag: string)
    requires ':' !in tag && (image == tag || image == before + (":" + tag))
    ensures var v := VersionPrefix(tag);
            v <= tag && (forall c | c in v :: c == '.' || IsDigit(c))
            && (|v| < |tag| ==> tag[|v|] != '.' && !IsDigit(tag[|v|]))
            && ScanImage(image) == if v == "" || v[0] == '.' || v[|v| - 1] == '.' then None else Some(v)
  {
    hide VersionPrefix;
    LongestVersion(tag);
    if image == tag {
      assert AfterLastColon(image) == tag;
    } else {
      TagAfterColon(before, tag);
    }
  }

  lemma {:induction false} LongestVersion(tag: string)
    ensures var v := VersionPrefix(tag);
            v <= tag && (|v| < |tag| ==> !IsVersionChar(tag[|v|]))
  {
    if tag != "" && IsVersionChar(tag[0]) {
      LongestVersion(tag[1..]);
      assert tag == [tag[0]] + tag[1..];
    }
  }

  lemma {:induction false} TagAfterColon(before: string, tag: string)
    requires ':' !in tag
    ensures AfterLastColon(before + (":" + tag)) == tag
    decreases |tag|
  {
    var image := before + (":" + tag);
    assert image[|before|] == ':';
    if tag != "" {
      var last := |tag| - 1;
      assert tag[last] in tag && image[|image| - 1] == tag[last];
      assert image[..|image| - 1] == before + (":" + tag[..last]);
      TagAfterColon(before, tag[..last]);
      assert tag == tag[..last] + [tag[last]];
    }
  }

  lemma {:induction false} FirstPart(s: string)
    ensures SplitDots(s)[0] <= s && '.' !in SplitDots(s)[0]
    ensures s != "" && s[0] != '.' ==> SplitDots(s)[0] != ""
  {
    if s != "" {
      FirstPart(s[1..]);
      assert s == [s[0]] + s[1..];
    }
  }

  /** A scanned version always has a numeric first component, so every numeric requirement can be
      checked against it without raising. */
  lemma ScannedVersionIsUsable(image: string, requirement: string)
    requires ScanImage(image).Some? && SpecComponents(requirement).Some?
    ensures Components(ScanImage(image).value) != []
    ensures Check(requirement, ScanImage(image)).Holds?
  {
    hide Check, OperatorOf, Compare, SpecComponents;
    var v := ScanImage(image).value;
    var first := SplitDots(v)[0];
    FirstPart(v);
    assert AllDigits(first) by {
      forall c | c in first ensures IsDigit(c) {
        assert c in v;
      }
    }
    ComponentsLength(v);
    CheckNumeric(requirement, v);
  }

  /** The start-up check of a node against a known version: it holds exactly when the known version has
      numeric components and the components int() reads from the node's answer start with them; it raises
      exactly when the known version has none or int() refuses one of the node's parts that are compared.
      Operator characters in the answer are skipped. */
  lemma StartupCheck(node: string, known: string)
    ensures var c := Components(known);
            var spec := StripOperators(node);
            var outcome := Check("=" + node, Some(known));
            (outcome == Holds(true) <==> c != [] && c <= IntComponents(spec))
            && (outcome == ValueError <==>
                  c == [] || (LeadingInts(SplitDots(spec)) < |c| && LeadingInts(SplitDots(spec)) < |SplitDots(spec)|))
  {
    hide OperatorOf, StripOperators, SplitDots, Less, LeadingNumeric, LeadingInts, Ints, IntOf;
    StripPrefix("=", node);
    EqualOperators(node);
    ComponentsLength(known);
    if Components(known) != [] {
      StartupParts(node, known);
    }
  }

  /** What isnumeric() accepts int() reads, so the numeric components come first among those int() reads. */
  lemma NumericComponentsFirst(version: string)
    ensures Components(version) <= IntComponents(version)
  {
    hide IntOf, Ints, LeadingNumeric, LeadingInts, SplitDots;
    var parts := SplitDots(version);
    var n, m := LeadingNumeric(parts), LeadingInts(parts);
    NumericInts(parts[..n]);
    LeadingIntsRead(parts);
    forall i | 0 <= i < n ensures IntOf(parts[i]).Some? {
      NumericIsInt(parts[i]);
    }
    IntsOfPrefix(parts[..m], n);
    assert parts[..m][..n] == parts[..n];
  }

  lemma {:induction false} StripNothing(s: string)
    requires forall c | c in s :: !IsOperator(c)
    ensures StripOperators(s) == s
  {
    if s != "" { StripNothing(s[1..]); }
  }

  lemma StartupParts(node: string, known: string)
    requires Components(known) != []
    requires StripOperators("=" + node) == StripOperators(node) && OperatorOf("=" + node) == Equal
    ensures var c := Components(known);
            var parts := SplitDots(StripOperators(node));
            var outcome := Check("=" + node, Some(known));
            (outcome == Holds(true) <==> c <= IntComponents(StripOperators(node)))
            && (outcome == ValueError <==> LeadingInts(parts) < |c| && LeadingInts(parts) < |parts|)
  {
    hide SplitDots, OperatorOf, StripOperators, Ints, LeadingNumeric, LeadingInts, IntOf;
    var parts := SplitDots(StripOperators(node));
    var c := Components(known);
    var m := LeadingInts(parts);
    LeadingIntsRead(parts);
    ComponentsLength(known);
    if |c| <= m {
      IntsOfPrefix(parts[..m], |c|);
      assert parts[..m][..|c|] == parts[..|c|];
    } else if m == |parts| {
      assert parts[..m] == parts;
    } else {
      var taken := Take(parts, |c|);
      assert taken[m] == parts[m];
    }
  }
}
