/** Text helpers shared by every component: optional results, decimal and
    hexadecimal printing with their readers, and comma joining. */
module Text {

  datatype Option<+T> = None | Some(value: T) {
    predicate IsFailure() {
      None?
    }

    function PropagateFailure<U>(): Option<U>
      requires None?
    {
      None
    }

    function Extract(): T
      requires Some?
    {
      value
    }
  }

  type pos = n: nat | 0 < n witness 1

  predicate IsDigit(c: char) {
    '0' <= c <= '9'
  }

  predicate AllDigits(s: string) {
    forall c | c in s :: IsDigit(c)
  }

  function DigitChar(d: nat): (c: char)
    requires d < 10
    ensures IsDigit(c) && c as int - '0' as int == d
  {
    (d + '0' as int) as char
  }

  /** Decimal text of a natural number, no leading zeros. */
  function NatText(n: nat): (s: string)
    ensures s != "" && AllDigits(s)
  {
    if n < 10 then [DigitChar(n)] else NatText(n / 10) + [DigitChar(n % 10)]
  }

  function IntText(n: int): string {
    if n < 0 then "-" + NatText(-n) else NatText(n)
  }

  /** The number a string of decimal digits denotes; the empty string denotes zero. */
  function DigitsValue(s: string): nat
    requires AllDigits(s)
  {
    if s == "" then 0
    else
      var last := |s| - 1;
      assert s[last] in s && forall c | c in s[..last] :: c in s;
      10 * DigitsValue(s[..last]) + (s[last] as int - '0' as int)
  }

  lemma {:induction false} NatTextReadsBack(n: nat)
    ensures DigitsValue(NatText(n)) == n
  {
    if n < 10 {
      assert DigitsValue([]) == 0;
    } else {
      NatTextReadsBack(n / 10);
      assert NatText(n)[..|NatText(n)| - 1] == NatText(n / 10);
    }
  }

  /** `count` copies of one element. */
  function Repeat<T>(x: T, count: nat): (s: seq<T>)
    ensures |s| == count && forall i | 0 <= i < count :: s[i] == x
  {
    seq(count, i => x)
  }

  function CommaJoin(parts: seq<string>): string {
    if |parts| == 0 then ""
    else if |parts| == 1 then parts[0]
    else parts[0] + "," + CommaJoin(parts[1..])
  }

  function Power(base: nat, e: nat): nat {
    if e == 0 then 1 else base * Power(base, e - 1)
  }

  /** Python's `part in text` */
  predicate Contains(text: string, part: string) {
    part <= text || (text != "" && Contains(text[1..], part))
  }

  /** A text contains a part exactly when the part stands somewhere in it. */
  lemma {:induction false} ContainsExactly(text: string, part: string)
    ensures Contains(text, part) <==> exists before, after :: text == before + part + after
  {
    if part <= text {
      assert text == "" + part + text[|part|..];
    } else if text != "" {
      ContainsExactly(text[1..], part);
      if before, after :| text[1..] == before + part + after {
        assert text == [text[0]] + before + part + after;
      }
      if before, after :| text == before + part + after {
        assert before != "" by { assert before == "" ==> text == part + after; }
        assert text[1..] == before[1..] + part + after;
      }
    }
  }

  lemma ContainsItself(text: string)
    ensures Contains(text, text)
  {
  }
}
