/** The UUID literals of helpers/datatypes.py in the text form of RFC 4122, section 3. */
module Uuids {
  import opened Text
  import opened DataTypes

  predicate IsHexDigit(c: char) {
    '0' <= c <= '9' || 'a' <= c <= 'f'
  }

  function HexDigitValue(c: char): nat
    requires IsHexDigit(c)
  {
    if c <= '9' then c as int - '0' as int else c as int - 'a' as int + 10
  }

  predicate IsHex(s: string) {
    forall c | c in s :: IsHexDigit(c)
  }

  function HexValue(s: string): nat
    requires IsHex(s)
  {
    if s == "" then 0
    else
      var last := |s| - 1;
      assert s[last] in s && forall c | c in s[..last] :: c in s;
      16 * HexValue(s[..last]) + HexDigitValue(s[last])
  }

  lemma {:induction false} HexTextReadsBack(n: nat, width: nat)
    requires 0 < width && n < Power(16, width)
    ensures IsHex(HexText(n)) && HexValue(HexText(n)) == n && |HexText(n)| <= width
  {
    if n < 16 {
      assert HexValue([]) == 0;
    } else {
      assert width > 1 by { assert Power(16, 0) == 1; }
      HexTextReadsBack(n / 16, width - 1);
      assert HexText(n)[..|HexText(n)| - 1] == HexText(n / 16);
    }
  }

  lemma {:induction false} LeadingZeros(s: string, zeros: nat)
    requires IsHex(s)
    ensures IsHex(Repeat('0', zeros) + s) && HexValue(Repeat('0', zeros) + s) == HexValue(s)
    decreases |s|, zeros
  {
    var t := Repeat('0', zeros) + s;
    if s != "" {
      var last := |s| - 1;
      assert s[last] in s && forall c | c in s[..last] :: c in s;
      LeadingZeros(s[..last], zeros);
      assert t[..|t| - 1] == Repeat('0', zeros) + s[..last];
    } else if zeros > 0 {
      LeadingZeros(s, zeros - 1);
      assert t[..|t| - 1] == Repeat('0', zeros - 1) + s;
    }
  }

  lemma HexGroup(n: nat, width: nat)
    requires 0 < width && n < Power(16, width)
    ensures |ZeroFill(HexText(n), width)| == width && IsHex(ZeroFill(HexText(n), width))
    ensures HexValue(ZeroFill(HexText(n), width)) == n
  {
    HexTextReadsBack(n, width);
    if |HexText(n)| < width {
      LeadingZeros(HexText(n), width - |HexText(n)|);
    }
  }

  /** Any five in-range numbers print as groups of 8, 4, 4, 4 and 12 hexadecimal digits with
      dashes between, and each group reads back as its number. */
  lemma UuidTextForm(a: nat, b: nat, c: nat, d: nat, e: nat)
    requires a <= 4294967295 && b <= 65535 && c <= 65535 && d <= 65535 && e <= 281474976710655
    ensures var t := UuidText(a, b, c, d, e);
            |t| == 38 && t[0] == '\'' && t[37] == '\''
            && t[9] == '-' && t[14] == '-' && t[19] == '-' && t[24] == '-'
            && IsHex(t[1..9]) && IsHex(t[10..14]) && IsHex(t[15..19]) && IsHex(t[20..24]) && IsHex(t[25..37])
            && HexValue(t[1..9]) == a && HexValue(t[10..14]) == b && HexValue(t[15..19]) == c
            && HexValue(t[20..24]) == d && HexValue(t[25..37]) == e
  {
    hide HexText, ZeroFill, HexValue, IsHex;
    assert Power(16, 4) == 65536;
    assert Power(16, 8) == 4294967296;
    assert Power(16, 12) == 281474976710656;
    HexGroup(a, 8);
    HexGroup(b, 4);
    HexGroup(c, 4);
    HexGroup(d, 4);
    HexGroup(e, 12);
    var t := UuidText(a, b, c, d, e);
    assert t[1..9] == ZeroFill(HexText(a), 8);
    assert t[10..14] == ZeroFill(HexText(b), 4);
    assert t[15..19] == ZeroFill(HexText(c), 4);
    assert t[20..24] == ZeroFill(HexText(d), 4);
    assert t[25..37] == ZeroFill(HexText(e), 12);
  }
}
