/** Numbers in hexadecimal. */
module Hex {
  import opened Numerals

  predicate IsHex(c: char) {
    '0' <= c <= '9' || 'A' <= c <= 'F' || 'a' <= c <= 'f'
  }

  function HexDigit(c: char): (d: nat)
    requires IsHex(c)
    ensures d < 16
  {
    if c <= '9' then c as int - '0' as int
    else if c <= 'F' then c as int - 'A' as int + 10
    else c as int - 'a' as int + 10
  }

  predicate AllHex(s: string) {
    forall i :: 0 <= i < |s| ==> IsHex(s[i])
  }

  function HexValue(s: string): nat
    requires AllHex(s)
  {
    if s == "" then 0 else 16 * HexValue(s[..|s| - 1]) + HexDigit(s[|s| - 1])
  }

  /** The longest run of hex digits at the front, at most `max` of them. */
  function HexRun(s: string, max: nat): (r: string)
    ensures AllHex(r) && r <= s && |r| <= max
    ensures |r| < max && |r| < |s| ==> !IsHex(s[|r|])
  {
    if s == "" || max == 0 || !IsHex(s[0]) then "" else [s[0]] + HexRun(s[1..], max - 1)
  }

  lemma {:induction false} HexRunIs(digits: string, rest: string, max: nat)
    requires AllHex(digits) && (rest == "" || !IsHex(rest[0]))
    ensures HexRun(digits + rest, max) == if |digits| <= max then digits else digits[..max]
  {
    hide IsHex;
    if digits == "" {
      assert digits + rest == rest;
    } else if max > 0 {
      HexRunIs(digits[1..], rest, max - 1);
      FirstOff(digits, rest);
      if |digits| > max { assert [digits[0]] + digits[1..][..max - 1] == digits[..max]; }
    }
  }

  lemma FirstOff(a: string, b: string)
    requires a != ""
    ensures (a + b)[1..] == a[1..] + b && (a + b)[0] == a[0] && [a[0]] + a[1..] == a
  {
  }

  // ---------- numbers as they are written ----------

  /** The digits are these, small or capital, and each is worth its place among them. */
  lemma DigitsExactly(c: char)
    ensures IsHex(c) <==> c in HEX_SMALL || c in HEX_CAPITAL
    ensures forall i :: 0 <= i < 16 && (c == HEX_SMALL[i] || c == HEX_CAPITAL[i]) ==> HexDigit(c) == i
  {
    forall i | 0 <= i < 16
      ensures IsHex(HEX_SMALL[i]) && HexDigit(HEX_SMALL[i]) == i && IsHex(HEX_CAPITAL[i]) && HexDigit(HEX_CAPITAL[i]) == i
    {
      DigitAt(i);
    }
    if '0' <= c <= '9' { assert HEX_SMALL[c as int - '0' as int] == c by { DigitAt(c as int - '0' as int); } }
    if 'a' <= c <= 'f' { assert HEX_SMALL[c as int - 'a' as int + 10] == c by { DigitAt(c as int - 'a' as int + 10); } }
    if 'A' <= c <= 'F' { assert HEX_CAPITAL[c as int - 'A' as int + 10] == c by { DigitAt(c as int - 'A' as int + 10); } }
  }

  lemma DigitAt(i: nat)
    requires i < 16
    ensures HEX_SMALL[i] as int == if i < 10 then '0' as int + i else 'a' as int + i - 10
    ensures HEX_CAPITAL[i] as int == if i < 10 then '0' as int + i else 'A' as int + i - 10
  {
  }

  /** A number written in hexadecimal is worth what it says, and no longer than 16 digits
      exactly if it is below 2^64. */
  lemma WrittenInHex(n: nat, digits: string)
    requires digits == HEX_SMALL || digits == HEX_CAPITAL
    ensures AllHex(Written(n, digits)) && HexValue(Written(n, digits)) == n
    ensures Written(n, digits)[0] == '0' <==> n == 0
    ensures |Written(n, digits)| <= 16 <==> n < 0x1_0000_0000_0000_0000
  {
    hide Written, IsHex, Power, HexValue;
    WorthInHex(n, digits);
    Distinct();
    FirstDigit(n, digits);
    WrittenLength(n, digits, 16);
    PowerOf16();
  }

  lemma {:induction false} WorthInHex(n: nat, digits: string)
    requires digits == HEX_SMALL || digits == HEX_CAPITAL
    ensures AllHex(Written(n, digits)) && HexValue(Written(n, digits)) == n
  {
    hide Written, HexDigit, IsHex, HexValue;
    DigitsExactly(digits[n % 16]);
    WrittenStep(n, digits);
    if n < 16 {
      HexStep("", digits[n]);
      assert "" + [digits[n]] == [digits[n]] && n % 16 == n;
    } else {
      WorthInHex(n / 16, digits);
      HexStep(Written(n / 16, digits), digits[n % 16]);
    }
  }

  lemma HexStep(s: string, c: char)
    requires AllHex(s) && IsHex(c)
    ensures AllHex(s + [c]) && HexValue(s + [c]) == 16 * HexValue(s) + HexDigit(c) && HexValue("") == 0
  {
    assert (s + [c])[..|s|] == s;
  }

  lemma Distinct()
    ensures HEX_SMALL[0] == HEX_CAPITAL[0] == '0'
    ensures forall i :: 0 < i < 16 ==> HEX_SMALL[i] != '0' && HEX_CAPITAL[i] != '0'
  {
    forall i: nat | 0 < i < 16 ensures HEX_SMALL[i] != '0' && HEX_CAPITAL[i] != '0' { DigitAt(i); }
  }

  lemma PowerOf16()
    ensures Power(16, 16) == 0x1_0000_0000_0000_0000
  {
    assert Power(16, 4) == 0x1_0000;
    assert Power(16, 8) == 0x1_0000_0000;
    assert Power(16, 12) == 0x1_0000_0000_0000;
  }

  /** A body in chunks of this data, as section 3.6.1 of RFC 2616 has it. */
  function ChunkedText(datas: seq<string>, digits: string): string
    requires |digits| >= 2
  {
    if datas == [] then "0\r\n\r\n"
    else Written(|datas[0]|, digits) + "\r\n" + datas[0] + "\r\n" + ChunkedText(datas[1..], digits)
  }

  /** None is empty, and each has a size below 2^64. */
  predicate Sized(datas: seq<string>) {
    forall i :: 0 <= i < |datas| ==> 0 < |datas[i]| < 0x1_0000_0000_0000_0000
  }
}
