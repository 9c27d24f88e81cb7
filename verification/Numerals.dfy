/** Numbers as they are written: with the digits of a base, the last one least. */
module Numerals {
  const DECIMAL := "0123456789"
  const HEX_SMALL := "0123456789abcdef"
  const HEX_CAPITAL := "0123456789ABCDEF"

  /** `n` in the base that has these digits. */
  function Written(n: nat, digits: string): (s: string)
    requires |digits| >= 2
    ensures s != ""
  {
    if n < |digits| then [digits[n]] else Written(n / |digits|, digits) + [digits[n % |digits|]]
  }

  function Power(base: nat, k: nat): nat {
    if k == 0 then 1 else base * Power(base, k - 1)
  }

  lemma DivBelow(n: nat, base: nat, bound: nat)
    requires base > 0
    ensures n < base * bound <==> n / base < bound
  {
    if n / base < bound { Scaled(n / base + 1, bound, base); }
    if n / base >= bound { Scaled(bound, n / base, base); }
  }

  lemma Scaled(a: nat, b: nat, c: nat)
    requires a <= b
    ensures a * c <= b * c
  {
  }

  lemma PowerOne(base: nat)
    ensures Power(base, 1) == base
  {
    assert Power(base, 0) == 1;
  }

  lemma {:induction false} PowerUp(base: nat, j: nat, k: nat)
    requires 0 < base && j <= k
    ensures 0 < Power(base, j) <= Power(base, k)
  {
    if j == 0 && k > 0 { PowerUp(base, 0, k - 1); Scaled(1, base, Power(base, k - 1)); }
    if j > 0 { PowerUp(base, j - 1, k - 1); Scaled(Power(base, j - 1), Power(base, k - 1), base); Scaled(1, base, Power(base, j - 1)); }
  }

  /** With `k` digits the numbers below the k-th power of the base are written. */
  lemma {:induction false} WrittenLength(n: nat, digits: string, k: nat)
    requires |digits| >= 2 && k > 0
    ensures |Written(n, digits)| <= k <==> n < Power(|digits|, k)
  {
    hide Written, Power;
    var base := |digits|;
    PowerOne(base);
    WrittenStep(n, digits);
    if n < base {
      PowerUp(base, 1, k);
    } else if k > 1 {
      WrittenLength(n / base, digits, k - 1);
      PowerStep(base, k);
      DivBelow(n, base, Power(base, k - 1));
    }
  }

  lemma PowerStep(base: nat, k: nat)
    requires k > 0
    ensures Power(base, k) == base * Power(base, k - 1)
  {
  }

  lemma WrittenStep(n: nat, digits: string)
    requires |digits| >= 2
    ensures n < |digits| ==> Written(n, digits) == [digits[n]]
    ensures n >= |digits| ==>
              var more := Written(n / |digits|, digits);
              && Written(n, digits) == more + [digits[n % |digits|]] && |Written(n, digits)| == |more| + 1 > 1
  {
  }

  lemma DivPositive(n: nat, base: nat)
    requires 0 < base <= n
    ensures n / base > 0
  {
    DivBelow(n, base, 1);
  }

  lemma FrontOf(s: string, c: char)
    requires s != ""
    ensures (s + [c])[0] == s[0]
  {
  }

  /** Only zero starts with the digit for zero. */
  lemma {:induction false} FirstDigit(n: nat, digits: string)
    requires |digits| >= 2 && forall i :: 0 < i < |digits| ==> digits[i] != digits[0]
    ensures Written(n, digits)[0] in digits
    ensures Written(n, digits)[0] == digits[0] <==> n == 0
  {
    hide Written;
    WrittenStep(n, digits);
    if n >= |digits| {
      DivPositive(n, |digits|);
      FirstDigit(n / |digits|, digits);
      FrontOf(Written(n / |digits|, digits), digits[n % |digits|]);
    }
  }
}
