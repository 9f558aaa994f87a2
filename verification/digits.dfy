/**
 * `Number.prototype.toString(radix)` for non-negative integers, its inverse, and
 * `String.prototype.padStart`, as used to format application, visa and
 * verification numbers.
 */
module Digits {
  import opened Text

  /** The character JavaScript writes for digit value `d` (lower-case letters above 9). */
  function DigitChar(d: nat): char
    requires d < 36
  {
    if d < 10 then (48 + d) as char else (87 + d) as char
  }

  /** `c` is a digit of base `radix` as JavaScript writes it. */
  predicate IsRadixDigit(c: char, radix: nat) {
    || ('0' <= c <= '9' && (c as int) - 48 < radix)
    || ('a' <= c <= 'z' && (c as int) - 87 < radix)
  }

  function DigitValue(c: char, radix: nat): (v: nat)
    requires IsRadixDigit(c, radix)
    ensures v < radix
  {
    if '0' <= c <= '9' then (c as int) - 48 else (c as int) - 87
  }

  predicate AllRadixDigits(s: string, radix: nat) {
    forall k :: 0 <= k < |s| ==> IsRadixDigit(s[k], radix)
  }

  lemma DigitCharValue(d: nat, radix: nat)
    requires d < radix <= 36
    ensures IsRadixDigit(DigitChar(d), radix) && DigitValue(DigitChar(d), radix) == d
  {
  }

  /** Euclidean division by a radix: quotient and remainder, and the quotient shrinks. */
  lemma DivStep(n: nat, radix: nat)
    requires 2 <= radix
    ensures n % radix < radix && n == (n / radix) * radix + n % radix
    ensures n >= radix ==> 1 <= n / radix < n
  {
    var q := n / radix;
    if n >= radix {
      assert q * radix == n - n % radix > 0;
      assert q * radix >= q * 2;
    }
  }

  /** `n.toString(radix)`: the digits of `n`, most significant first, no leading zero. */
  function ToRadix(n: nat, radix: nat): (r: string)
    requires 2 <= radix <= 36
    ensures |r| >= 1 && AllRadixDigits(r, radix)
    ensures |r| > 1 ==> r[0] != '0'
    decreases n
  {
    DigitCharValue(n % radix, radix);
    DivStep(n, radix);
    if n < radix then [DigitChar(n)]
    else ToRadix(n / radix, radix) + [DigitChar(n % radix)]
  }

  /** The number a string of digits denotes (`parseInt(s, radix)` on digit-only text). */
  function RadixValue(s: string, radix: nat): nat
    requires AllRadixDigits(s, radix)
    decreases |s|
  {
    if |s| == 0 then 0
    else RadixValue(s[..|s| - 1], radix) * radix + DigitValue(s[|s| - 1], radix)
  }

  /** Reading back the digits `ToRadix` writes gives the number. */
  lemma {:induction false} RadixRoundTrip(n: nat, radix: nat)
    requires 2 <= radix <= 36
    ensures RadixValue(ToRadix(n, radix), radix) == n
    decreases n
  {
    var r := ToRadix(n, radix);
    DigitCharValue(n % radix, radix);
    DivStep(n, radix);
    if n >= radix {
      RadixRoundTrip(n / radix, radix);
      assert r[..|r| - 1] == ToRadix(n / radix, radix);
    }
  }

  /** `ToRadix` is one-to-one. */
  lemma ToRadixInjective(m: nat, n: nat, radix: nat)
    requires 2 <= radix <= 36
    ensures ToRadix(m, radix) == ToRadix(n, radix) ==> m == n
  {
    RadixRoundTrip(m, radix);
    RadixRoundTrip(n, radix);
  }

  predicate AllDigits(s: string) {
    AllRadixDigits(s, 10)
  }

  /** `String(n)` for a non-negative integer. */
  function NatToDecimal(n: nat): (r: string)
    ensures |r| >= 1 && AllDigits(r)
    ensures |r| > 1 ==> r[0] != '0'
  {
    ToRadix(n, 10)
  }

  function Pow10(k: nat): nat {
    if k == 0 then 1 else 10 * Pow10(k - 1)
  }

  /** A number below `10^k` has at most `k` decimal digits. */
  lemma {:induction false} DecimalLength(n: nat, k: nat)
    requires 1 <= k && n < Pow10(k)
    ensures |NatToDecimal(n)| <= k
    decreases k
  {
    DivStep(n, 10);
    if n >= 10 {
      assert k >= 2;
      assert n / 10 < Pow10(k - 1);
      DecimalLength(n / 10, k - 1);
      assert NatToDecimal(n) == NatToDecimal(n / 10) + [DigitChar(n % 10)];
    }
  }

  function DecimalValue(s: string): nat
    requires AllDigits(s)
  {
    RadixValue(s, 10)
  }

  /** `String(i)` for any integer: a minus sign before the digits of a negative number. */
  function IntToDecimal(i: int): (r: string)
    ensures |r| >= 1
    ensures i >= 0 ==> AllDigits(r) && DecimalValue(r) == i
    ensures i < 0 ==> r[0] == '-' && AllDigits(r[1..]) && DecimalValue(r[1..]) == -i
  {
    if i < 0 then
      RadixRoundTrip(-i, 10);
      assert ("-" + NatToDecimal(-i))[1..] == NatToDecimal(-i);
      "-" + NatToDecimal(-i)
    else
      RadixRoundTrip(i, 10);
      NatToDecimal(i)
  }

  function Repeat(c: char, n: nat): (r: string)
    ensures |r| == n
    ensures forall k :: 0 <= k < n ==> r[k] == c
  {
    seq(n, _ => c)
  }

  /** `s.padStart(width, c)` with a one-character pad: never truncates. */
  function PadStart(s: string, width: nat, c: char): (r: string)
    ensures |r| == if |s| >= width then |s| else width
    ensures r == Repeat(c, |r| - |s|) + s
  {
    if |s| >= width then s else Repeat(c, width - |s|) + s
  }

  /** Leading zeros do not change the value of a digit string. */
  lemma {:induction false} LeadingZerosValue(k: nat, s: string)
    requires AllDigits(s)
    ensures AllDigits(Repeat('0', k) + s)
    ensures DecimalValue(Repeat('0', k) + s) == DecimalValue(s)
    decreases |s|, k
  {
    var z := Repeat('0', k);
    if |s| == 0 {
      assert z + s == z;
      if k > 0 {
        LeadingZerosValue(k - 1, s);
        assert z[..k - 1] == Repeat('0', k - 1);
        assert (z + s)[..k - 1] == Repeat('0', k - 1) + s;
      }
    } else {
      var init := s[..|s| - 1];
      LeadingZerosValue(k, init);
      assert (z + s)[..|z + s| - 1] == z + init;
    }
  }

  /**
   * `String(n).padStart(width, "0")` for a non-negative `n`: all digits, at least
   * `width` long, and it still denotes `n`.
   */
  function ZeroPad(n: nat, width: nat): (r: string)
    ensures |r| == if |NatToDecimal(n)| >= width then |NatToDecimal(n)| else width
    ensures AllDigits(r) && DecimalValue(r) == n
    ensures r == Repeat('0', |r| - |NatToDecimal(n)|) + NatToDecimal(n)
  {
    var d := NatToDecimal(n);
    RadixRoundTrip(n, 10);
    LeadingZerosValue(if |d| >= width then 0 else width - |d|, d);
    assert Repeat('0', 0) + d == d;
    PadStart(d, width, '0')
  }

  /** A string of digits contains no `-`. */
  lemma DigitsHaveNoDash(s: string, radix: nat)
    requires AllRadixDigits(s, radix)
    ensures '-' !in s
  {
    assert forall k :: 0 <= k < |s| ==> IsRadixDigit(s[k], radix);
  }
}
