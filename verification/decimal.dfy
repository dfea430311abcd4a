/** The JavaScript string operations the invoice-number builder relies on:
    `Number.prototype.toString()` on a non-negative integer, `String.prototype.padStart`
    and `String.prototype.slice(-2)`, with a decimal reader as their partner. */
module Decimal {

  predicate IsDigit(ch: char) {
    '0' <= ch <= '9'
  }

  predicate AllDigits(s: string) {
    forall i :: 0 <= i < |s| ==> IsDigit(s[i])
  }

  function DigitValue(ch: char): nat
    requires IsDigit(ch)
  {
    ch as int - '0' as int
  }

  function DigitChar(d: nat): (ch: char)
    requires d < 10
    ensures IsDigit(ch) && DigitValue(ch) == d
  {
    ('0' as int + d) as char
  }

  function Pow10(k: nat): (p: nat)
    ensures p >= 1
    ensures k >= 1 ==> p % 10 == 0
  {
    if k == 0 then 1 else 10 * Pow10(k - 1)
  }

  /** The shortest decimal spelling of `n`, as `n.toString()` produces it. */
  function ToDecimal(n: nat): (s: string)
    ensures |s| >= 1 && AllDigits(s)
    ensures s[|s| - 1] == DigitChar(n % 10)
    ensures n >= 10 <==> |s| >= 2
    decreases n
  {
    if n < 10 then [DigitChar(n)] else ToDecimal(n / 10) + [DigitChar(n % 10)]
  }

  /** The value of a string of decimal digits, read left to right (leading zeros allowed). */
  function ParseDecimal(s: string): nat
    requires AllDigits(s)
  {
    if |s| == 0 then 0 else ParseDecimal(s[..|s| - 1]) * 10 + DigitValue(s[|s| - 1])
  }

  /** `c.repeat(k)` for a one-character string `c`. */
  function Repeat(c: char, k: nat): (s: string)
    ensures |s| == k
    ensures forall i :: 0 <= i < k ==> s[i] == c
  {
    if k == 0 then [] else [c] + Repeat(c, k - 1)
  }

  /** `s.padStart(width, fill)`: fills on the left up to `width`, and never truncates. */
  function PadStart(s: string, width: nat, fill: char): (r: string)
    ensures |r| >= |s| && |r| >= width
    ensures |r| == |s| || |r| == width
    ensures r[|r| - |s|..] == s
    ensures forall i :: 0 <= i < |r| - |s| ==> r[i] == fill
  {
    if |s| >= width then s else Repeat(fill, width - |s|) + s
  }

  /** `s.slice(-2)`: the last two characters, or the whole string when it is shorter. */
  function SliceLast2(s: string): (r: string)
    ensures |r| == if |s| >= 2 then 2 else |s|
    ensures r == s[|s| - |r|..]
  {
    if |s| >= 2 then s[|s| - 2..] else s
  }

  /** Reading back what `ToDecimal` wrote gives the number again. */
  lemma {:induction false} ParseToDecimal(n: nat)
    ensures ParseDecimal(ToDecimal(n)) == n
    decreases n
  {
    var s := ToDecimal(n);
    if n >= 10 {
      ParseToDecimal(n / 10);
      assert s[..|s| - 1] == ToDecimal(n / 10);
    }
  }

  /** `toString` never writes a leading zero, except for zero itself. */
  lemma {:induction false} ToDecimalNoLeadingZero(n: nat)
    ensures ToDecimal(n)[0] == '0' <==> n == 0
    decreases n
  {
    if n >= 10 {
      ToDecimalNoLeadingZero(n / 10);
    }
  }

  /** A string of zeros reads as 0. */
  lemma {:induction false} ParseZeros(k: nat)
    ensures AllDigits(Repeat('0', k)) && ParseDecimal(Repeat('0', k)) == 0
    decreases k
  {
    if k > 0 {
      ParseZeros(k - 1);
      var z := Repeat('0', k);
      assert z[..k - 1] == Repeat('0', k - 1);
    }
  }

  /** Leading zeros do not change the value read. */
  lemma {:induction false} ParseLeadingZeros(k: nat, s: string)
    requires AllDigits(s)
    ensures AllDigits(Repeat('0', k) + s)
    ensures ParseDecimal(Repeat('0', k) + s) == ParseDecimal(s)
    decreases |s|
  {
    var z := Repeat('0', k);
    if |s| == 0 {
      ParseZeros(k);
      assert z + s == z;
    } else {
      var t := z + s;
      ParseLeadingZeros(k, s[..|s| - 1]);
      assert t[..|t| - 1] == z + s[..|s| - 1];
    }
  }

  /** Zero-padding a digit string keeps it a digit string with the same value. */
  lemma PadStartPreservesValue(s: string, width: nat)
    requires AllDigits(s)
    ensures AllDigits(PadStart(s, width, '0'))
    ensures ParseDecimal(PadStart(s, width, '0')) == ParseDecimal(s)
  {
    if |s| < width {
      ParseLeadingZeros(width - |s|, s);
    }
  }

  /** The decimal spelling of `n` fits in `k` characters exactly when `n < 10^k`. */
  lemma {:induction false} ToDecimalLength(n: nat, k: nat)
    requires k >= 1
    ensures |ToDecimal(n)| <= k <==> n < Pow10(k)
    decreases k
  {
    if k == 1 {
      assert Pow10(1) == 10;
    } else if n >= 10 {
      ToDecimalLength(n / 10, k - 1);
    } else {
      ToDecimalLength(n, k - 1);
    }
  }

  /** For a number of at least two digits, `slice(-2)` of its spelling spells the number
      modulo 100 in exactly two digits. */
  lemma LastTwoDigits(n: nat)
    requires n >= 10
    ensures SliceLast2(ToDecimal(n)) == [DigitChar((n / 10) % 10), DigitChar(n % 10)]
    ensures ParseDecimal(SliceLast2(ToDecimal(n))) == n % 100
  {
    var s := ToDecimal(n);
    var h := ToDecimal(n / 10);
    assert s == h + [DigitChar(n % 10)];
    var r := SliceLast2(s);
    assert r == [h[|h| - 1], DigitChar(n % 10)];
    ParseTwoDigits((n / 10) % 10, n % 10);
    DivModHundred(n);
  }

  lemma ParseTwoDigits(a: nat, b: nat)
    requires a < 10 && b < 10
    ensures ParseDecimal([DigitChar(a), DigitChar(b)]) == a * 10 + b
  {
    var r := [DigitChar(a), DigitChar(b)];
    var r1 := r[..1];
    assert r1 == [DigitChar(a)];
    assert r1[..0] == [];
    assert ParseDecimal(r1) == a;
    assert ParseDecimal(r) == ParseDecimal(r1) * 10 + b;
  }

  lemma DivModHundred(n: nat)
    ensures ((n / 10) % 10) * 10 + n % 10 == n % 100
  {
    var q := n / 10;
    assert n == 10 * q + n % 10;
    assert q == 10 * (q / 10) + q % 10;
    assert n == 100 * (q / 10) + (10 * (q % 10) + n % 10);
  }
}
