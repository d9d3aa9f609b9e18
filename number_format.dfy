/**
 * Zero-padded decimal formatting: the "D19" standard format of Int64.ToString and
 * the "yyyy" / "MM" custom date-format specifiers.
 */
module NumberFormat {
  import LexOrder

  function Pow10(n: nat): (p: nat)
    ensures p >= 1
  {
    if n == 0 then 1 else 10 * Pow10(n - 1)
  }

  predicate IsDigit(c: char) {
    '0' <= c <= '9'
  }

  function DigitChar(d: int): (c: char)
    requires 0 <= d < 10
    ensures IsDigit(c)
  {
    ('0' as int + d) as char
  }

  /** The low `w` decimal digits of `n`, most significant first, with leading zeros. */
  function FixedDigits(n: nat, w: nat): (s: string)
    ensures |s| == w
    ensures forall i :: 0 <= i < w ==> IsDigit(s[i])
  {
    if w == 0 then [] else FixedDigits(n / 10, w - 1) + [DigitChar(n % 10)]
  }

  /** The number of decimal digits of `n` (one for zero). */
  function DigitCount(n: nat): (k: nat)
    ensures k >= 1
  {
    if n < 10 then 1 else 1 + DigitCount(n / 10)
  }

  /** `n` formatted with at least `minWidth` digits, padded on the left with zeros. */
  function Decimal(n: nat, minWidth: nat): string {
    FixedDigits(n, if DigitCount(n) < minWidth then minWidth else DigitCount(n))
  }

  /** The value of a string of decimal digits. */
  function DigitsValue(s: string): nat
    requires forall i :: 0 <= i < |s| ==> IsDigit(s[i])
  {
    if |s| == 0 then 0
    else
      assert IsDigit(s[|s| - 1]);
      10 * DigitsValue(s[..|s| - 1]) + (s[|s| - 1] as int - '0' as int)
  }

  lemma {:induction false} DivBound(n: nat, w: nat)
    requires w >= 1 && n < Pow10(w)
    ensures n / 10 < Pow10(w - 1)
  {
  }

  /** Reading back the digits of a number below 10^w gives the number itself. */
  lemma {:induction false} FixedDigitsRoundTrip(n: nat, w: nat)
    requires n < Pow10(w)
    ensures DigitsValue(FixedDigits(n, w)) == n
  {
    if w > 0 {
      var s := FixedDigits(n, w);
      DivBound(n, w);
      FixedDigitsRoundTrip(n / 10, w - 1);
      assert s[..|s| - 1] == FixedDigits(n / 10, w - 1);
    }
  }

  /** Below 10^w, distinct numbers have distinct fixed-width digit strings. */
  lemma FixedDigitsInjective(a: nat, b: nat, w: nat)
    requires a < Pow10(w) && b < Pow10(w)
    requires FixedDigits(a, w) == FixedDigits(b, w)
    ensures a == b
  {
    FixedDigitsRoundTrip(a, w);
    FixedDigitsRoundTrip(b, w);
  }

  /** Below 10^w, ordinal string order of the fixed-width digits is numeric order. */
  lemma {:induction false} FixedDigitsOrdered(a: nat, b: nat, w: nat)
    requires a < b < Pow10(w)
    ensures LexOrder.Less(FixedDigits(a, w), FixedDigits(b, w))
  {
    if w == 0 {
    } else {
      DivBound(a, w);
      DivBound(b, w);
      var pa, pb := FixedDigits(a / 10, w - 1), FixedDigits(b / 10, w - 1);
      if a / 10 < b / 10 {
        FixedDigitsOrdered(a / 10, b / 10, w - 1);
        LexOrder.PrefixDecides(pa, pb, [DigitChar(a % 10)], [DigitChar(b % 10)]);
      } else {
        assert pa == pb && a % 10 < b % 10;
        LexOrder.CommonPrefix(pa, [DigitChar(a % 10)], [DigitChar(b % 10)]);
      }
    }
  }

  lemma {:induction false} DigitCountBound(n: nat, w: nat)
    requires w >= 1 && n < Pow10(w)
    ensures DigitCount(n) <= w
  {
    if n >= 10 {
      DivBound(n, w);
      DigitCountBound(n / 10, w - 1);
    }
  }

  /** A number of at least 10^w needs more than w digits. */
  lemma {:induction false} DigitCountAbove(n: nat, w: nat)
    requires n >= Pow10(w)
    ensures DigitCount(n) > w
  {
    if w > 0 {
      DigitCountAbove(n / 10, w - 1);
    }
  }

  /** A number below 10^w formatted to width w is exactly its w fixed digits. */
  lemma DecimalIsFixed(n: nat, w: nat)
    requires w >= 1 && n < Pow10(w)
    ensures Decimal(n, w) == FixedDigits(n, w)
  {
    DigitCountBound(n, w);
  }
}
