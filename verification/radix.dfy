/**
 * `Number.prototype.toString(base)` on non-negative integers: the digits of `n`
 * in `base`, most significant first, lower-case letters above 9, no leading zeros.
 */
module Radix {
  import opened Wrappers
  import opened JsText

  /** A digit `toString` writes in `base`: `0`-`9`, then lower-case `a`-`f` in base 16. */
  predicate RadixDigit(c: char, base: nat) {
    ('0' <= c <= '9' && (c as int - '0' as int) < base) || (base == 16 && 'a' <= c <= 'f')
  }

  function DigitChar(d: nat): (c: char)
    requires d < 16
    ensures DigitValue(c) == d
    ensures d < 10 ==> RadixDigit(c, 10)
    ensures RadixDigit(c, 16)
  {
    if d < 10 then ('0' as int + d) as char else ('a' as int + d - 10) as char
  }

  /** Division facts for the two bases the application renders in. */
  lemma DivStep(n: nat, base: nat)
    requires base == 10 || base == 16
    ensures n % base < base
    ensures n == (n / base) * base + n % base
    ensures n >= base ==> 1 <= n / base < n
  {
    if base == 10 {
      assert n == (n / 10) * 10 + n % 10;
    } else {
      assert n == (n / 16) * 16 + n % 16;
    }
  }

  function Render(n: nat, base: nat): (s: string)
    requires base == 10 || base == 16
    ensures |s| >= 1
    ensures forall i | 0 <= i < |s| :: DigitValue(s[i]) < base && RadixDigit(s[i], base)
    ensures |s| > 1 ==> s[0] != '0'
    decreases n
  {
    DivStep(n, base);
    if n < base then [DigitChar(n)] else Render(n / base, base) + [DigitChar(n % base)]
  }

  /** Reading the rendered digits back gives the number: `parseInt(n.toString(b), b) == n`. */
  lemma {:induction false} RenderRoundTrip(n: nat, base: nat)
    requires base == 10 || base == 16
    ensures DigitsValue(Render(n, base), base) == n
    decreases n
  {
    var s := Render(n, base);
    DivStep(n, base);
    if n >= base {
      RenderRoundTrip(n / base, base);
      assert s[..|s| - 1] == Render(n / base, base);
    }
  }

  /** Different numbers render differently. */
  lemma RenderInjective(n: nat, m: nat, base: nat)
    requires base == 10 || base == 16
    requires Render(n, base) == Render(m, base)
    ensures n == m
  {
    RenderRoundTrip(n, base);
    RenderRoundTrip(m, base);
  }

  function Pow10(k: nat): (p: nat)
    ensures p >= 1
  {
    if k == 0 then 1 else 10 * Pow10(k - 1)
  }

  /** A number with `k` decimal digits renders as exactly `k` characters. */
  lemma {:induction false} DecimalLength(n: nat, k: nat)
    requires 1 <= k
    requires (if k == 1 then 0 else Pow10(k - 1)) <= n < Pow10(k)
    ensures |Render(n, 10)| == k
  {
    if k > 1 {
      DecimalLength(n / 10, k - 1);
    }
  }

  /** The one-time codes 100000..999999 render as six decimal digits. */
  lemma SixDigitCode(n: nat)
    requires 100000 <= n <= 999999
    ensures |Render(n, 10)| == 6
    ensures forall i | 0 <= i < 6 :: '0' <= Render(n, 10)[i] <= '9'
  {
    assert Pow10(5) == 100000 && Pow10(6) == 1000000 by {
      assert Pow10(1) == 10;
      assert Pow10(2) == 100;
      assert Pow10(3) == 1000;
      assert Pow10(4) == 10000;
    }
    DecimalLength(n, 6);
  }

  /** `parseInt` reads a rendered decimal number back: `parseInt(String(n)) === n`. */
  lemma ParseRendered(n: nat)
    ensures ParseInt(Render(n, 10)) == Some(n)
  {
    var s := Render(n, 10);
    forall i | 0 <= i < |s|
      ensures '0' <= s[i] <= '9'
    {
      assert DigitValue(s[i]) < 10;
    }
    ParseDecimalDigits(s);
    RenderRoundTrip(n, 10);
  }
}
