/**
 * The store's OTP digest: a 32-bit rolling hash over the UTF-16 code units of
 * the code, rendered as the hexadecimal magnitude of the final value.
 */
module OtpHash {
  import opened JsText
  import Radix

  const TwoTo31: int := 0x8000_0000
  const TwoTo32: int := 0x1_0000_0000

  /** ECMAScript ToInt32 on an integral number: the 32-bit signed value congruent to `x` modulo 2^32. */
  function ToInt32(x: int): (r: int)
    ensures -TwoTo31 <= r < TwoTo31
    ensures (x - r) % TwoTo32 == 0
  {
    var m := x % TwoTo32;
    if m >= TwoTo31 then m - TwoTo32 else m
  }

  /** ToInt32 only depends on its argument modulo 2^32. */
  lemma ToInt32Congruent(x: int, y: int)
    requires (x - y) % TwoTo32 == 0
    ensures ToInt32(x) == ToInt32(y)
  {
    assert x % TwoTo32 == y % TwoTo32 by {
      var k := (x - y) / TwoTo32;
      assert x == y + k * TwoTo32;
    }
  }

  /** `h << 5`: both operands go through ToInt32 and the product wraps. */
  function ShiftLeft5(h: int): int {
    ToInt32(ToInt32(h) * 32)
  }

  /** One loop iteration: `hash = ((hash << 5) - hash) + char; hash = hash & hash;`. */
  function Step(h: int, unit: int): int {
    ToInt32(ShiftLeft5(h) - h + unit)
  }

  /** The loop over the code units, starting from `hash = 0`. */
  function Fold(units: seq<int>): (h: int)
    ensures -TwoTo31 <= h < TwoTo31
  {
    if |units| == 0 then 0 else Step(Fold(units[..|units| - 1]), units[|units| - 1])
  }

  /** The reference reading of the loop: `h := ToInt32(31 * h + unit)`. */
  function Times31(units: seq<int>): int {
    if |units| == 0 then 0 else ToInt32(31 * Times31(units[..|units| - 1]) + units[|units| - 1])
  }

  /** Shift-and-subtract followed by `& hash` is multiplication by 31 modulo 2^32. */
  lemma StepIsTimes31(h: int, unit: int)
    requires -TwoTo31 <= h < TwoTo31
    ensures Step(h, unit) == ToInt32(31 * h + unit)
  {
    var s := ToInt32(h * 32);
    assert ToInt32(h) == h by { ToInt32Congruent(h, h - 0); assert h % TwoTo32 == h || h % TwoTo32 == h + TwoTo32; }
    assert ((s - h + unit) - (31 * h + unit)) % TwoTo32 == 0 by {
      assert (s - h + unit) - (31 * h + unit) == s - h * 32;
    }
    ToInt32Congruent(s - h + unit, 31 * h + unit);
  }

  lemma {:induction false} FoldIsTimes31(units: seq<int>)
    ensures Fold(units) == Times31(units)
  {
    if |units| > 0 {
      FoldIsTimes31(units[..|units| - 1]);
      StepIsTimes31(Fold(units[..|units| - 1]), units[|units| - 1]);
    }
  }

  function Abs(h: int): nat {
    if h < 0 then -h else h
  }

  /** `hashOTP(otp)`: `Math.abs(hash).toString(16)`. */
  function HashOtp(otp: string): (d: string)
    ensures |d| >= 1
    ensures forall i | 0 <= i < |d| :: Radix.RadixDigit(d[i], 16)
    ensures |d| > 1 ==> d[0] != '0'
    ensures DigitsValue(d, 16) == Abs(Times31(CodeUnits(otp)))
  {
    var h := Fold(CodeUnits(otp));
    FoldIsTimes31(CodeUnits(otp));
    Radix.RenderRoundTrip(Abs(h), 16);
    Radix.Render(Abs(h), 16)
  }

  /** Different inputs can share a digest: the digest is no proof of knowing the code. */
  lemma DigestCollision()
    ensures "Aa" != "BB" && HashOtp("Aa") == HashOtp("BB")
  {
    var a, b := CodeUnits("Aa"), CodeUnits("BB");
    CodeUnitsOfBmp("Aa");
    CodeUnitsOfBmp("BB");
    assert a == [65, 97] && b == [66, 66];
    FoldIsTimes31(a);
    FoldIsTimes31(b);
    Collide();
    assert Fold(a) == Fold(b);
  }

  lemma Collide()
    ensures Times31([65, 97]) == 2112 == Times31([66, 66])
  {
    assert [65, 97][..1] == [65] && [66, 66][..1] == [66];
    assert Times31([65]) == 65 by { assert [65][..0] == []; }
    assert Times31([66]) == 66 by { assert [66][..0] == []; }
  }

  /** Wrapping after every step or once at the end gives the same value. */
  lemma {:induction false} TruncatedOnce(units: seq<int>)
    ensures Times31(units) == ToInt32(Exact(units))
  {
    if |units| > 0 {
      var p := units[..|units| - 1];
      var x := units[|units| - 1];
      TruncatedOnce(p);
      var t, e := Times31(p), Exact(p);
      assert Times31(units) == ToInt32(31 * t + x);
      assert Exact(units) == 31 * e + x;
      ScaledMultiple(e - t);
      assert (31 * e + x) - (31 * t + x) == 31 * (e - t);
      ToInt32Congruent(31 * e + x, 31 * t + x);
    }
  }

  /** A multiple of 2^32 stays one when multiplied by 31. */
  lemma ScaledMultiple(d: int)
    requires d % TwoTo32 == 0
    ensures (31 * d) % TwoTo32 == 0
  {
    var k := d / TwoTo32;
    assert d == k * TwoTo32;
    assert 31 * d == (31 * k) * TwoTo32;
  }

  // ----- six-digit codes never collide -----

  predicate IsNumeral(s: string, n: nat) {
    |s| == n && forall i | 0 <= i < |s| :: '0' <= s[i] <= '9'
  }

  predicate DigitUnits(u: seq<int>) {
    forall k | 0 <= k < |u| :: 48 <= u[k] <= 57
  }

  /** The loop's value without any wrap-around. */
  function Exact(u: seq<int>): int {
    if |u| == 0 then 0 else 31 * Exact(u[..|u| - 1]) + u[|u| - 1]
  }

  /** The largest exact value of `k` digit units. */
  function Bound(k: nat): nat {
    if k == 0 then 0 else 31 * Bound(k - 1) + 57
  }

  lemma {:induction false} ExactBounded(u: seq<int>)
    requires DigitUnits(u)
    ensures 0 <= Exact(u) <= Bound(|u|)
  {
    if |u| > 0 {
      ExactBounded(u[..|u| - 1]);
    }
  }

  lemma BoundOfSix(k: nat)
    requires k <= 6
    ensures Bound(k) <= 1686256992 < TwoTo31
  {
    assert Bound(1) == 57;
    assert Bound(2) == 1824;
    assert Bound(3) == 56601;
    assert Bound(4) == 1754688;
    assert Bound(5) == 54395385;
    assert Bound(6) == 1686256992;
  }

  /** Up to six digits the hash never wraps, so it equals the exact value. */
  lemma DigitsDoNotWrap(u: seq<int>)
    requires DigitUnits(u) && |u| <= 6
    ensures Times31(u) == Exact(u)
  {
    TruncatedOnce(u);
    ExactBounded(u);
    BoundOfSix(|u|);
    assert Exact(u) % TwoTo32 == Exact(u);
  }

  /** Digit units are recovered from their exact value: base 31 with digit codes 48..57. */
  lemma {:induction false} ExactInjective(a: seq<int>, b: seq<int>)
    requires DigitUnits(a) && DigitUnits(b) && |a| == |b|
    requires Exact(a) == Exact(b)
    ensures a == b
  {
    if |a| > 0 {
      var n := |a| - 1;
      assert 31 * (Exact(a[..n]) - Exact(b[..n])) == b[n] - a[n];
      ExactInjective(a[..n], b[..n]);
      assert a == a[..n] + [a[n]] && b == b[..n] + [b[n]];
    }
  }

  /** Two six-digit codes have the same digest only when they are the same code. */
  lemma NumeralDigestsDistinct(a: string, b: string)
    requires IsNumeral(a, 6) && IsNumeral(b, 6)
    ensures HashOtp(a) == HashOtp(b) <==> a == b
  {
    if HashOtp(a) == HashOtp(b) {
      CodeUnitsOfBmp(a);
      CodeUnitsOfBmp(b);
      var ua, ub := CodeUnits(a), CodeUnits(b);
      FoldIsTimes31(ua);
      FoldIsTimes31(ub);
      DigitsDoNotWrap(ua);
      DigitsDoNotWrap(ub);
      ExactBounded(ua);
      ExactBounded(ub);
      Radix.RenderInjective(Abs(Fold(ua)), Abs(Fold(ub)), 16);
      ExactInjective(ua, ub);
      assert forall i | 0 <= i < 6 :: a[i] as int == b[i] as int;
    }
  }
}
