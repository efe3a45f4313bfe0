/**
 * The parts of JavaScript's string semantics the application relies on:
 * what `\s` matches and `trim()` removes, what `.length` counts, ASCII
 * lower-casing, `includes`, and `parseInt` without a radix.
 */
module JsText {
  import opened Wrappers

  /** WhiteSpace and LineTerminator code points (ECMAScript): the class `\s` and what `trim()` strips. */
  predicate IsSpace(c: char) {
    var n := c as int;
    n == 0x09 || n == 0x0A || n == 0x0B || n == 0x0C || n == 0x0D || n == 0x20
    || n == 0xA0 || n == 0x1680 || (0x2000 <= n <= 0x200A) || n == 0x2028 || n == 0x2029
    || n == 0x202F || n == 0x205F || n == 0x3000 || n == 0xFEFF
  }

  /** The code points a regular-expression `.` does not match. */
  predicate IsLineTerminator(c: char) {
    var n := c as int;
    n == 0x0A || n == 0x0D || n == 0x2028 || n == 0x2029
  }

  predicate AllSpace(s: string) {
    forall i | 0 <= i < |s| :: IsSpace(s[i])
  }

  /** `trimStart()`: drops the longest all-space prefix. */
  function TrimStart(s: string): (r: string)
    ensures |r| <= |s| && r == s[|s| - |r|..]
    ensures forall i | 0 <= i < |s| - |r| :: IsSpace(s[i])
    ensures r == [] || !IsSpace(r[0])
  {
    if |s| > 0 && IsSpace(s[0]) then
      var r := TrimStart(s[1..]);
      assert forall i | 1 <= i < |s| :: s[i] == s[1..][i - 1];
      r
    else
      s
  }

  /** `trimEnd()`: drops the longest all-space suffix. */
  function TrimEnd(s: string): (r: string)
    ensures |r| <= |s| && r == s[..|r|]
    ensures forall i | |r| <= i < |s| :: IsSpace(s[i])
    ensures r == [] || !IsSpace(r[|r| - 1])
  {
    if |s| > 0 && IsSpace(s[|s| - 1]) then
      var r := TrimEnd(s[..|s| - 1]);
      assert forall i | 0 <= i < |s| - 1 :: s[i] == s[..|s| - 1][i];
      r
    else
      s
  }

  /** `r` is `s[i..j]` and everything outside that piece is white space. */
  predicate StrippedPiece(s: string, r: string, i: int, j: int) {
    && 0 <= i <= j <= |s| && r == s[i..j]
    && (forall k | 0 <= k < i :: IsSpace(s[k]))
    && (forall k | j <= k < |s| :: IsSpace(s[k]))
  }

  /**
   * `trim()`: the piece of `s` left after removing white space at both ends, empty exactly
   * when `s` is all white space.
   */
  function Trim(s: string): (r: string)
    ensures exists i, j :: StrippedPiece(s, r, i, j)
    ensures r == [] <==> AllSpace(s)
    ensures r != [] ==> !IsSpace(r[0]) && !IsSpace(r[|r| - 1])
  {
    var t := TrimStart(s);
    var r := TrimEnd(t);
    TrimBothEnds(s, t, r);
    r
  }

  /** Stripping the space prefix and then the space suffix leaves the middle piece. */
  lemma {:induction false} TrimBothEnds(s: string, t: string, r: string)
    requires |t| <= |s| && t == s[|s| - |t|..] && (t == [] || !IsSpace(t[0]))
    requires forall i | 0 <= i < |s| - |t| :: IsSpace(s[i])
    requires |r| <= |t| && r == t[..|r|] && (r == [] || !IsSpace(r[|r| - 1]))
    requires forall i | |r| <= i < |t| :: IsSpace(t[i])
    ensures exists i, j :: StrippedPiece(s, r, i, j)
    ensures r == [] <==> AllSpace(s)
    ensures r != [] ==> !IsSpace(r[0]) && !IsSpace(r[|r| - 1])
  {
    var k := |s| - |t|;
    assert r == s[k..k + |r|];
    forall m | k + |r| <= m < |s|
      ensures IsSpace(s[m])
    {
      assert s[m] == t[m - k];
    }
    assert StrippedPiece(s, r, k, k + |r|);
    if r != [] {
      assert r[0] == t[0] == s[k];
    }
  }

  /** `!s.trim()`: the string is empty or white space only. */
  predicate Blank(s: string): (b: bool)
    ensures b <==> AllSpace(s)
    ensures s == [] ==> b
  {
    Trim(s) == []
  }

  /** The UTF-16 code units JavaScript stores for one code point. */
  function CharUnits(c: char): (u: seq<int>)
    ensures 1 <= |u| <= 2
    ensures forall k | 0 <= k < |u| :: 0 <= u[k] < 0x10000
    ensures |u| == 1 <==> c as int < 0x10000
  {
    var n := c as int;
    if n < 0x10000 then [n]
    else
      var v := n - 0x10000;
      [0xD800 + v / 0x400, 0xDC00 + v % 0x400]
  }

  /** The UTF-16 code units of a string: what `charCodeAt` walks over. */
  function CodeUnits(s: string): (u: seq<int>)
    ensures |u| >= |s|
    ensures forall k | 0 <= k < |u| :: 0 <= u[k] < 0x10000
  {
    if |s| == 0 then [] else CodeUnits(s[..|s| - 1]) + CharUnits(s[|s| - 1])
  }

  /** `s.length`: the number of UTF-16 code units. */
  function Length(s: string): nat {
    |CodeUnits(s)|
  }

  predicate IsBmp(s: string) {
    forall i | 0 <= i < |s| :: s[i] as int < 0x10000
  }

  /** On text made of Basic Multilingual Plane characters, code units are the characters' codes. */
  lemma {:induction false} CodeUnitsOfBmp(s: string)
    requires IsBmp(s)
    ensures |CodeUnits(s)| == |s|
    ensures forall k | 0 <= k < |s| :: CodeUnits(s)[k] == s[k] as int
  {
    if |s| > 0 {
      CodeUnitsOfBmp(s[..|s| - 1]);
    }
  }

  /** Lower-casing of the ASCII letters `A`-`Z`; every other character is kept. */
  function LowerChar(c: char): (r: char)
    ensures 'A' <= c <= 'Z' ==> r as int == c as int + 32
    ensures !('A' <= c <= 'Z') ==> r == c
  {
    if 'A' <= c <= 'Z' then (c as int + 32) as char else c
  }

  function ToLower(s: string): (r: string)
    ensures |r| == |s|
    ensures forall i | 0 <= i < |s| :: r[i] == LowerChar(s[i])
  {
    if |s| == 0 then [] else [LowerChar(s[0])] + ToLower(s[1..])
  }

  /** Lower-casing twice is lower-casing once. */
  lemma ToLowerIdempotent(s: string)
    ensures ToLower(ToLower(s)) == ToLower(s)
  {
    assert forall i | 0 <= i < |s| :: LowerChar(LowerChar(s[i])) == LowerChar(s[i]);
  }

  /** `q` occurs in `s` starting at position `i`. */
  predicate OccursAt(s: string, q: string, i: int) {
    0 <= i <= |s| - |q| && s[i..i + |q|] == q
  }

  /** `s.includes(q)`: `q` occurs in `s` at some position. */
  predicate Includes(s: string, q: string): (b: bool)
    ensures b <==> exists i :: OccursAt(s, q, i)
  {
    var b := exists i | 0 <= i <= |s| :: q <= s[i..];
    assert b ==> exists i :: OccursAt(s, q, i) by {
      if b {
        var i: int :| 0 <= i <= |s| && q <= s[i..];
        assert s[i..i + |q|] == s[i..][..|q|];
        assert OccursAt(s, q, i);
      }
    }
    assert (exists i :: OccursAt(s, q, i)) ==> b by {
      if exists i :: OccursAt(s, q, i) {
        var i: int :| OccursAt(s, q, i);
        assert s[i..][..|q|] == q;
      }
    }
    b
  }

  lemma IncludesEmpty(s: string)
    ensures Includes(s, [])
  {
    assert [] <= s[0..];
  }

  // ----- parseInt(text) with no radix argument -----

  /** The value of a digit in bases up to 36, or 36 for a character that is no digit at all. */
  function DigitValue(c: char): (d: nat)
    ensures d <= 36
    ensures d < 10 <==> '0' <= c <= '9'
  {
    if '0' <= c <= '9' then c as int - '0' as int
    else if 'a' <= c <= 'z' then c as int - 'a' as int + 10
    else if 'A' <= c <= 'Z' then c as int - 'A' as int + 10
    else 36
  }

  /** The length of the longest prefix of `s` made of digits of `base`. */
  function DigitRun(s: string, base: nat): (n: nat)
    ensures n <= |s|
    ensures forall i | 0 <= i < n :: DigitValue(s[i]) < base
    ensures n < |s| ==> DigitValue(s[n]) >= base
  {
    if |s| > 0 && DigitValue(s[0]) < base then 1 + DigitRun(s[1..], base) else 0
  }

  /** The number a run of digits denotes, most significant first. */
  function DigitsValue(s: string, base: nat): nat {
    if |s| == 0 then 0
    else DigitsValue(s[..|s| - 1], base) * base + (if DigitValue(s[|s| - 1]) < base then DigitValue(s[|s| - 1]) else 0)
  }

  /** The longest run of digits of `base` at the start of `body`, as a number; none is `NaN`. */
  function ParseDigits(body: string, base: nat): (r: Option<nat>)
    ensures r.None? <==> body == [] || DigitValue(body[0]) >= base
    ensures r.Some? ==> r.value == DigitsValue(body[..DigitRun(body, base)], base)
  {
    var n := DigitRun(body, base);
    if n == 0 then None else Some(DigitsValue(body[..n], base))
  }

  /** `0x` or `0X`: the prefix that switches `parseInt` to base 16. */
  predicate HexPrefixed(u: string) {
    |u| >= 2 && u[0] == '0' && (u[1] == 'x' || u[1] == 'X')
  }

  /** The digits after the sign: base 16 after `0x`/`0X`, base 10 otherwise. */
  function Unsigned(u: string): Option<nat> {
    if HexPrefixed(u) then ParseDigits(u[2..], 16) else ParseDigits(u, 10)
  }

  /** A magnitude with the sign read in front of it. */
  function Signed(negative: bool, magnitude: Option<nat>): (r: Option<int>)
    ensures r.None? <==> magnitude.None?
    ensures r.Some? ==> r.value == if negative then -(magnitude.value as int) else magnitude.value
  {
    match magnitude
    case None => None
    case Some(v) =>
      var m: int := v;
      Some(if negative then -m else m)
  }

  /**
   * `parseInt(text)`: skip leading white space, read an optional sign, switch to base
   * 16 after `0x`/`0X`, then read the longest digit run; no digits is `NaN` (`None`).
   */
  function ParseInt(text: string): (r: Option<int>)
    ensures text == [] ==> r.None?
    ensures |text| > 0 && IsSpace(text[0]) ==> r == ParseInt(text[1..])
    ensures |text| > 0 && text[0] == '-' ==> r == Signed(true, Unsigned(text[1..]))
    ensures |text| > 0 && text[0] == '+' ==> r == Signed(false, Unsigned(text[1..]))
    ensures |text| > 0 && !IsSpace(text[0]) && text[0] != '-' && text[0] != '+' ==>
              r == Signed(false, Unsigned(text))
  {
    var t := TrimStart(text);
    assert |text| > 0 && IsSpace(text[0]) ==> t == TrimStart(text[1..]);
    assert |text| > 0 && !IsSpace(text[0]) ==> t == text;
    var negative := |t| > 0 && t[0] == '-';
    var u := if |t| > 0 && (t[0] == '-' || t[0] == '+') then t[1..] else t;
    Signed(negative, Unsigned(u))
  }

  /** The decimal digit run of `12px` is `12`. */
  lemma DecimalDigitsRead()
    ensures Unsigned("12px") == Some(12)
  {
    var u := "12px";
    assert !HexPrefixed(u);
    assert u[2..] == "px" && DigitRun("px", 10) == 0;
    assert u[1..] == "2px" && "2px"[1..] == "px";
    assert DigitRun(u, 10) == 2;
    assert u[..2] == "12";
    assert DigitsValue("12", 10) == 12 by {
      assert "12"[..1] == "1" && "1"[..0] == [];
    }
  }

  /** The digit run stops at the first character that is no digit. */
  lemma ParseIntStopsAtNonDigit()
    ensures ParseInt("12px") == Some(12)
  {
    var u := "12px";
    assert u[0] == '1' && !IsSpace(u[0]);
    DecimalDigitsRead();
  }

  /** Leading white space is skipped before the digits are read. */
  lemma ParseIntSkipsSpace()
    ensures ParseInt(" 12px") == Some(12)
  {
    assert " 12px"[1..] == "12px";
    ParseIntStopsAtNonDigit();
  }

  /** After `0x` the digits are read in base 16, either case. */
  lemma HexDigitsRead()
    ensures Unsigned("0x1A") == Some(26)
  {
    var h := "0x1A"[2..];
    assert h == "1A";
    assert DigitRun(h, 16) == 2;
    assert h[..2] == h;
    assert DigitsValue(h, 16) == 26 by {
      assert h[..1] == "1" && "1"[..0] == [];
    }
  }

  /** A minus sign followed by `0x` reads a negative hexadecimal number. */
  lemma ParseIntNegativeHex()
    ensures ParseInt("-0x1A") == Some(-26)
  {
    var t := "-0x1A";
    assert t[0] == '-' && t[1..] == "0x1A";
    HexDigitsRead();
  }

  /** Without a digit, `parseInt` gives `NaN`. */
  lemma ParseIntLettersAreNaN()
    ensures ParseInt("px").None?
  {
    assert !IsSpace('p');
    assert ParseInt("px") == Signed(false, Unsigned("px"));
  }

  /** `0x` with no hexadecimal digit after it gives `NaN`. */
  lemma ParseIntBarePrefixIsNaN()
    ensures ParseInt("0x").None?
  {
    assert ParseInt("0x") == Signed(false, Unsigned("0x"));
    assert "0x"[2..] == [];
  }

  /** A sign with nothing after it gives `NaN`. */
  lemma ParseIntBareSignIsNaN()
    ensures ParseInt("-").None?
  {
    assert ParseInt("-") == Signed(true, Unsigned("-"[1..]));
    assert "-"[1..] == [];
  }

  /** A non-empty run of decimal digits parses to the number it denotes. */
  lemma ParseDecimalDigits(s: string)
    requires |s| > 0 && forall i | 0 <= i < |s| :: '0' <= s[i] <= '9'
    ensures ParseInt(s) == Some(DigitsValue(s, 10))
  {
    assert !IsSpace(s[0]);
    assert TrimStart(s) == s;
    assert !HexPrefixed(s);
    DigitRunOfDigits(s);
    assert s[..|s|] == s;
  }

  lemma DigitRunOfDigits(s: string)
    requires forall i | 0 <= i < |s| :: '0' <= s[i] <= '9'
    ensures DigitRun(s, 10) == |s|
  {
  }
}
