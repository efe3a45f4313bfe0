/**
 * The two input rules shared by the account store and the sign-up form:
 * the email pattern `^[^\s@]+@[^\s@]+\.[^\s@]+$` and the password rule
 * "at least 8 characters and `(?=.*[a-z])(?=.*[A-Z])(?=.*\d)`".
 */
module Validation {
  import opened JsText

  const MinPasswordLength := 8

  /** A character of the class `[^\s@]`. */
  predicate IsEmailChar(c: char) {
    !IsSpace(c) && c != '@'
  }

  predicate AllEmailChars(s: string) {
    forall k | 0 <= k < |s| :: IsEmailChar(s[k])
  }

  /** `s` splits at `at` and `dot` into local part, `@`, domain name, `.`, and top-level part, each non-empty. */
  predicate EmailSplit(s: string, at: int, dot: int) {
    && 0 < at && at + 1 < dot < |s| - 1
    && s[at] == '@' && s[dot] == '.'
    && AllEmailChars(s[..at]) && AllEmailChars(s[at + 1..])
  }

  /**
   * `^[^\s@]+@[^\s@]+\.[^\s@]+$`: a non-empty local part, one `@`, then a domain with a
   * `.` that has at least one character on each side; no white space or second `@` anywhere.
   */
  predicate ValidEmail(s: string): (b: bool)
    ensures b ==> |s| >= 5
    ensures b ==> forall k | 0 <= k < |s| :: !IsSpace(s[k])
    ensures b ==> exists k :: AtSignAt(s, k)
    ensures b ==> forall i, j | 0 <= i < j < |s| :: !(s[i] == '@' && s[j] == '@')
  {
    var b := exists at, dot | 0 <= at < |s| && 0 <= dot < |s| :: EmailSplit(s, at, dot);
    assert b ==> |s| >= 5 && (forall k | 0 <= k < |s| :: !IsSpace(s[k])) && (exists k :: AtSignAt(s, k))
                 && (forall i, j | 0 <= i < j < |s| :: !(s[i] == '@' && s[j] == '@')) by {
      if b {
        var at, dot :| 0 <= at < |s| && 0 <= dot < |s| && EmailSplit(s, at, dot);
        EmailSplitShape(s, at, dot);
      }
    }
    b
  }

  predicate AtSignAt(s: string, k: int) {
    0 <= k < |s| && s[k] == '@'
  }

  /** A split email has its one `@` at `at` and no white space at all. */
  lemma EmailSplitShape(s: string, at: int, dot: int)
    requires EmailSplit(s, at, dot)
    ensures |s| >= 5 && AtSignAt(s, at)
    ensures forall k | 0 <= k < |s| :: IsEmailChar(s[k]) || k == at
    ensures forall k | 0 <= k < |s| :: !IsSpace(s[k])
  {
    forall k | 0 <= k < |s| && k != at ensures IsEmailChar(s[k]) {
      if k < at {
        assert s[k] == s[..at][k];
      } else {
        assert s[k] == s[at + 1..][k - at - 1];
      }
    }
  }

  datatype CharClass = Lower | Upper | Digit

  /** `[a-z]`, `[A-Z]` and `\d` are ASCII-only classes. */
  predicate InClass(c: char, k: CharClass) {
    match k
    case Lower => 'a' <= c <= 'z'
    case Upper => 'A' <= c <= 'Z'
    case Digit => '0' <= c <= '9'
  }

  /** No line terminator between positions `p` (inclusive) and `j` (exclusive). */
  predicate SameLine(s: string, p: int, j: int) {
    forall m | p <= m < j && 0 <= m < |s| :: !IsLineTerminator(s[m])
  }

  /** From position `p`, `.*` can reach position `j`, which holds a character of class `k`. */
  predicate ReachesClass(s: string, p: int, j: int, k: CharClass) {
    0 <= p <= j < |s| && InClass(s[j], k) && SameLine(s, p, j)
  }

  /** The lookahead `(?=.*X)` at position `p`: an `X` lies ahead on the same line. */
  predicate Ahead(s: string, p: int, k: CharClass) {
    exists j | 0 <= j < |s| :: ReachesClass(s, p, j, k)
  }

  /** `/(?=.*[a-z])(?=.*[A-Z])(?=.*\d)/.test(s)`: some start position satisfies all three lookaheads. */
  predicate HasAllClasses(s: string): (b: bool)
    ensures b ==> Contains(s, Lower) && Contains(s, Upper) && Contains(s, Digit)
  {
    var b := exists p | 0 <= p <= |s| :: Ahead(s, p, Lower) && Ahead(s, p, Upper) && Ahead(s, p, Digit);
    assert b ==> Contains(s, Lower) && Contains(s, Upper) && Contains(s, Digit) by {
      if b {
        var p: int :| 0 <= p <= |s| && Ahead(s, p, Lower) && Ahead(s, p, Upper) && Ahead(s, p, Digit);
        var lo: int :| 0 <= lo < |s| && ReachesClass(s, p, lo, Lower);
        var up: int :| 0 <= up < |s| && ReachesClass(s, p, up, Upper);
        var dg: int :| 0 <= dg < |s| && ReachesClass(s, p, dg, Digit);
        assert ClassAt(s, lo, Lower) && ClassAt(s, up, Upper) && ClassAt(s, dg, Digit);
      }
    }
    b
  }

  predicate ClassAt(s: string, j: int, k: CharClass) {
    0 <= j < |s| && InClass(s[j], k)
  }

  predicate Contains(s: string, k: CharClass) {
    exists j | 0 <= j < |s| :: ClassAt(s, j, k)
  }

  /** The password rule of sign-up and reset: long enough and all three character classes. */
  predicate StrongPassword(s: string) {
    Length(s) >= MinPasswordLength && HasAllClasses(s)
  }

  /** On a single line the lookahead rule is "has a lower-case letter, an upper-case letter and a digit". */
  lemma SingleLineClasses(s: string)
    requires forall m | 0 <= m < |s| :: !IsLineTerminator(s[m])
    ensures HasAllClasses(s) <==> Contains(s, Lower) && Contains(s, Upper) && Contains(s, Digit)
  {
    if Contains(s, Lower) && Contains(s, Upper) && Contains(s, Digit) {
      var lo: int :| 0 <= lo < |s| && ClassAt(s, lo, Lower);
      var up: int :| 0 <= up < |s| && ClassAt(s, up, Upper);
      var dg: int :| 0 <= dg < |s| && ClassAt(s, dg, Digit);
      assert ReachesClass(s, 0, lo, Lower) && ReachesClass(s, 0, up, Upper) && ReachesClass(s, 0, dg, Digit);
      assert Ahead(s, 0, Lower) && Ahead(s, 0, Upper) && Ahead(s, 0, Digit);
    }
    if HasAllClasses(s) {
      var p: int :| 0 <= p <= |s| && Ahead(s, p, Lower) && Ahead(s, p, Upper) && Ahead(s, p, Digit);
      var lo: int :| 0 <= lo < |s| && ReachesClass(s, p, lo, Lower);
      var up: int :| 0 <= up < |s| && ReachesClass(s, p, up, Upper);
      var dg: int :| 0 <= dg < |s| && ReachesClass(s, p, dg, Digit);
      assert ClassAt(s, lo, Lower);
      assert ClassAt(s, up, Upper);
      assert ClassAt(s, dg, Digit);
    }
  }

  /** The classes must share one line: a line break between them defeats the rule. */
  lemma ClassesSplitAcrossLines()
    ensures var s := "aA\n1"; Contains(s, Lower) && Contains(s, Upper) && Contains(s, Digit) && !HasAllClasses(s)
  {
    var s := "aA\n1";
    assert ClassAt(s, 0, Lower) && ClassAt(s, 1, Upper) && ClassAt(s, 3, Digit);
    assert IsLineTerminator(s[2]);
    forall d | 0 <= d < |s| ensures !ReachesClass(s, 0, d, Digit) {
      if d == 3 {
        assert !SameLine(s, 0, 3);
      }
    }
    forall p | 0 <= p <= |s| ensures !(Ahead(s, p, Lower) && Ahead(s, p, Digit)) {
      if Ahead(s, p, Lower) {
        var j: int :| 0 <= j < |s| && ReachesClass(s, p, j, Lower);
        assert p == 0;
      }
    }
  }

  /** Without an upper-case letter anywhere no start position passes the rule. */
  lemma MissingClassFails(s: string, k: CharClass)
    requires !Contains(s, k)
    ensures !HasAllClasses(s)
  {
    forall p | 0 <= p <= |s| ensures !Ahead(s, p, k) {
      forall j | ReachesClass(s, p, j, k) ensures false {
        assert ClassAt(s, j, k);
      }
    }
  }

  /** Rule example: seven characters is too short. */
  lemma ShortPasswordExample()
    ensures !StrongPassword("short1A")
  {
    CodeUnitsOfBmp("short1A");
  }

  /** Rule example: no upper-case letter fails even though it is long enough. */
  lemma LowercasePasswordExample()
    ensures Length("alllowercase1") >= MinPasswordLength
    ensures !StrongPassword("alllowercase1")
  {
    var v := "alllowercase1";
    CodeUnitsOfBmp(v);
    forall j | ClassAt(v, j, Upper) ensures false {
    }
    MissingClassFails(v, Upper);
  }

  /** Rule example: `GoodPass1` passes. */
  lemma GoodPasswordExample()
    ensures StrongPassword("GoodPass1")
  {
    var w := "GoodPass1";
    CodeUnitsOfBmp(w);
    SingleLineClasses(w);
    assert ClassAt(w, 1, Lower) && ClassAt(w, 0, Upper) && ClassAt(w, 8, Digit);
  }
}
