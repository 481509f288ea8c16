/**
 * Wide-string helpers shared by the settings store and the explorer:
 * the case-insensitive comparison that `_wcsicmp` and `CString::CompareNoCase`
 * perform (C locale: only 'A'..'Z' fold to lower case), `CString::TrimRight`
 * and `CString::Left`.
 */
module Text {

  /** Lower-case mapping of the C locale. */
  function Lower(c: char): (r: char)
    ensures 'A' <= c <= 'Z' ==> r as int == c as int + 32
    ensures !('A' <= c <= 'Z') ==> r == c
  {
    if 'A' <= c <= 'Z' then (c as int + 32) as char else c
  }

  /** The string `_wcsicmp` actually compares: every character lowered. */
  function FoldCase(s: string): (r: string)
    ensures |r| == |s|
    ensures forall i :: 0 <= i < |s| ==> r[i] == Lower(s[i])
  {
    seq(|s|, i requires 0 <= i < |s| => Lower(s[i]))
  }

  /** Lexicographic order on code units, a proper prefix being smaller (the terminating NUL sorts first). */
  predicate LexLess(x: string, y: string)
  {
    if x == [] then y != []
    else if y == [] then false
    else if x[0] != y[0] then x[0] < y[0]
    else LexLess(x[1..], y[1..])
  }

  /** `Settings::LessNoCase`: `_wcsicmp(s1, s2) < 0`, a strict order as `std::map` needs. */
  predicate LessNoCase(s1: string, s2: string)
    ensures LessNoCase(s1, s2) ==> !LexLess(FoldCase(s2), FoldCase(s1))
    ensures EqualsNoCase(s1, s2) ==> !LessNoCase(s1, s2)
  {
    LexLessAsymmetric(FoldCase(s1), FoldCase(s2));
    LexLessIrreflexive(FoldCase(s1));
    LexLess(FoldCase(s1), FoldCase(s2))
  }

  /** `CString::CompareNoCase(a, b) == 0`. */
  predicate EqualsNoCase(a: string, b: string)
  {
    FoldCase(a) == FoldCase(b)
  }

  lemma {:induction false} LexLessIrreflexive(x: string)
    ensures !LexLess(x, x)
  {
    if x != [] {
      LexLessIrreflexive(x[1..]);
    }
  }

  lemma {:induction false} LexLessAsymmetric(x: string, y: string)
    ensures LexLess(x, y) ==> !LexLess(y, x)
  {
    if x != [] && y != [] && x[0] == y[0] {
      LexLessAsymmetric(x[1..], y[1..]);
    }
  }

  lemma {:induction false} LexLessTotal(x: string, y: string)
    requires x != y
    ensures LexLess(x, y) || LexLess(y, x)
  {
    if x != [] && y != [] && x[0] == y[0] {
      assert x == [x[0]] + x[1..] && y == [y[0]] + y[1..];
      LexLessTotal(x[1..], y[1..]);
    }
  }

  /**
   * A `std::map` ordered by LessNoCase treats two names as the same key exactly
   * when neither is less than the other; that happens exactly when they are equal
   * ignoring case.
   */
  lemma SameKeyIffEqualsNoCase(s1: string, s2: string)
    ensures (!LessNoCase(s1, s2) && !LessNoCase(s2, s1)) <==> EqualsNoCase(s1, s2)
  {
    if FoldCase(s1) == FoldCase(s2) {
      LexLessIrreflexive(FoldCase(s1));
    } else {
      LexLessTotal(FoldCase(s1), FoldCase(s2));
    }
  }

  /** Folding is idempotent, so a folded key addresses itself. */
  lemma FoldCaseIdempotent(s: string)
    ensures FoldCase(FoldCase(s)) == FoldCase(s)
  {
  }

  /** `CString::TrimRight(c)`: drop every trailing `c`. */
  function TrimRight(s: string, c: char): (r: string)
    ensures |r| <= |s| && r == s[..|r|]
    ensures r == [] || r[|r| - 1] != c
    ensures forall i :: |r| <= i < |s| ==> s[i] == c
  {
    if s == [] || s[|s| - 1] != c then s else TrimRight(s[..|s| - 1], c)
  }

  /** `CString::Left(n) == prefix` for a string of length n. */
  predicate LeftEquals(s: string, prefix: string)
  {
    s[..if |s| < |prefix| then |s| else |prefix|] == prefix
  }
}
