/**
 * The case-insensitive comparison `caseInsensitiveCompare` of main.c.
 * A Dafny string stands for the characters of a C string before its
 * terminating NUL, so the end of the sequence plays the terminator's part.
 */
module Text {

  /** `tolower` in the "C" locale: ASCII upper-case letters map to lower case, all else is kept. */
  function ToLower(c: char): char
  {
    if 'A' <= c <= 'Z' then (c as int + 32) as char else c
  }

  /** `s` with every character folded by `ToLower`. */
  function Lowered(s: string): (r: string)
    ensures |r| == |s|
  {
    if s == [] then [] else [ToLower(s[0])] + Lowered(s[1..])
  }

  /**
   * The relation the comparison decides: equal length and the same
   * character at every position after folding. There is no substring
   * or prefix matching.
   */
  predicate EqualIgnoringCase(a: string, b: string)
  {
    |a| == |b| && forall i :: 0 <= i < |a| ==> ToLower(a[i]) == ToLower(b[i])
  }

  /**
   * The pointer loop: walk both strings while neither has ended, give up at
   * the first folded mismatch, and at the end report whether both ended together.
   */
  method CaseInsensitiveCompare(a: string, b: string) returns (eq: bool)
    ensures eq == EqualIgnoringCase(a, b)
  {
    var i := 0;
    while i < |a| && i < |b|
      invariant 0 <= i <= |a| && i <= |b|
      invariant forall k :: 0 <= k < i ==> ToLower(a[k]) == ToLower(b[k])
    {
      if ToLower(a[i]) != ToLower(b[i]) {
        return false;
      }
      i := i + 1;
    }
    eq := i == |a| && i == |b|;
  }

  lemma {:induction false} LoweredAt(s: string, i: nat)
    requires i < |s|
    ensures Lowered(s)[i] == ToLower(s[i])
  {
    if i > 0 {
      LoweredAt(s[1..], i - 1);
    }
  }

  /** The comparison is equality of the folded strings. */
  lemma EqualIgnoringCaseIsLoweredEquality(a: string, b: string)
    ensures EqualIgnoringCase(a, b) <==> Lowered(a) == Lowered(b)
  {
    if EqualIgnoringCase(a, b) {
      forall i | 0 <= i < |a| ensures Lowered(a)[i] == Lowered(b)[i] {
        LoweredAt(a, i);
        LoweredAt(b, i);
      }
    }
    if Lowered(a) == Lowered(b) {
      forall i | 0 <= i < |a| ensures ToLower(a[i]) == ToLower(b[i]) {
        LoweredAt(a, i);
        LoweredAt(b, i);
      }
    }
  }

  /** Reflexive, symmetric and transitive: an equivalence on strings. */
  lemma EqualIgnoringCaseIsEquivalence(a: string, b: string, c: string)
    ensures EqualIgnoringCase(a, a)
    ensures EqualIgnoringCase(a, b) ==> EqualIgnoringCase(b, a)
    ensures EqualIgnoringCase(a, b) && EqualIgnoringCase(b, c) ==> EqualIgnoringCase(a, c)
  {
  }

  /** Strings of different lengths never match. */
  lemma LengthsMustAgree(a: string, b: string)
    requires |a| != |b|
    ensures !EqualIgnoringCase(a, b)
  {
  }

  /** A strict prefix or a strict suffix never matches, in either argument order. */
  lemma ProperPrefixNeverMatches(a: string, rest: string)
    requires rest != []
    ensures !EqualIgnoringCase(a, a + rest) && !EqualIgnoringCase(a + rest, a)
    ensures !EqualIgnoringCase(a, rest + a) && !EqualIgnoringCase(rest + a, a)
  {
  }

  /** Letters that differ only in case match; a trailing blank does not. */
  lemma CaseIsIgnored()
    ensures EqualIgnoringCase("Depot", "DEPOT")
    ensures !EqualIgnoringCase("Depot", "Depot ")
  {
    var a, b := "Depot", "DEPOT";
    assert ToLower(b[0]) == 'd' && ToLower(b[1]) == 'e' && ToLower(b[2]) == 'p';
    assert ToLower(b[3]) == 'o' && ToLower(b[4]) == 't';
  }
}
