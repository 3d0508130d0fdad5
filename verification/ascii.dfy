/** ASCII case handling: Java's `String.toUpperCase()` and
    `String.equalsIgnoreCase`, restricted to the letters `a`-`z`. */
module Ascii {

  predicate IsLower(c: char) {
    'a' <= c <= 'z'
  }

  /** The upper-case form of one character; only `a`-`z` change. */
  function UpperChar(c: char): char {
    if IsLower(c) then (c as int - ('a' as int - 'A' as int)) as char else c
  }

  /** True when no character of `s` is a lower-case letter. */
  predicate NoLower(s: string) {
    forall i :: 0 <= i < |s| ==> !IsLower(s[i])
  }

  /** `s.toUpperCase()`. */
  function ToUpper(s: string): (r: string)
    ensures |r| == |s|
    ensures forall i :: 0 <= i < |s| ==> r[i] == UpperChar(s[i])
    ensures NoLower(r)
  {
    if s == [] then [] else [UpperChar(s[0])] + ToUpper(s[1..])
  }

  /** `a.equalsIgnoreCase(b)`: equal lengths, and the characters agree
      position by position once both are upper-cased. */
  predicate EqualsIgnoreCase(a: string, b: string): (eq: bool)
    ensures a == b ==> eq
  {
    |a| == |b| && forall i :: 0 <= i < |a| ==> UpperChar(a[i]) == UpperChar(b[i])
  }

  /** Comparing ignoring case is comparing the upper-cased strings. */
  lemma EqualsIgnoreCaseIffSameUpper(a: string, b: string)
    ensures EqualsIgnoreCase(a, b) <==> ToUpper(a) == ToUpper(b)
  {
    if ToUpper(a) == ToUpper(b) {
      assert |a| == |ToUpper(a)|;
      forall i | 0 <= i < |a|
        ensures UpperChar(a[i]) == UpperChar(b[i])
      {
        assert ToUpper(a)[i] == ToUpper(b)[i];
      }
    }
  }

  /** A string without lower-case letters is its own upper-case form. */
  lemma {:induction false} ToUpperOfNoLower(s: string)
    requires NoLower(s)
    ensures ToUpper(s) == s
  {
    if s != [] {
      ToUpperOfNoLower(s[1..]);
    }
  }

  /** Upper-casing twice is upper-casing once. */
  lemma ToUpperIdempotent(s: string)
    ensures ToUpper(ToUpper(s)) == ToUpper(s)
  {
    ToUpperOfNoLower(ToUpper(s));
  }

  /** A `switch` on `s.toUpperCase()` with an upper-case literal matches exactly
      when `s` equals the literal ignoring case. */
  lemma MatchesUpperLiteral(s: string, lit: string)
    requires NoLower(lit)
    ensures ToUpper(s) == lit <==> EqualsIgnoreCase(s, lit)
  {
    EqualsIgnoreCaseIffSameUpper(s, lit);
    ToUpperOfNoLower(lit);
  }
}
