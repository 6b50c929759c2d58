/**
 Python's str.lower() and str.capitalize(), restricted to ASCII letters.
 Every character other than 'A'..'Z' / 'a'..'z' is left as it is.
 */
module Ascii {

  predicate IsUpperChar(c: char) { 'A' <= c <= 'Z' }

  predicate IsLowerChar(c: char) { 'a' <= c <= 'z' }

  predicate IsLetter(c: char) { IsUpperChar(c) || IsLowerChar(c) }

  function LowerChar(c: char): char
  {
    if IsUpperChar(c) then (c as int + 32) as char else c
  }

  function UpperChar(c: char): char
  {
    if IsLowerChar(c) then (c as int - 32) as char else c
  }

  /** No upper-case ASCII letter occurs in s. */
  predicate IsLower(s: string)
  {
    forall i :: 0 <= i < |s| ==> !IsUpperChar(s[i])
  }

  /** str.lower(): every upper-case ASCII letter becomes its lower-case partner. */
  function Lower(s: string): (r: string)
    ensures |r| == |s|
    ensures forall i :: 0 <= i < |s| ==> r[i] == LowerChar(s[i])
    ensures IsLower(r)
  {
    if s == [] then [] else [LowerChar(s[0])] + Lower(s[1..])
  }

  /**
   str.capitalize(): the first character in upper case, all others in lower case.
   Only letters change, and only their case.
   */
  function Capitalize(s: string): (r: string)
    ensures |r| == |s|
    ensures |r| > 0 ==> !IsLowerChar(r[0])
    ensures forall i :: 1 <= i < |r| ==> !IsUpperChar(r[i])
    ensures forall i :: 0 <= i < |s| && !IsLetter(s[i]) ==> r[i] == s[i]
    ensures forall i :: 0 <= i < |s| && IsLetter(s[i]) ==> IsLetter(r[i])
    ensures Lower(r) == Lower(s)
  {
    if s == [] then []
    else
      var r := [UpperChar(s[0])] + Lower(s[1..]);
      assert Lower(r) == Lower(s) by {
        forall i | 0 <= i < |s| ensures Lower(r)[i] == Lower(s)[i] {
          if i > 0 { assert r[i] == LowerChar(s[i]); }
        }
      }
      r
  }

  /** Lowering twice is lowering once. */
  lemma LowerIdempotent(s: string)
    ensures Lower(Lower(s)) == Lower(s)
  {
    assert forall i :: 0 <= i < |s| ==> Lower(Lower(s))[i] == Lower(s)[i];
  }

  /** A string is its own lower-case form exactly when it holds no upper-case letter. */
  lemma LowerFixedIff(s: string)
    ensures Lower(s) == s <==> IsLower(s)
  {
    if IsLower(s) {
      assert forall i :: 0 <= i < |s| ==> Lower(s)[i] == s[i];
    }
  }

  /** capitalize() ignores the case of its argument: it only depends on the lower-case form. */
  lemma CapitalizeIgnoresCase(a: string, b: string)
    requires Lower(a) == Lower(b)
    ensures Capitalize(a) == Capitalize(b)
  {
    if a != [] {
      assert LowerChar(a[0]) == LowerChar(b[0]);
      assert UpperChar(a[0]) == UpperChar(b[0]);
      forall i | 0 <= i < |a| - 1 ensures Lower(a[1..])[i] == Lower(b[1..])[i] {
        assert LowerChar(a[i + 1]) == LowerChar(b[i + 1]);
      }
      assert Lower(a[1..]) == Lower(b[1..]);
    }
  }

  /** On lower-case strings capitalize() loses nothing: the original is its lower-case form. */
  lemma CapitalizeInjectiveOnLower(a: string, b: string)
    requires IsLower(a) && IsLower(b)
    requires Capitalize(a) == Capitalize(b)
    ensures a == b
  {
    LowerFixedIff(a);
    LowerFixedIff(b);
  }
}
