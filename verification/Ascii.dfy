/** ASCII case handling: JavaScript's `String.prototype.toUpperCase`
    restricted to the letters that occur in Ethereum addresses, and the
    case-insensitive comparison the orchestrator builds from it. */
module Ascii {

  predicate IsLower(c: char)
  {
    'a' <= c <= 'z'
  }

  /** Upper-cases one character; only `a`..`z` change. */
  function UpperChar(c: char): (u: char)
    ensures !IsLower(u)
    ensures u != c <==> IsLower(c)
  {
    if IsLower(c) then (c as int - 32) as char else c
  }

  /** `s.toUpperCase()`, character by character: a normalised string that
      spells the same letters as `s`. */
  function Upper(s: string): (u: string)
    ensures |u| == |s|
    ensures IsUpper(u)
    ensures EqualsIgnoringCase(u, s)
  {
    seq(|s|, i requires 0 <= i < |s| => UpperChar(s[i]))
  }

  /** Two strings spell the same letters, ignoring the case of each one. */
  predicate EqualsIgnoringCase(a: string, b: string)
  {
    && |a| == |b|
    && forall i :: 0 <= i < |a| ==> (a[i] == b[i] || (IsLower(a[i]) && b[i] as int == a[i] as int - 32)
                                                  || (IsLower(b[i]) && a[i] as int == b[i] as int - 32))
  }

  /** A string is normalised when upper-casing leaves it unchanged. */
  predicate IsUpper(s: string)
  {
    forall i :: 0 <= i < |s| ==> !IsLower(s[i])
  }

  /** Executable upper-casing, one character per iteration: the result
      spells the letters of `s` and has no lower-case letter, which by
      `UpperUnique` makes it `Upper(s)`. */
  method ToUpperCase(s: string) returns (r: string)
    ensures EqualsIgnoringCase(r, s)
    ensures IsUpper(r)
  {
    r := [];
    var i := 0;
    while i < |s|
      invariant 0 <= i <= |s|
      invariant |r| == i
      invariant forall j :: 0 <= j < i ==> r[j] == UpperChar(s[j])
    {
      r := r + [UpperChar(s[i])];
      i := i + 1;
    }
  }

  /** There is only one normalised spelling of a string: any normalised
      case variant of `s` is `Upper(s)`. */
  lemma UpperUnique(r: string, s: string)
    requires IsUpper(r) && EqualsIgnoringCase(r, s)
    ensures r == Upper(s)
  {
    forall i | 0 <= i < |r|
      ensures r[i] == Upper(s)[i]
    {
      assert !IsLower(r[i]);
    }
  }

  /** Normalising twice is normalising once. */
  lemma UpperIdempotent(s: string)
    ensures Upper(Upper(s)) == Upper(s)
  {
  }

  /** A normalised string is its own upper-case form. */
  lemma UpperFixesUpper(s: string)
    requires IsUpper(s)
    ensures Upper(s) == s
  {
  }

  /** Comparing upper-cased forms, as application.js does, is exactly
      case-insensitive equality, in both directions. */
  lemma UpperEqIff(a: string, b: string)
    ensures Upper(a) == Upper(b) <==> EqualsIgnoringCase(a, b)
  {
    if Upper(a) == Upper(b) {
      forall i | 0 <= i < |a|
        ensures a[i] == b[i] || (IsLower(a[i]) && b[i] as int == a[i] as int - 32)
                || (IsLower(b[i]) && a[i] as int == b[i] as int - 32)
      {
        assert Upper(a)[i] == Upper(b)[i];
      }
    }
    if EqualsIgnoringCase(a, b) {
      forall i | 0 <= i < |a|
        ensures Upper(a)[i] == Upper(b)[i]
      {
      }
    }
  }
}
