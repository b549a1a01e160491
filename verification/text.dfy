/** `String.toLowerCase` and the case-insensitive comparison it induces, used to
    normalise server addresses. */
module Text {

  /** The lower-case form of one character (letters `A`..`Z` only). */
  function LowerChar(c: char): char
  {
    if 'A' <= c <= 'Z' then (c as int + 32) as char else c
  }

  predicate IsLowerCase(s: string)
  {
    forall i :: 0 <= i < |s| ==> LowerChar(s[i]) == s[i]
  }

  /** `a.equalsIgnoreCase(b)` for the characters `LowerChar` covers. */
  predicate EqualsIgnoreCase(a: string, b: string)
  {
    |a| == |b| && forall i :: 0 <= i < |a| ==> LowerChar(a[i]) == LowerChar(b[i])
  }

  /** `s.toLowerCase()`: the result is lower case and equal to `s` up to case. */
  function ToLower(s: string): (r: string)
    ensures IsLowerCase(r) && EqualsIgnoreCase(r, s)
  {
    if s == [] then [] else
    var rest := ToLower(s[1..]);
    assert forall i :: 1 <= i < |s| ==> LowerChar(s[i]) == LowerChar(rest[i - 1]);
    [LowerChar(s[0])] + rest
  }

  /** Lower-casing an already lower-case string changes nothing; in particular
      lower-casing twice is the same as lower-casing once. */
  lemma ToLowerFixesLowerCase(s: string)
    requires IsLowerCase(s)
    ensures ToLower(s) == s
  {
  }

  lemma ToLowerIdempotent(s: string)
    ensures ToLower(ToLower(s)) == ToLower(s)
  {
    ToLowerFixesLowerCase(ToLower(s));
  }

  /** Two strings are equal ignoring case exactly when they lower-case to the
      same string: the key under which a cache stores an address. */
  lemma SameKeyIffEqualIgnoringCase(a: string, b: string)
    ensures ToLower(a) == ToLower(b) <==> EqualsIgnoreCase(a, b)
  {
  }
}
