/**
 toupper for ASCII characters.
 */
module Ascii {

  function ToUpper(c: char): char { if 'a' <= c <= 'z' then 'A' + (c - 'a') else c }

  /** d is the upper case of c. */
  predicate UpperOf(c: char, d: char)
  {
    'a' <= c <= 'z' && 'A' <= d <= 'Z' && c as int - 'a' as int == d as int - 'A' as int
  }

  /** What a comparison takes for the same character: without regard to case, also the two cases of one ASCII letter. */
  predicate SameChar(c: char, d: char, caseSensitive: bool)
  {
    c == d || (!caseSensitive && (UpperOf(c, d) || UpperOf(d, c)))
  }

  lemma ToUpperMeans(c: char, d: char)
    ensures ToUpper(c) == ToUpper(d) <==> SameChar(c, d, false)
  {
  }

  /** The same characters one by one. */
  ghost predicate Alike(s: string, t: string, caseSensitive: bool)
  {
    |s| == |t| && forall i :: 0 <= i < |s| ==> SameChar(s[i], t[i], caseSensitive)
  }
}
