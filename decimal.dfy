/**
 * `truncate_decimal` (src/main.rs): the string post-processing that
 * `size_str` applies to a formatted number, so that at most one digit
 * follows the decimal point. Digits are cut off, not rounded.
 */
module Decimal {

  import opened Wrappers

  const Point: char := '.'

  /** `chars().enumerate().filter(|(_, ch)| *ch == c).nth(0)`: the index of
      the first occurrence of `c`, or None when `c` does not occur. */
  function FirstIndexOf(s: string, c: char): (r: Option<nat>)
    ensures r.None? <==> c !in s
    ensures r.Some? ==> r.value < |s| && s[r.value] == c && c !in s[..r.value]
  {
    if s == [] then None
    else if s[0] == c then Some(0)
    else
      match FirstIndexOf(s[1..], c)
      case None => None
      case Some(i) =>
        assert s[..i + 1] == [s[0]] + s[1..][..i];
        Some(i + 1)
  }

  /** The slice `s[..index + 2]` exists: the first point is not the last character. */
  predicate CanTruncate(s: string)
  {
    match FirstIndexOf(s, Point)
    case None => true
    case Some(i) => i + 2 <= |s|
  }

  /** `truncate_decimal`: the prefix of `s` that ends one character after its
      first point, or `s` itself when it has no point. */
  function TruncateDecimal(s: string): (r: string)
    requires CanTruncate(s)
    ensures r <= s
    ensures Point !in s ==> r == s
    ensures Point in s ==> |r| >= 2 && r[|r| - 2] == Point && Point !in r[..|r| - 2]
  {
    match FirstIndexOf(s, Point)
    case None => s
    case Some(i) =>
      assert s[..i + 2][..i] == s[..i];
      s[..i + 2]
  }

  /** With the first point at index `i`, the result is the length-`i + 2`
      prefix: exactly one character follows the point. */
  lemma TruncateAtFirstPoint(s: string, i: nat)
    requires i + 2 <= |s| && s[i] == Point && Point !in s[..i]
    ensures CanTruncate(s)
    ensures TruncateDecimal(s) == s[..i + 2]
  {
    assert s[..i + 2][..i] == s[..i];
  }

  /** Truncating twice gives the same as truncating once. */
  lemma TruncateIdempotent(s: string)
    requires CanTruncate(s)
    ensures CanTruncate(TruncateDecimal(s))
    ensures TruncateDecimal(TruncateDecimal(s)) == TruncateDecimal(s)
  {
    var r := TruncateDecimal(s);
    if Point in s {
      TruncateAtFirstPoint(r, |r| - 2);
      assert r[..|r|] == r;
    }
  }

  /** The strings the margin tests expect: a point followed by one digit is
      left alone, and a longer fraction is cut, not rounded. */
  lemma MarginExamples()
    ensures CanTruncate("999.9") && TruncateDecimal("999.9") == "999.9"
    ensures CanTruncate("999.9999") && TruncateDecimal("999.9999") == "999.9"
  {
    TruncateAtFirstPoint("999.9", 3);
    TruncateAtFirstPoint("999.9999", 3);
  }

  /** A whole number, as in the "100b" and "1kb" tests, passes unchanged. */
  lemma WholeNumberExample()
    ensures CanTruncate("100") && TruncateDecimal("100") == "100"
  {
    assert Point !in "100";
  }
}
