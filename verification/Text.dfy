/**
 * Character-level text operations used by the request handler: the
 * lowercasing that Python's `str.lower` performs on the characters this model
 * covers, case-insensitive comparison, and substring containment.
 */
module Text {

  /** Capitals whose lowercase form is the code point 0x20 higher: ASCII
      A-Z, the Latin-1 capitals U+00C0..U+00DE except U+00D7 (the
      multiplication sign), the Greek capitals U+0391..U+03AB except the
      unassigned U+03A2 and the sigma U+03A3, and the Cyrillic capitals
      U+0410..U+042F. */
  predicate IsShiftedCapital(c: char) {
    || ('A' <= c <= 'Z')
    || (0xC0 <= c as int <= 0xDE && c as int != 0xD7)
    || (0x391 <= c as int <= 0x3AB && c as int != 0x3A2 && c as int != 0x3A3)
    || (0x410 <= c as int <= 0x42F)
  }

  /** The upper-case letters this model lowercases: the shifted capitals, the
      Cyrillic capitals U+0400..U+040F, the Kelvin sign U+212A and the
      Angstrom sign U+212B. */
  predicate IsUpper(c: char) {
    || IsShiftedCapital(c)
    || (0x400 <= c as int <= 0x40F)
    || c == '\U{212A}'
    || c == '\U{212B}'
  }

  /** The lowercase form of one character; characters that are not upper-case
      letters are returned unchanged. The Kelvin sign lowercases to the ASCII
      letter `k`. */
  function LowerChar(c: char): char {
    if IsShiftedCapital(c) then (c as int + 0x20) as char
    else if 0x400 <= c as int <= 0x40F then (c as int + 0x50) as char
    else if c == '\U{212A}' then 'k'
    else if c == '\U{212B}' then '\U{e5}'
    else c
  }

  /** No character of `s` is an upper-case letter. */
  predicate IsLowerCase(s: string) {
    forall i :: 0 <= i < |s| ==> !IsUpper(s[i])
  }

  /** Lowercases a string character by character, as `str.lower` does. */
  function Lower(s: string): (r: string)
    ensures |r| == |s|
    ensures forall i :: 0 <= i < |s| ==> r[i] == LowerChar(s[i])
    ensures IsLowerCase(r)
  {
    if s == [] then [] else [LowerChar(s[0])] + Lower(s[1..])
  }

  /** `a` and `b` differ at most in the case of their letters. */
  predicate SameIgnoringCase(a: string, b: string) {
    && |a| == |b|
    && forall i :: 0 <= i < |a| ==> LowerChar(a[i]) == LowerChar(b[i])
  }

  /** `t` occurs in `s` starting at position `i`. */
  predicate OccursAt(s: string, t: string, i: int) {
    0 <= i <= |s| - |t| && s[i..i + |t|] == t
  }

  /** `t` occurs in `s` as a contiguous substring. */
  predicate Contains(s: string, t: string) {
    exists i :: 0 <= i <= |s| && OccursAt(s, t, i)
  }

  /** A string without upper-case letters is left unchanged by `Lower`, and
      only such strings are. */
  lemma LowerFixedPoints(s: string)
    ensures Lower(s) == s <==> IsLowerCase(s)
  {
  }

  /** Lowercasing is idempotent. */
  lemma LowerIdempotent(s: string)
    ensures Lower(Lower(s)) == Lower(s)
  {
  }

  /** Lowercasing distributes over concatenation. */
  lemma LowerAppend(a: string, b: string)
    ensures Lower(a + b) == Lower(a) + Lower(b)
  {
  }

  /** Two strings are equal ignoring case exactly when their lowercase forms
      are equal. */
  lemma SameIgnoringCaseIffLowerEqual(a: string, b: string)
    ensures SameIgnoringCase(a, b) <==> Lower(a) == Lower(b)
  {
  }

  /** A string that occurs at a known position is contained. */
  lemma ContainsAt(s: string, t: string, i: nat)
    requires OccursAt(s, t, i)
    ensures Contains(s, t)
  {
  }
}
