/** Character classes and case mapping that the input parsers rely on,
    restricted to the ASCII range.

    Python's `str.strip()` removes every character for which
    `str.isspace()` holds and `str.upper()` applies the full Unicode case
    mapping. On ASCII characters those are: the whitespace characters
    TAB, LF, VT, FF, CR (9..13), the four separators FS, GS, RS, US
    (28..31) and SPACE (32); and the 26 letters `a`..`z` going to `A`..`Z`.
    Every other character is treated here as neither whitespace nor cased.
 */
module Ascii {

  /** The lower-case and upper-case ASCII alphabets, position by position. */
  const LowerAlphabet: string := "abcdefghijklmnopqrstuvwxyz"
  const UpperAlphabet: string := "ABCDEFGHIJKLMNOPQRSTUVWXYZ"

  /** Python's `c.isspace()` on an ASCII character. */
  predicate IsSpace(c: char) {
    var n := c as int;
    (9 <= n <= 13) || (28 <= n <= 32)
  }

  predicate IsLower(c: char) {
    'a' <= c <= 'z'
  }

  /** Every character of `s` is whitespace (vacuously true of ""). */
  predicate AllSpace(s: string) {
    forall k :: 0 <= k < |s| ==> IsSpace(s[k])
  }

  /** No character of `s` is a lower-case ASCII letter. */
  predicate NoLower(s: string) {
    forall k :: 0 <= k < |s| ==> !IsLower(s[k])
  }

  /** Python's `c.upper()` on one ASCII character. */
  function ToUpperChar(c: char): (u: char)
    ensures !IsLower(u)
    ensures forall k :: 0 <= k < |LowerAlphabet| && c == LowerAlphabet[k] ==> u == UpperAlphabet[k]
    ensures !IsLower(c) ==> u == c
    ensures IsLower(c) ==> 'A' <= u <= 'Z'
    ensures IsSpace(u) <==> IsSpace(c)
  {
    if IsLower(c) then (c as int - 32) as char else c
  }

  /** Python's `s.upper()` on a string, one character at a time. */
  function ToUpper(s: string): (r: string)
    ensures |r| == |s|
    ensures forall k :: 0 <= k < |s| ==> r[k] == ToUpperChar(s[k])
    ensures NoLower(r)
  {
    if |s| == 0 then "" else [ToUpperChar(s[0])] + ToUpper(s[1..])
  }

  /** Upper-casing a string with no lower-case letters leaves it alone;
      in particular upper-casing twice is the same as once. */
  lemma ToUpperFixesNoLower(s: string)
    requires NoLower(s)
    ensures ToUpper(s) == s
  {
  }

  lemma ToUpperIdempotent(s: string)
    ensures ToUpper(ToUpper(s)) == ToUpper(s)
  {
    ToUpperFixesNoLower(ToUpper(s));
  }
}
