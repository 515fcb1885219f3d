/**
 * The part of JavaScript's `String.prototype.trim` that the to-do controller
 * relies on: `inputValue.trim() === ''` is the guard that rejects an empty or
 * whitespace-only submission. Strings are sequences of characters; the
 * whitespace set below is ECMAScript's WhiteSpace and LineTerminator
 * productions, all of which are single UTF-16 code units.
 */
module JsString {

  /** ECMAScript WhiteSpace (TAB, VT, FF, SP, NBSP, ZWNBSP, category Zs)
      and LineTerminator (LF, CR, LS, PS). */
  predicate IsWhitespace(c: char) {
    var n := c as int;
    n == 0x09 || n == 0x0A || n == 0x0B || n == 0x0C || n == 0x0D ||
    n == 0x20 || n == 0xA0 || n == 0x1680 ||
    (0x2000 <= n <= 0x200A) ||
    n == 0x2028 || n == 0x2029 || n == 0x202F || n == 0x205F ||
    n == 0x3000 || n == 0xFEFF
  }

  /** Every character of `s` is whitespace. */
  ghost predicate AllWhitespace(s: string) {
    forall i :: 0 <= i < |s| ==> IsWhitespace(s[i])
  }

  /** `r` is the slice `s[lo..hi]` and every character outside it is
      whitespace. */
  ghost predicate WhitespaceAround(s: string, r: string, lo: int, hi: int) {
    && 0 <= lo <= hi <= |s| && r == s[lo..hi]
    && (forall i :: 0 <= i < lo ==> IsWhitespace(s[i]))
    && (forall i :: hi <= i < |s| ==> IsWhitespace(s[i]))
  }

  /** Skips whitespace forward from `lo`: the index of the first character
      at or after `lo` that is not whitespace, or `|s|`. */
  function SkipForward(s: string, lo: nat): (n: nat)
    requires lo <= |s|
    ensures lo <= n <= |s|
    ensures forall i :: lo <= i < n ==> IsWhitespace(s[i])
    ensures n == |s| || !IsWhitespace(s[n])
    decreases |s| - lo
  {
    if lo < |s| && IsWhitespace(s[lo]) then SkipForward(s, lo + 1) else lo
  }

  /** Skips whitespace backward from `hi`, never below `lo`: the end of the
      longest slice `s[lo..m]` that does not end with whitespace. */
  function SkipBackward(s: string, lo: nat, hi: nat): (m: nat)
    requires lo <= hi <= |s|
    ensures lo <= m <= hi
    ensures forall i :: m <= i < hi ==> IsWhitespace(s[i])
    ensures m == lo || !IsWhitespace(s[m - 1])
  {
    if lo < hi && IsWhitespace(s[hi - 1]) then SkipBackward(s, lo, hi - 1) else hi
  }

  /** `s.trim()`: the slice of `s` left once the whitespace at both ends is
      removed; everything removed is whitespace and the slice neither starts
      nor ends with whitespace. */
  function Trim(s: string): (r: string)
    ensures exists lo, hi :: WhitespaceAround(s, r, lo, hi)
    ensures r == [] || (!IsWhitespace(r[0]) && !IsWhitespace(r[|r| - 1]))
  {
    var lo := SkipForward(s, 0);
    var hi := SkipBackward(s, lo, |s|);
    assert WhitespaceAround(s, s[lo..hi], lo, hi);
    s[lo..hi]
  }

  /** `s.trim() === ''` holds exactly when `s` is empty or whitespace only. */
  lemma TrimEmptyIffAllWhitespace(s: string)
    ensures Trim(s) == [] <==> AllWhitespace(s)
  {
    var r := Trim(s);
    var lo, hi :| WhitespaceAround(s, r, lo, hi);
    if r != [] {
      assert s[lo] == r[0];
    }
  }
}
