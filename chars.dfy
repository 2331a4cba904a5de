/**
 * Character classes of the poller's regular expressions and string methods,
 * restricted to ASCII: `\s`, `\d`, `\w` (and so `\b`), and the case folding
 * of `re.I` and `str.lower()`.
 */
module Chars {

  /** `\s` in a str pattern and `str.isspace()`, on ASCII: tab, line feed,
      vertical tab, form feed, carriage return, the separators 0x1C-0x1F
      and the space. */
  predicate IsSpace(c: char) {
    c == ' ' || ('\U{9}' <= c <= '\U{D}') || ('\U{1C}' <= c <= '\U{1F}')
  }

  /** `\d` */
  predicate IsDigit(c: char) {
    '0' <= c <= '9'
  }

  predicate IsLetter(c: char) {
    'a' <= c <= 'z' || 'A' <= c <= 'Z'
  }

  /** `\w`; a `\b` lies between a word character and a non-word character. */
  predicate IsWord(c: char) {
    IsDigit(c) || IsLetter(c) || c == '_'
  }

  /** ASCII `str.lower()` of one character. */
  function Lower(c: char): (r: char)
    ensures 'a' <= r <= 'z' <==> IsLetter(c)
    ensures IsSpace(r) <==> IsSpace(c)
    ensures !IsLetter(c) ==> r == c
    ensures 'A' <= c <= 'Z' ==> r as int == c as int + 32
    ensures 'a' <= c <= 'z' ==> r == c
  {
    if 'A' <= c <= 'Z' then (c as int + 32) as char else c
  }

  /** `s.lower()` */
  function LowerStr(s: string): (r: string)
    ensures |r| == |s|
    ensures forall i :: 0 <= i < |s| ==> r[i] == Lower(s[i])
  {
    seq(|s|, i requires 0 <= i < |s| => Lower(s[i]))
  }

  predicate AllSpace(s: string) {
    forall i :: 0 <= i < |s| ==> IsSpace(s[i])
  }

  /**
   * The first index from `j` on that does not hold whitespace: where a
   * greedy `\s+` begun at `j` stops, and where `strip()` finds the text.
   */
  function SkipSpaces(t: string, j: nat): (r: nat)
    requires j <= |t|
    ensures j <= r <= |t|
    ensures forall k :: j <= k < r ==> IsSpace(t[k])
    ensures r == |t| || !IsSpace(t[r])
    decreases |t| - j
  {
    if j < |t| && IsSpace(t[j]) then SkipSpaces(t, j + 1) else j
  }

  /** `needle` occurs in `hay` starting at index `i`. */
  predicate OccursAt(hay: string, needle: string, i: int) {
    0 <= i <= |hay| - |needle| && hay[i..i + |needle|] == needle
  }

  /** `needle in hay` for strings. */
  predicate Contains(hay: string, needle: string) {
    exists i | 0 <= i <= |hay| - |needle| :: OccursAt(hay, needle, i)
  }
}
