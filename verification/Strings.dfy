/** The few string operations several programs share, as Python has them. */
module Strings {
  predicate StartsWith(s: string, p: string) {
    |p| <= |s| && s[..|p|] == p
  }

  predicate OccursAt(s: string, word: string, i: int) {
    0 <= i && i + |word| <= |s| && s[i..i + |word|] == word
  }

  predicate Contains(s: string, word: string) {
    exists i :: 0 <= i <= |s| && OccursAt(s, word, i)
  }

  predicate Digit(c: char) {
    '0' <= c <= '9'
  }

  /** A hexadecimal digit in lower case. */
  predicate HexDigit(c: char) {
    Digit(c) || 'a' <= c <= 'f'
  }

  predicate AllDigits(s: string) {
    forall c :: c in s ==> Digit(c)
  }

  /** What `str.isspace` calls whitespace. */
  predicate Space(c: char) {
    var n := c as int;
    9 <= n <= 13 || 28 <= n <= 32 || n == 0x85 || n == 0xA0 || n == 0x1680 || 0x2000 <= n <= 0x200A
    || n == 0x2028 || n == 0x2029 || n == 0x202F || n == 0x205F || n == 0x3000
  }

  function LeftStrip(s: string): (r: string)
    ensures |r| <= |s| && (r != "" ==> !Space(r[0]))
  {
    if s != "" && Space(s[0]) then LeftStrip(s[1..]) else s
  }

  function RightStrip(s: string): (r: string)
    ensures r <= s && (r != "" ==> !Space(r[|r| - 1]))
  {
    if s != "" && Space(s[|s| - 1]) then RightStrip(s[..|s| - 1]) else s
  }

  function Strip(s: string): string {
    RightStrip(LeftStrip(s))
  }

  lemma {:induction false} LeftStripKeeps(s: string)
    ensures forall c :: c in LeftStrip(s) ==> c in s
  {
    if s != "" && Space(s[0]) { LeftStripKeeps(s[1..]); }
  }

  lemma StripKeeps(s: string)
    ensures forall c :: c in Strip(s) ==> c in s
  {
    LeftStripKeeps(s);
  }
}
