/** The string operations the crawler relies on, with the meaning Python gives
    them: the substring test `sub in s`, `str.find` for one character, and
    lower-casing of ASCII letters. */
module Text {
  import opened Wrappers

  /** `sub` occurs in `s` starting at position `i`. */
  predicate OccursAt(s: string, sub: string, i: int) {
    0 <= i && i + |sub| <= |s| && s[i..i + |sub|] == sub
  }

  /** Python's `sub in s`. The empty string occurs in every string. */
  predicate Contains(s: string, sub: string) {
    exists i | 0 <= i <= |s| - |sub| :: OccursAt(s, sub, i)
  }

  lemma EmptyOccursEverywhere(s: string)
    ensures Contains(s, "")
  {
    assert OccursAt(s, "", 0);
  }

  /** Python's `s.find(c)` for a single character: the first position of `c`,
      or nothing when `c` does not occur. */
  function IndexOf(s: string, c: char): (r: Option<nat>)
    ensures r.None? <==> c !in s
    ensures r.Some? ==> r.value < |s| && s[r.value] == c
    ensures r.Some? ==> forall j | 0 <= j < r.value :: s[j] != c
  {
    if |s| == 0 then None
    else if s[0] == c then Some(0)
    else
      assert s == [s[0]] + s[1..];
      match IndexOf(s[1..], c)
      case None => None
      case Some(k) => Some(k + 1)
  }

  predicate IsAsciiUpper(c: char) { 'A' <= c <= 'Z' }

  predicate IsAsciiLetter(c: char) { 'a' <= c <= 'z' || IsAsciiUpper(c) }

  predicate IsDigit(c: char) { '0' <= c <= '9' }

  /** `str.lower()` on one character, for the ASCII letters it is applied to here. */
  function LowerChar(c: char): (r: char)
    ensures IsAsciiUpper(c) ==> 'a' <= r <= 'z' && r as int == c as int + 32
    ensures !IsAsciiUpper(c) ==> r == c
  {
    if IsAsciiUpper(c) then (c as int + 32) as char else c
  }

  /** `str.lower()` on a string of ASCII characters. */
  function Lower(s: string): (r: string)
    ensures |r| == |s|
    ensures forall i | 0 <= i < |s| :: r[i] == LowerChar(s[i])
  {
    seq(|s|, i requires 0 <= i < |s| => LowerChar(s[i]))
  }
}
