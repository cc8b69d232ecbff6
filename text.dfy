/** String operations of Python's `str` that the tagger relies on, over `seq<char>`. */
module Text {

  /** `c.upper()` for ASCII characters; every other character is left as it is. */
  function UpperChar(c: char): (u: char)
    ensures 'a' <= c <= 'z' ==> u as int == c as int - 32
    ensures !('a' <= c <= 'z') ==> u == c
  {
    if 'a' <= c <= 'z' then (c as int - 32) as char else c
  }

  /** `s.upper()` restricted to ASCII case mapping. */
  function Upper(s: string): (r: string)
    ensures |r| == |s|
    ensures forall i :: 0 <= i < |s| ==> r[i] == UpperChar(s[i])
  {
    if s == [] then [] else [UpperChar(s[0])] + Upper(s[1..])
  }

  /** `sub` occurs in `s` starting at index `i`. */
  predicate OccursAt(s: string, sub: string, i: int)
  {
    0 <= i <= |s| - |sub| && s[i..i + |sub|] == sub
  }

  /** `sub in s`: some window of `s` equals `sub`. */
  predicate Contains(s: string, sub: string)
  {
    exists i | 0 <= i <= |s| :: OccursAt(s, sub, i)
  }

  /** `s.endswith(suffix)`. */
  predicate EndsWith(s: string, suffix: string)
  {
    |suffix| <= |s| && s[|s| - |suffix|..] == suffix
  }

  /** `s.removesuffix(suffix)`: drop the suffix when `s` ends with it (and it is not empty). */
  function RemoveSuffix(s: string, suffix: string): (r: string)
    ensures suffix != [] && EndsWith(s, suffix) ==> r + suffix == s
    ensures !(suffix != [] && EndsWith(s, suffix)) ==> r == s
  {
    if suffix != [] && EndsWith(s, suffix) then s[..|s| - |suffix|] else s
  }

  /** `s.replace(from, to)` for one-character `from` and `to`, walking `s` from the left. */
  function ReplaceChar(s: string, from: char, to: char): (r: string)
    ensures |r| == |s|
    ensures forall i :: 0 <= i < |s| ==> r[i] == (if s[i] == from then to else s[i])
  {
    if s == [] then [] else [if s[0] == from then to else s[0]] + ReplaceChar(s[1..], from, to)
  }

  /** `s.removesuffix(suffix)` undoes appending a non-empty suffix. */
  lemma RemoveAppendedSuffix(s: string, suffix: string)
    requires suffix != []
    ensures RemoveSuffix(s + suffix, suffix) == s
  {
    assert (s + suffix)[|s + suffix| - |suffix|..] == suffix;
    assert (s + suffix)[..|s|] == s;
  }
}
