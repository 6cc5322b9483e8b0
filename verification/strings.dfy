/** The string operations the importer relies on: JavaScript's
    `String.prototype.includes`, a first-index search and ASCII lower-casing. */
module Strings {
  import opened Wrappers

  /** `sub` occurs in `s` starting at index `i`. */
  ghost predicate OccursAt(s: string, sub: string, i: int) {
    0 <= i && i + |sub| <= |s| && s[i..i + |sub|] == sub
  }

  /** An occurrence in `s[1..]` at `i` is an occurrence in `s` at `i + 1`, and back. */
  lemma ShiftOccurs(s: string, sub: string)
    requires |s| > 0
    ensures (exists i :: OccursAt(s[1..], sub, i)) <==> (exists j :: 1 <= j && OccursAt(s, sub, j))
  {
    if i :| OccursAt(s[1..], sub, i) {
      assert s[1..][i..i + |sub|] == s[i + 1..i + 1 + |sub|];
      assert OccursAt(s, sub, i + 1);
    }
    if j :| 1 <= j && OccursAt(s, sub, j) {
      assert s[1..][j - 1..j - 1 + |sub|] == s[j..j + |sub|];
      assert OccursAt(s[1..], sub, j - 1);
    }
  }

  /** `s.includes(sub)`: true exactly when `sub` occurs somewhere in `s`
      (the empty string occurs in every string). */
  function Contains(s: string, sub: string): (r: bool)
    ensures r <==> exists i :: OccursAt(s, sub, i)
    decreases |s|
  {
    if |sub| <= |s| && s[..|sub|] == sub then
      assert OccursAt(s, sub, 0);
      true
    else if |s| == 0 then
      false
    else
      ShiftOccurs(s, sub);
      assert !OccursAt(s, sub, 0);
      Contains(s[1..], sub)
  }

  /** Index of the first occurrence of `c` in `s`, if any. */
  function IndexOf(s: string, c: char): (r: Option<nat>)
    ensures r.None? <==> c !in s
    ensures r.Some? ==> r.value < |s| && s[r.value] == c
    ensures r.Some? ==> forall j :: 0 <= j < r.value ==> s[j] != c
  {
    if |s| == 0 then None
    else if s[0] == c then Some(0)
    else
      match IndexOf(s[1..], c)
      case None => None
      case Some(k) => Some(k + 1)
  }

  /** Lower-cases one character; only the ASCII letters A-Z change. */
  function LowerChar(c: char): char {
    if 'A' <= c <= 'Z' then (c as int + 32) as char else c
  }

  /** Upper-case partner of an ASCII lower-case letter; other characters are unchanged. */
  function UpperChar(c: char): char {
    if 'a' <= c <= 'z' then (c as int - 32) as char else c
  }

  /** `s.toLowerCase()` restricted to ASCII letters, character by character. */
  function ToLower(s: string): string {
    seq(|s|, i requires 0 <= i < |s| => LowerChar(s[i]))
  }

  /** Every character of `w` is a lower-case ASCII letter. */
  predicate IsLowerWord(w: string) {
    forall i :: 0 <= i < |w| ==> 'a' <= w[i] <= 'z'
  }

  /** Case-insensitive equality with a lower-case word, stated without
      lower-casing: each character of `s` is the word's letter or its capital. */
  lemma ToLowerMatchesWord(s: string, w: string)
    requires IsLowerWord(w)
    ensures ToLower(s) == w <==>
              |s| == |w| && forall i :: 0 <= i < |s| ==> s[i] == w[i] || s[i] == UpperChar(w[i])
  {
  }

  /** A string lacking some character of `sub` cannot contain `sub`. */
  lemma MissingCharExcludes(s: string, sub: string, c: char)
    requires c in sub && c !in s
    ensures !Contains(s, sub)
  {
  }

  /** Seven pieces joined: the first, third, fifth and seventh occur at
      increasing positions, each right after the separator before it. */
  lemma JoinedPiecesOccur(a: string, p: string, b: string, q: string, c: string, r: string, d: string)
    ensures OccursAt(a + p + b + q + c + r + d, a, 0)
    ensures OccursAt(a + p + b + q + c + r + d, b, |a + p|)
    ensures OccursAt(a + p + b + q + c + r + d, c, |a + p + b + q|)
    ensures OccursAt(a + p + b + q + c + r + d, d, |a + p + b + q + c + r|)
  {
  }
}
