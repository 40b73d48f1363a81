/**
 * Searching byte strings. A byte of text is written as the `char` with the same
 * code; nothing here looks at a code above 127, so every byte string is covered.
 */
module Text {
  predicate IsAt(s: string, c: char, i: int) {
    0 <= i < |s| && s[i] == c
  }

  function IndexByteFrom(s: string, c: char, i: nat): (r: int)
    requires i <= |s|
    ensures -1 <= r < |s|
    ensures r >= 0 ==> i <= r && IsAt(s, c, r)
    ensures forall k :: i <= k && IsAt(s, c, k) ==> 0 <= r <= k
    decreases |s| - i
  {
    if i == |s| then -1 else if s[i] == c then i else IndexByteFrom(s, c, i + 1)
  }

  /** The first index of `c` in `s`, or -1. */
  function IndexByte(s: string, c: char): (r: int)
    ensures -1 <= r < |s|
    ensures r >= 0 ==> IsAt(s, c, r)
    ensures forall k :: IsAt(s, c, k) ==> 0 <= r <= k
  {
    IndexByteFrom(s, c, 0)
  }

  predicate Free(s: string, c: char) {
    forall i :: 0 <= i < |s| ==> s[i] != c
  }

  lemma NoneBefore(s: string, c: char)
    ensures IndexByte(s, c) < 0 ==> Free(s, c)
    ensures IndexByte(s, c) >= 0 ==> Free(s[..IndexByte(s, c)], c)
  {
    forall i | 0 <= i < |s| && (IndexByte(s, c) < 0 || i < IndexByte(s, c)) ensures s[i] != c {
      assert !IsAt(s, c, i);
    }
  }

  lemma FirstByte(before: string, c: char, after: string)
    requires Free(before, c)
    ensures IndexByte(before + [c] + after, c) == |before|
  {
    var s := before + [c] + after;
    assert IsAt(s, c, |before|);
    assert forall k :: 0 <= k < |before| ==> s[k] == before[k];
  }

  lemma NoByte(s: string, c: char)
    requires Free(s, c)
    ensures IndexByte(s, c) == -1
  {
  }

  lemma Slices(s: string, i: nat, j: nat)
    requires i + j <= |s|
    ensures s[i..][j..] == s[i + j..] && s[i..][..j] == s[i..i + j]
  {
  }

  predicate At(s: string, pat: string, i: nat) {
    i + |pat| <= |s| && s[i..i + |pat|] == pat
  }

  function IndexFrom(s: string, pat: string, i: nat): (r: int)
    requires i <= |s|
    ensures -1 <= r <= |s|
    ensures r >= 0 ==> i <= r && At(s, pat, r)
    ensures forall k: nat :: i <= k && At(s, pat, k) ==> 0 <= r <= k
    decreases |s| - i
  {
    if At(s, pat, i) then i else if i == |s| then -1 else IndexFrom(s, pat, i + 1)
  }

  /** The first index at which `pat` occurs in `s`, or -1. */
  function Index(s: string, pat: string): (r: int)
    ensures -1 <= r <= |s|
    ensures r >= 0 ==> At(s, pat, r)
    ensures forall k: nat :: At(s, pat, k) ==> 0 <= r <= k
  {
    IndexFrom(s, pat, 0)
  }

  predicate Contains(s: string, pat: string) {
    Index(s, pat) >= 0
  }
}
