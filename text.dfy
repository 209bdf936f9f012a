/**
 * The Python string operations the pipeline relies on: `str.strip()` with no
 * argument, the substring test `sub in s` and `s.startswith(prefix)`.
 */
module Text {

  /** Python's `str.isspace()` on one character; `str.strip()` removes exactly these. */
  predicate IsSpace(c: char) {
    || ('\t' <= c <= '\r') || ('\U{1c}' <= c <= ' ')
    || c == '\U{85}' || c == '\U{a0}' || c == '\U{1680}'
    || ('\U{2000}' <= c <= '\U{200a}') || c == '\U{2028}' || c == '\U{2029}'
    || c == '\U{202f}' || c == '\U{205f}' || c == '\U{3000}'
  }

  /** `s[lo..hi]` holds only whitespace. */
  predicate SpaceBetween(s: string, lo: int, hi: int)
    requires 0 <= lo <= hi <= |s|
  {
    forall k :: lo <= k < hi ==> IsSpace(s[k])
  }

  /** Neither end of `s` is whitespace: what `strip()` guarantees of its result. */
  predicate Trimmed(s: string) {
    s == [] || (!IsSpace(s[0]) && !IsSpace(s[|s| - 1]))
  }

  /** The first index at or after `i` that does not hold whitespace (or `|s|`). */
  function SkipSpace(s: string, i: nat): (n: nat)
    requires i <= |s|
    ensures i <= n <= |s| && SpaceBetween(s, i, n)
    ensures n == |s| || !IsSpace(s[n])
    decreases |s| - i
  {
    if i < |s| && IsSpace(s[i]) then SkipSpace(s, i + 1) else i
  }

  /** The smallest `e` in `lo..hi` such that `s[e..hi]` is all whitespace. */
  function SkipSpaceBack(s: string, lo: nat, hi: nat): (e: nat)
    requires lo <= hi <= |s|
    ensures lo <= e <= hi && SpaceBetween(s, e, hi)
    ensures e == lo || !IsSpace(s[e - 1])
  {
    if lo < hi && IsSpace(s[hi - 1]) then SkipSpaceBack(s, lo, hi - 1) else hi
  }

  /** Where the result of `strip()` begins in `s`. */
  function Leading(s: string): (n: nat)
    ensures n <= |s| && SpaceBetween(s, 0, n)
  {
    SkipSpace(s, 0)
  }

  /**
   * `str.strip()`: the middle of `s` between a whitespace run at the front and
   * one at the back, beginning and ending with a non-whitespace character.
   */
  function Strip(s: string): (r: string)
    ensures Trimmed(r)
    ensures Leading(s) + |r| <= |s| && r == s[Leading(s)..Leading(s) + |r|]
    ensures SpaceBetween(s, Leading(s) + |r|, |s|)
  {
    var lo := Leading(s);
    s[lo..SkipSpaceBack(s, lo, |s|)]
  }

  /** `strip()` is determined by its contract: the one trimmed middle between two whitespace runs. */
  lemma StripUnique(s: string, i: nat, j: nat)
    requires i <= j <= |s| && SpaceBetween(s, 0, i) && SpaceBetween(s, j, |s|) && Trimmed(s[i..j])
    ensures Strip(s) == s[i..j]
  {
    var lo := Leading(s);
    var e := SkipSpaceBack(s, lo, |s|);
    if i == j {
      assert lo == |s|;
    } else {
      assert !IsSpace(s[i..j][0]) && !IsSpace(s[i..j][j - i - 1]);
      assert lo == i;
      assert e == j;
    }
  }

  /** Stripping a stripped string changes nothing. */
  lemma StripIdempotent(s: string)
    ensures Strip(Strip(s)) == Strip(s)
  {
    var r := Strip(s);
    StripUnique(r, 0, |r|);
  }

  /** A string with no surrounding white space is its own strip. */
  lemma StripTrimmed(s: string)
    requires Trimmed(s)
    ensures Strip(s) == s
  {
    assert s[0..|s|] == s;
    StripUnique(s, 0, |s|);
  }

  /** `s.startswith(prefix)` */
  predicate StartsWith(s: string, prefix: string) {
    prefix <= s
  }

  /** Python's `sub in s`. */
  predicate Contains(s: string, sub: string) {
    exists i | 0 <= i <= |s| :: sub <= s[i..]
  }
}
