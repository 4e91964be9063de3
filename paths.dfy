/** Splitting of path strings at separator characters.  The viewer's display
    name splits at both '/' and '\', the folder scan at '/' only, and the
    extension of a file name is what follows its last '.'. */
module Paths {

  /** Index of the last character of `s[..n]` that belongs to `seps`, or -1. */
  function LastSepBefore(s: string, seps: set<char>, n: nat): (i: int)
    requires n <= |s|
    ensures -1 <= i < n
  {
    if n == 0 then -1
    else if s[n - 1] in seps then n - 1
    else LastSepBefore(s, seps, n - 1)
  }

  /** Index of the last character of `s` that belongs to `seps`, or -1. */
  function LastSep(s: string, seps: set<char>): int
  {
    LastSepBefore(s, seps, |s|)
  }

  lemma {:induction false} LastSepBeforeSpec(s: string, seps: set<char>, n: nat)
    requires n <= |s|
    ensures LastSepBefore(s, seps, n) >= 0 ==> s[LastSepBefore(s, seps, n)] in seps
    ensures forall m :: LastSepBefore(s, seps, n) < m < n ==> s[m] !in seps
  {
    if n > 0 && s[n - 1] !in seps {
      LastSepBeforeSpec(s, seps, n - 1);
    }
  }

  /** `LastSep` finds a separator with none after it, and -1 only when `s`
      holds no separator at all. */
  lemma LastSepSpec(s: string, seps: set<char>)
    ensures LastSep(s, seps) >= 0 ==> s[LastSep(s, seps)] in seps
    ensures forall m :: LastSep(s, seps) < m < |s| ==> s[m] !in seps
  {
    LastSepBeforeSpec(s, seps, |s|);
  }

  /** The last separator is the one with no separator after it; -1 when
      there is none. */
  lemma LastSepIs(s: string, seps: set<char>, k: int)
    requires -1 <= k < |s| && (k >= 0 ==> s[k] in seps)
    requires forall m :: k < m < |s| ==> s[m] !in seps
    ensures LastSep(s, seps) == k
  {
    LastSepSpec(s, seps);
  }

  /** The piece after the last separator: the last element of `s` split at `seps`. */
  function LastSegment(s: string, seps: set<char>): string
  {
    s[LastSep(s, seps) + 1..]
  }

  /** `LastSegment` is a suffix free of separators, preceded by one unless it
      is all of `s`. */
  lemma LastSegmentSpec(s: string, seps: set<char>)
    ensures var r := LastSegment(s, seps);
      && r == s[|s| - |r|..]
      && (forall m :: 0 <= m < |r| ==> r[m] !in seps)
      && (|r| < |s| ==> s[|s| - |r| - 1] in seps)
  {
    LastSepSpec(s, seps);
    var i := LastSep(s, seps);
    assert LastSegment(s, seps) == s[i + 1..];
    assert |s| - |s[i + 1..]| == i + 1;
  }
}
