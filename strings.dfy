/** Rust's ordering of `String`s, ASCII lower-casing, and `Vec<String>::sort`
    as the standard library's stable sort runs it on short vectors: insertion
    of each element, in turn, into the sorted prefix before it. */
module Strings {

  /** `Ord` for `String`: lexicographic by character, a proper prefix first.
      Comparing UTF-8 bytes and comparing code points give the same order. */
  predicate Less(a: string, b: string)
    decreases |a|
  {
    |b| > 0 && (|a| == 0 || a[0] < b[0] || (a[0] == b[0] && Less(a[1..], b[1..])))
  }

  predicate LessEq(a: string, b: string)
  {
    a == b || Less(a, b)
  }

  lemma {:induction false} LessIrreflexive(a: string)
    ensures !Less(a, a)
  {
    if |a| > 0 {
      LessIrreflexive(a[1..]);
    }
  }

  lemma {:induction false} LessTransitive(a: string, b: string, c: string)
    requires Less(a, b) && Less(b, c)
    ensures Less(a, c)
  {
    if |a| > 0 && a[0] == b[0] && b[0] == c[0] {
      LessTransitive(a[1..], b[1..], c[1..]);
    }
  }

  lemma {:induction false} LessTotal(a: string, b: string)
    ensures a == b || Less(a, b) || Less(b, a)
  {
    if |a| > 0 && |b| > 0 && a[0] == b[0] {
      LessTotal(a[1..], b[1..]);
      if a[1..] == b[1..] {
        assert a == [a[0]] + a[1..] && b == [b[0]] + b[1..];
      }
    }
  }

  lemma LessAsymmetric(a: string, b: string)
    requires Less(a, b)
    ensures !Less(b, a)
  {
    if Less(b, a) {
      LessTransitive(a, b, a);
      LessIrreflexive(a);
    }
  }

  /** `LessEq` is a total order: the facts the sorts below rely on. */
  lemma LessEqTransitive(a: string, b: string, c: string)
    requires LessEq(a, b) && LessEq(b, c)
    ensures LessEq(a, c)
  {
    if a != b && b != c {
      LessTransitive(a, b, c);
    }
  }

  lemma NotLessIsLessEq(a: string, b: string)
    requires !Less(a, b)
    ensures LessEq(b, a)
  {
    LessTotal(a, b);
  }

  /** `u8::to_ascii_lowercase` on one character. */
  function LowerChar(c: char): (l: char)
    ensures 'A' <= c <= 'Z' ==> 'a' <= l <= 'z' && l as int - c as int == 32
    ensures !('A' <= c <= 'Z') ==> l == c
  {
    if 'A' <= c <= 'Z' then (c as int + 32) as char else c
  }

  /** `str::to_ascii_lowercase`: letters A-Z become a-z, all else stays. */
  function AsciiLower(s: string): (r: string)
    ensures |r| == |s|
    ensures forall i :: 0 <= i < |s| ==> r[i] == LowerChar(s[i])
  {
    seq(|s|, i requires 0 <= i < |s| => LowerChar(s[i]))
  }

  /** Lower-casing twice is lower-casing once. */
  lemma AsciiLowerIdempotent(s: string)
    ensures AsciiLower(AsciiLower(s)) == AsciiLower(s)
  {
  }

  /** Ascending order, ties allowed. */
  predicate Sorted(s: seq<string>)
  {
    forall i, j :: 0 <= i < j < |s| ==> LessEq(s[i], s[j])
  }

  /** Appending an element no smaller than everything keeps a list sorted. */
  lemma SortedAppend(s: seq<string>, x: string)
    requires Sorted(s)
    requires forall i :: 0 <= i < |s| ==> LessEq(s[i], x)
    ensures Sorted(s + [x])
  {
  }

  /** `insert_tail`: `x` moves left past every element it is `Less` than. */
  function InsertSorted(x: string, s: seq<string>): (r: seq<string>)
    requires Sorted(s)
    ensures |r| == |s| + 1
    ensures Sorted(r)
    ensures multiset(r) == multiset(s) + multiset{x}
    decreases |s|
  {
    if s == [] then [x]
    else
      var init, last := s[..|s| - 1], s[|s| - 1];
      assert s == init + [last];
      if !Less(x, last) then
        NotLessIsLessEq(x, last);
        assert forall i :: 0 <= i < |s| ==> LessEq(s[i], last);
        LessEqBelow(s, last, x);
        SortedAppend(s, x);
        s + [x]
      else
        var r := InsertSorted(x, init);
        BoundedAfterInsert(init, x, last, r);
        SortedAppend(r, last);
        r + [last]
  }

  lemma LessEqBelow(s: seq<string>, last: string, x: string)
    requires forall i :: 0 <= i < |s| ==> LessEq(s[i], last)
    requires LessEq(last, x)
    ensures forall i :: 0 <= i < |s| ==> LessEq(s[i], x)
  {
    forall i | 0 <= i < |s|
      ensures LessEq(s[i], x)
    {
      LessEqTransitive(s[i], last, x);
    }
  }

  /** After inserting `x < last` into the elements before `last`, all of them
      are still at most `last`. */
  lemma BoundedAfterInsert(init: seq<string>, x: string, last: string, r: seq<string>)
    requires forall i :: 0 <= i < |init| ==> LessEq(init[i], last)
    requires Less(x, last)
    requires multiset(r) == multiset(init) + multiset{x}
    ensures forall i :: 0 <= i < |r| ==> LessEq(r[i], last)
  {
    forall i | 0 <= i < |r|
      ensures LessEq(r[i], last)
    {
      assert r[i] in multiset(r);
      if r[i] != x {
        assert r[i] in multiset(init);
        var j :| 0 <= j < |init| && init[j] == r[i];
      }
    }
  }

  /** `slice::sort` on a vector of strings. */
  function SortStrings(s: seq<string>): (r: seq<string>)
    ensures |r| == |s|
    ensures Sorted(r)
    ensures multiset(r) == multiset(s)
  {
    if s == [] then []
    else
      assert s == s[..|s| - 1] + [s[|s| - 1]];
      InsertSorted(s[|s| - 1], SortStrings(s[..|s| - 1]))
  }
}
