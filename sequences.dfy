/** `Array.prototype.filter` and order-preserving subsequences. */
module Sequences {

  function Min(a: int, b: int): int
  {
    if a <= b then a else b
  }

  /** `a` is obtained from `b` by deleting elements, keeping the order of the rest. */
  predicate IsSubsequence<T(==)>(a: seq<T>, b: seq<T>)
    decreases |b|
  {
    a == [] || (b != [] && if a[0] == b[0] then IsSubsequence(a[1..], b[1..]) else IsSubsequence(a, b[1..]))
  }

  /** `s.filter(p)`: exactly the elements satisfying `p`, in their original order. */
  function Filter<T>(p: T -> bool, s: seq<T>): (r: seq<T>)
    ensures |r| <= |s|
    ensures forall x :: x in r ==> x in s && p(x)
    ensures forall x :: x in s && p(x) ==> x in r
    ensures IsSubsequence(r, s)
    decreases |s|
  {
    if s == [] then []
    else
      var rest := Filter(p, s[1..]);
      if p(s[0]) then
        var r := [s[0]] + rest;
        assert r[1..] == rest;
        r
      else rest
  }

  /** A prefix of a subsequence is a subsequence. */
  lemma {:induction false} SubsequencePrefix<T>(a: seq<T>, b: seq<T>, k: nat)
    requires IsSubsequence(a, b) && k <= |a|
    ensures IsSubsequence(a[..k], b)
    decreases |b|
  {
    if k > 0 {
      if a[0] == b[0] {
        assert a[..k][1..] == a[1..][..k - 1];
        SubsequencePrefix(a[1..], b[1..], k - 1);
      } else {
        SubsequencePrefix(a, b[1..], k);
      }
    }
  }

  /** Filtering keeps every passing element as often as it occurs, and no other. */
  lemma {:induction false} FilterMultiplicity<T>(p: T -> bool, s: seq<T>, x: T)
    ensures multiset(Filter(p, s))[x] == if p(x) then multiset(s)[x] else 0
    decreases |s|
  {
    if s != [] {
      FilterMultiplicity(p, s[1..], x);
      assert s == [s[0]] + s[1..];
      if p(s[0]) {
        assert Filter(p, s) == [s[0]] + Filter(p, s[1..]);
      }
    }
  }

  /**
   * A prefix of a filtered sequence that reaches the first occurrence of
   * `s[j]` also holds every element before it that passes the filter.
   */
  lemma {:induction false} FilterPrefixKeepsEarlier<T>(p: T -> bool, s: seq<T>, k: nat, i: int, j: int)
    requires 0 <= i < j < |s| && p(s[i]) && s[j] !in s[..j]
    requires k <= |Filter(p, s)| && s[j] in Filter(p, s)[..k]
    ensures s[i] in Filter(p, s)[..k]
    decreases |s|
  {
    var f, t := Filter(p, s), s[1..];
    var rest := Filter(p, t);
    assert k > 0;
    if i == 0 {
      assert f == [s[0]] + rest;
      assert f[..k][0] == s[0];
    } else {
      assert t[i - 1] == s[i] && t[j - 1] == s[j];
      assert t[j - 1] !in t[..j - 1] by {
        assert s[..j] == [s[0]] + t[..j - 1];
      }
      assert s[j] != s[0] by { assert s[0] == s[..j][0]; }
      if p(s[0]) {
        assert f == [s[0]] + rest;
        assert f[..k] == [s[0]] + rest[..k - 1];
        assert t[j - 1] in rest[..k - 1];
        FilterPrefixKeepsEarlier(p, t, k - 1, i - 1, j - 1);
      } else {
        assert f == rest;
        FilterPrefixKeepsEarlier(p, t, k, i - 1, j - 1);
      }
    }
  }

  /** Filtering keeps a sequence whose every element passes. */
  lemma {:induction false} FilterOfAll<T>(p: T -> bool, s: seq<T>)
    requires forall i :: 0 <= i < |s| ==> p(s[i])
    ensures Filter(p, s) == s
    decreases |s|
  {
    if s != [] {
      FilterOfAll(p, s[1..]);
    }
  }

  /** Filtering distributes over concatenation. */
  lemma {:induction false} FilterConcat<T>(p: T -> bool, a: seq<T>, b: seq<T>)
    ensures Filter(p, a + b) == Filter(p, a) + Filter(p, b)
    decreases |a|
  {
    if a == [] {
      assert a + b == b;
    } else {
      assert (a + b)[0] == a[0];
      assert (a + b)[1..] == a[1..] + b;
      FilterConcat(p, a[1..], b);
    }
  }

  /** A subsequence of a prefix is a subsequence of the whole. */
  lemma {:induction false} SubsequenceOfPrefix<T>(a: seq<T>, b: seq<T>, k: nat)
    requires k <= |b| && IsSubsequence(a, b[..k])
    ensures IsSubsequence(a, b)
    decreases k
  {
    if a != [] {
      assert b[..k][1..] == b[1..][..k - 1];
      if a[0] == b[0] {
        SubsequenceOfPrefix(a[1..], b[1..], k - 1);
      } else {
        SubsequenceOfPrefix(a, b[1..], k - 1);
      }
    }
  }

  predicate IsPrefix<T(==)>(a: seq<T>, b: seq<T>)
  {
    |a| <= |b| && b[..|a|] == a
  }

  /** A non-empty sequence is its initial part followed by its last element. */
  lemma InitLast<T>(s: seq<T>)
    requires s != []
    ensures s == s[..|s| - 1] + [s[|s| - 1]]
  {
  }
}
