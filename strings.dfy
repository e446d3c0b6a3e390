/**
 * The JavaScript string primitives the core relies on, restricted to ASCII:
 * `\s` and `trim()` whitespace, `toLowerCase`/`toUpperCase` and `includes`.
 */
module Strings {

  /** A character of JavaScript's `\s` class (and of the set `trim()` removes), ASCII part only. */
  predicate IsSpace(c: char)
  {
    c == ' ' || c == '\t' || c == '\n' || c == '\r' || c == '\U{B}' || c == '\U{C}'
  }

  predicate IsDigit(c: char)
  {
    '0' <= c <= '9'
  }

  function LowerChar(c: char): char
  {
    if 'A' <= c <= 'Z' then (c as int + 32) as char else c
  }

  function UpperChar(c: char): char
  {
    if 'a' <= c <= 'z' then (c as int - 32) as char else c
  }

  /** `s.toLowerCase()` on ASCII: no capital is left, and every character keeps its letter, ignoring case. */
  function Lower(s: string): (r: string)
    ensures |r| == |s|
    ensures forall i :: 0 <= i < |r| ==> !('A' <= r[i] <= 'Z')
    ensures forall i :: 0 <= i < |s| ==> UpperChar(r[i]) == UpperChar(s[i])
  {
    seq(|s|, i requires 0 <= i < |s| => LowerChar(s[i]))
  }

  /** `s.toUpperCase()` on ASCII: no small letter is left, and every character keeps its letter, ignoring case. */
  function Upper(s: string): (r: string)
    ensures |r| == |s|
    ensures forall i :: 0 <= i < |r| ==> !('a' <= r[i] <= 'z')
    ensures forall i :: 0 <= i < |s| ==> LowerChar(r[i]) == LowerChar(s[i])
  {
    seq(|s|, i requires 0 <= i < |s| => UpperChar(s[i]))
  }

  /** `p` is a prefix of `s`: the first step of the search in `Contains`. */
  predicate StartsWith(s: string, p: string)
  {
    |p| <= |s| && s[..|p|] == p
  }

  /** `s.includes(p)`: `p` occurs in `s` at some position (the empty string occurs everywhere). */
  predicate Contains(s: string, p: string)
    ensures Contains(s, p) <==> exists k :: 0 <= k <= |s| - |p| && OccursAt(s, p, k)
    decreases |s|
  {
    if StartsWith(s, p) then
      assert OccursAt(s, p, 0);
      true
    else if s == [] then false
    else
      OccursAtTail(s, p);
      Contains(s[1..], p)
  }

  /** `p` is the slice of `s` starting at `k`. */
  predicate OccursAt(s: string, p: string, k: int)
  {
    0 <= k && k + |p| <= |s| && s[k..k + |p|] == p
  }

  lemma OccursAtTail(s: string, p: string)
    requires s != [] && !StartsWith(s, p)
    ensures (exists k :: 0 <= k <= |s| - |p| && OccursAt(s, p, k)) <==>
            (exists k :: 0 <= k <= |s| - 1 - |p| && OccursAt(s[1..], p, k))
  {
    forall k | 0 <= k <= |s| - 1 - |p| && OccursAt(s[1..], p, k)
      ensures OccursAt(s, p, k + 1)
    {
      assert s[1..][k..k + |p|] == s[k + 1..k + 1 + |p|];
    }
    forall k | 0 <= k <= |s| - |p| && OccursAt(s, p, k)
      ensures k > 0 && OccursAt(s[1..], p, k - 1)
    {
      assert s[1..][k - 1..k - 1 + |p|] == s[k..k + |p|];
    }
  }

  /** No whitespace at either end. */
  predicate IsTrimmed(s: string)
  {
    s == [] || (!IsSpace(s[0]) && !IsSpace(s[|s| - 1]))
  }

  predicate AllSpace(s: string)
  {
    forall i :: 0 <= i < |s| ==> IsSpace(s[i])
  }

  /** Drops leading whitespace: the result is a suffix of `s`, what was dropped is whitespace, and it starts with a non-space. */
  function TrimStart(s: string): (r: string)
    ensures |r| <= |s| && r == s[|s| - |r|..]
    ensures AllSpace(s[..|s| - |r|])
    ensures r == [] || !IsSpace(r[0])
    decreases |s|
  {
    if s != [] && IsSpace(s[0]) then TrimStart(s[1..]) else s
  }

  /** Drops trailing whitespace: the result is a prefix of `s`, what was dropped is whitespace, and it ends with a non-space. */
  function TrimEnd(s: string): (r: string)
    ensures |r| <= |s| && r == s[..|r|]
    ensures AllSpace(s[|r|..])
    ensures r == [] || !IsSpace(r[|r| - 1])
    decreases |s|
  {
    if s != [] && IsSpace(s[|s| - 1]) then TrimEnd(s[..|s| - 1]) else s
  }

  /** `s.trim()`: a contiguous slice of `s` with only whitespace removed around it. */
  function Trim(s: string): (r: string)
    ensures IsTrimmed(r)
    ensures r == [] <==> AllSpace(s)
  {
    var t := TrimStart(s);
    var r := TrimEnd(t);
    TrimStartBlank(s);
    TrimEndBlank(t);
    assert r != [] ==> r[0] == t[0];
    r
  }

  /** `s` is the whitespace `TrimStart` drops followed by what it keeps. */
  lemma TrimStartSplit(s: string)
    ensures s == s[..|s| - |TrimStart(s)|] + TrimStart(s)
  {
    var k := |s| - |TrimStart(s)|;
    assert s == s[..k] + s[k..];
  }

  /** `s` is what `TrimEnd` keeps followed by the whitespace it drops. */
  lemma TrimEndSplit(s: string)
    ensures s == TrimEnd(s) + s[|TrimEnd(s)|..]
  {
    var k := |TrimEnd(s)|;
    assert s == s[..k] + s[k..];
  }

  lemma TrimStartBlank(s: string)
    ensures TrimStart(s) == [] <==> AllSpace(s)
  {
    var t := TrimStart(s);
    assert t == [] ==> s[..|s| - |t|] == s;
    assert t != [] ==> t[0] == s[|s| - |t|];
  }

  lemma TrimEndBlank(s: string)
    ensures TrimEnd(s) == [] <==> AllSpace(s)
  {
    var t := TrimEnd(s);
    assert t == [] ==> s[|t|..] == s;
    assert t != [] ==> t[|t| - 1] == s[|t| - 1];
  }

  /** Trimming is idempotent: a trimmed string is left as it is. */
  lemma TrimOfTrimmed(s: string)
    requires IsTrimmed(s)
    ensures Trim(s) == s
  {
    assert TrimStart(s) == s;
    assert TrimEnd(s) == s;
  }

  lemma {:induction false} ContainsOfSuffix(s: string, k: nat, p: string)
    requires k <= |s| && Contains(s[k..], p)
    ensures Contains(s, p)
    decreases k
  {
    if k > 0 {
      assert s[1..][k - 1..] == s[k..];
      ContainsOfSuffix(s[1..], k - 1, p);
    }
  }

  lemma {:induction false} ContainsOfPrefix(s: string, k: nat, p: string)
    requires k <= |s| && Contains(s[..k], p)
    ensures Contains(s, p)
    decreases k
  {
    if StartsWith(s[..k], p) {
      assert s[..k][..|p|] == s[..|p|];
    } else {
      assert s[..k][1..] == s[1..][..k - 1];
      ContainsOfPrefix(s[1..], k - 1, p);
    }
  }

  /** Trimming cannot create an occurrence: whatever occurs in the trimmed string occurs in the original. */
  lemma NotContainsOfTrim(s: string, p: string)
    requires !Contains(s, p)
    ensures !Contains(Trim(s), p)
  {
    var t := TrimStart(s);
    if Contains(Trim(s), p) {
      ContainsOfPrefix(t, |TrimEnd(t)|, p);
      ContainsOfSuffix(s, |s| - |t|, p);
    }
  }

  /** The characters of `s` that do not occur in `p`, in order. */
  function Outside(s: string, p: string): string
    decreases |s|
  {
    if s == [] then [] else (if s[0] in p then [] else [s[0]]) + Outside(s[1..], p)
  }

  lemma OutsideCons(c: char, t: string, p: string)
    ensures Outside([c] + t, p) == (if c in p then [] else [c]) + Outside(t, p)
  {
    assert ([c] + t)[1..] == t;
  }

  /** A prefix made only of characters of `p` contributes nothing outside `p`. */
  lemma {:induction false} OutsideSkip(s: string, k: nat, p: string)
    requires k <= |s| && forall i :: 0 <= i < k ==> s[i] in p
    ensures Outside(s, p) == Outside(s[k..], p)
    decreases k
  {
    if k > 0 {
      assert s[1..][k - 1..] == s[k..];
      OutsideSkip(s[1..], k - 1, p);
    }
  }

  /** A string never contains a longer one. */
  lemma {:induction false} NotContainsLonger(s: string, p: string)
    requires |s| < |p|
    ensures !Contains(s, p)
    decreases |s|
  {
    if s != [] { NotContainsLonger(s[1..], p); }
  }
}
