/**
 Substring search and separator facts shared by the username parser, the manifest
 keys and the route paths.
 */
module Strings {

  predicate OccursAt(s: string, d: string, i: int) {
    0 <= i && i + |d| <= |s| && s[i..i + |d|] == d
  }

  predicate Contains(s: string, d: string) {
    exists i | 0 <= i <= |s| :: OccursAt(s, d, i)
  }

  /** strings.LastIndex: the greatest position at which `d` occurs, or -1. */
  function LastIndex(s: string, d: string): (r: int)
    ensures -1 <= r
    ensures r >= 0 ==> OccursAt(s, d, r)
    ensures forall i | r < i :: !OccursAt(s, d, i)
  {
    LastIndexUpTo(s, d, |s|)
  }

  function LastIndexUpTo(s: string, d: string, hi: int): (r: int)
    requires -1 <= hi <= |s|
    ensures -1 <= r <= hi
    ensures r >= 0 ==> OccursAt(s, d, r)
    ensures forall i | r < i <= hi :: !OccursAt(s, d, i)
    decreases hi + 1
  {
    if hi < 0 then -1
    else if OccursAt(s, d, hi) then hi
    else LastIndexUpTo(s, d, hi - 1)
  }

  predicate Free(s: string, c: char) {
    c !in s
  }

  /** Text before the first `c`, or all of `s`. */
  function Before(s: string, c: char): (r: string)
    ensures Free(r, c)
    ensures r <= s
  {
    if s == "" || s[0] == c then "" else [s[0]] + Before(s[1..], c)
  }

  lemma {:induction false} BeforeSeparator(a: string, c: char, rest: string)
    requires Free(a, c)
    ensures Before(a + [c] + rest, c) == a
  {
    var s := a + [c] + rest;
    if a == "" {
      assert s[0] == c;
    } else {
      assert s[1..] == a[1..] + [c] + rest;
      BeforeSeparator(a[1..], c, rest);
    }
  }

  /** A separator that neither head contains splits a string in only one way. */
  lemma SplitOnce(a: string, x: string, b: string, y: string, c: char)
    requires Free(a, c) && Free(b, c)
    requires a + [c] + x == b + [c] + y
    ensures a == b && x == y
  {
    BeforeSeparator(a, c, x);
    BeforeSeparator(b, c, y);
    assert x == (a + [c] + x)[|a| + 1..];
    assert y == (b + [c] + y)[|b| + 1..];
  }
}
