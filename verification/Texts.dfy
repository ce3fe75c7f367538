/** Splitting text at a separator. */
module Texts {
  // The first position of `c`, or the length of the text.
  function IndexOf(s: string, c: char): (i: nat)
    ensures i <= |s| && (forall k | 0 <= k < i :: s[k] != c) && (i < |s| ==> s[i] == c)
  {
    if s == "" || s[0] == c then 0 else 1 + IndexOf(s[1..], c)
  }

  lemma SplitsAtFirst(a: string, b: string, x: string, y: string, c: char)
    requires c !in a && c !in b && a + [c] + x == b + [c] + y
    ensures a == b && x == y
  {
    var s, t := a + [c] + x, b + [c] + y;
    assert s[|a|] == c && t[|b|] == c;
    assert (forall k | 0 <= k < |a| :: s[k] == a[k]) && (forall k | 0 <= k < |b| :: t[k] == b[k]);
    assert a == s[..|a|] && b == t[..|b|];
    assert x == s[|a| + 1..] && y == t[|b| + 1..];
  }

  lemma SplitsAtLast(a: string, b: string, x: string, y: string, c: char)
    requires c !in x && c !in y && a + [c] + x == b + [c] + y
    ensures a == b && x == y
  {
    var s, t := a + [c] + x, b + [c] + y;
    assert s[|a|] == c && t[|b|] == c;
    assert forall k | |a| < k < |s| :: s[k] == x[k - |a| - 1];
    assert forall k | |b| < k < |t| :: t[k] == y[k - |b| - 1];
    assert a == s[..|a|] && b == t[..|b|];
    assert x == s[|a| + 1..] && y == t[|b| + 1..];
  }

  lemma IndexOfSeparator(a: string, x: string, c: char)
    requires c !in a
    ensures IndexOf(a + [c] + x, c) == |a|
  {
    var s := a + [c] + x;
    assert s[|a|] == c && forall k | 0 <= k < |a| :: s[k] == a[k];
  }
}
