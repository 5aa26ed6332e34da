/** Slices of concatenated texts, and texts without a given character. */
module Texts {

  predicate Without(s: string, c: char) { forall i :: 0 <= i < |s| ==> s[i] != c }

  lemma Assoc(a: string, b: string, c: string)
    ensures a + b + c == a + (b + c)
  {
  }

  predicate EndsWith(s: string, y: string) {
    |y| <= |s| && forall k :: 0 <= k < |y| ==> s[|s| - |y| + k] == y[k]
  }

  lemma EndsBehind(x: string, y: string)
    ensures EndsWith(x + y, y)
  {
  }

  lemma FromEnd(s: string, y: string, k: nat)
    requires EndsWith(s, y) && k <= |y|
    ensures s[|s| - |y| + k..] == y[k..]
  {
  }

  lemma TakeBefore(p: string, rest: string, k: nat)
    requires k <= |p|
    ensures (p + rest)[..k] == p[..k]
  {
  }

  lemma TakeBehind(p: string, rest: string, k: nat)
    requires |p| <= k <= |p| + |rest|
    ensures (p + rest)[..k] == p + rest[..k - |p|]
  {
  }
}
