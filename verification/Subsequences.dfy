/** One sequence inside another, in order but with gaps. */
module Subsequences {
  /** `p` places each element of `a` in `b`, left to right. */
  predicate Embeds<T(==)>(p: seq<nat>, a: seq<T>, b: seq<T>) {
    && |p| == |a|
    && (forall i :: 0 <= i < |p| ==> p[i] < |b| && b[p[i]] == a[i])
    && (forall i, j :: 0 <= i < j < |p| ==> p[i] < p[j])
  }

  ghost predicate IsSubsequence<T>(a: seq<T>, b: seq<T>) {
    exists p: seq<nat> :: Embeds(p, a, b)
  }

  lemma SubsequenceOfItself<T>(a: seq<T>)
    ensures IsSubsequence(a, a)
  {
    assert Embeds(seq(|a|, i => i), a, a);
  }

  lemma SubsequenceBehind<T>(h: T, a: seq<T>, b: seq<T>)
    requires IsSubsequence(a, b)
    ensures IsSubsequence([h] + a, [h] + b)
  {
    var p: seq<nat> :| Embeds(p, a, b);
    var q: seq<nat> := [0] + seq(|p|, i requires 0 <= i < |p| => p[i] + 1);
    assert Embeds(q, [h] + a, [h] + b);
  }

  lemma SubsequenceWithin<T>(a: seq<T>, u: seq<T>, v: seq<T>, x: T)
    requires IsSubsequence(a, u + v)
    ensures IsSubsequence(a, u + [x] + v)
  {
    var p: seq<nat> :| Embeds(p, a, u + v);
    var q: seq<nat> := seq(|p|, i requires 0 <= i < |p| => if p[i] < |u| then p[i] else p[i] + 1);
    assert Embeds(q, a, u + [x] + v);
  }
}
