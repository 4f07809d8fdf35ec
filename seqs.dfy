/** Order-preserving selection from a sequence, the shape of Python's
    list comprehensions with an `if` and of loops that append the items
    they keep. */
module Seqs {

  /** a can be obtained from b by deleting items: a keeps b's order. */
  predicate IsSubsequence<T(==)>(a: seq<T>, b: seq<T>)
    decreases |b|
  {
    |a| <= |b| &&
    (a == [] || (a[|a| - 1] == b[|b| - 1] && IsSubsequence(a[..|a| - 1], b[..|b| - 1])) ||
      IsSubsequence(a, b[..|b| - 1]))
  }

  /** A non-empty sequence is its front followed by its last item. */
  lemma FrontLast<T>(s: seq<T>)
    requires |s| > 0
    ensures s[..|s| - 1] + [s[|s| - 1]] == s
  {
  }

  /** The items of a non-empty sequence are those of its front and its last item. */
  lemma MultisetFrontLast<T>(s: seq<T>)
    requires |s| > 0
    ensures multiset(s) == multiset(s[..|s| - 1]) + multiset{s[|s| - 1]}
  {
    FrontLast(s);
  }

  /** f applied to each item, in order: a list comprehension without a filter. */
  function Map<A, B>(xs: seq<A>, f: A -> B): (r: seq<B>)
    ensures |r| == |xs|
    ensures forall i :: 0 <= i < |xs| ==> r[i] == f(xs[i])
  {
    seq(|xs|, i requires 0 <= i < |xs| => f(xs[i]))
  }

  /** Mapping one more item of a prefix appends its image. */
  lemma MapPrefixSnoc<A, B>(xs: seq<A>, f: A -> B, i: nat)
    requires i < |xs|
    ensures Map(xs[..i + 1], f) == Map(xs[..i], f) + [f(xs[i])]
  {
    var longer := Map(xs[..i + 1], f);
    var shorter := Map(xs[..i], f) + [f(xs[i])];
    forall k | 0 <= k < |longer|
      ensures longer[k] == shorter[k]
    {
      if k < i {
        assert xs[..i + 1][k] == xs[..i][k];
      }
    }
  }
}
