/**
 * Facts about sequences and their multisets that several modules of the
 * model use: counting, removing one element, and slicing a concatenation.
 */
module SeqFacts {
  /** How often `p` occurs in a sequence with `x` in front. */
  lemma MultisetConsCount<T>(x: T, s: seq<T>, p: T)
    ensures multiset([x] + s)[p] == (if x == p then 1 else 0) + multiset(s)[p]
  {
    assert multiset([x] + s) == multiset{x} + multiset(s);
  }

  /** Removing the element at `i` removes one occurrence of it from the multiset. */
  lemma MultisetRemoveAt<T>(s: seq<T>, i: nat)
    requires i < |s|
    ensures multiset(s[..i] + s[i + 1..]) == multiset(s) - multiset{s[i]}
  {
    assert s == s[..i] + [s[i]] + s[i + 1..];
  }

  /** Dropping the first element removes one occurrence of it. */
  lemma MultisetWithoutHead<T>(a: seq<T>)
    requires a != []
    ensures multiset(a[1..]) == multiset(a) - multiset{a[0]}
  {
    assert a == [a[0]] + a[1..];
  }

  /** Taking the same element out of two permutations of each other leaves permutations. */
  lemma PermutationWithout<T>(a: seq<T>, b: seq<T>, i: nat)
    requires multiset(a) == multiset(b) && a != [] && i < |b| && b[i] == a[0]
    ensures multiset(a[1..]) == multiset(b[..i] + b[i + 1..])
  {
    MultisetRemoveAt(b, i);
    MultisetWithoutHead(a);
  }

  /** The three parts of a concatenation can be sliced back out of it. */
  lemma SliceParts<T>(a: seq<T>, b: seq<T>, c: seq<T>)
    ensures (a + b + c)[..|a|] == a
    ensures (a + b + c)[|a|..|a| + |b|] == b
    ensures (a + b + c)[|a| + |b|..] == c
  {
  }
}
