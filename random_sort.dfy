/**
 * `[...arr].sort(() => 0.5 - Math.random())`: a sort driven by an inconsistent
 * comparator. Section 23.1.3.30 of ECMA-262 leaves the resulting order
 * implementation-defined, but the result is still a rearrangement of the input.
 * The rearrangement is taken as an oracle: `order[k]` is the input position of
 * the element that ends up at position k, and `order` is any permutation of
 * the positions.
 */
module RandomSort {

  /** The positions 0, 1, ..., n-1 in increasing order. */
  function Range(n: nat): (r: seq<nat>)
    ensures |r| == n
    ensures forall k :: 0 <= k < n ==> r[k] == k
  {
    if n == 0 then [] else Range(n - 1) + [n - 1]
  }

  predicate InBounds(order: seq<nat>, n: nat)
  {
    forall k :: 0 <= k < |order| ==> order[k] < n
  }

  /** `order` lists every position below n exactly once. */
  predicate IsPermutation(order: seq<nat>, n: nat)
  {
    multiset(order) == multiset(Range(n))
  }

  /** The elements of `arr` at the positions `order`, in that order. */
  function Pick<T>(arr: seq<T>, order: seq<nat>): (r: seq<T>)
    requires InBounds(order, |arr|)
    ensures |r| == |order|
    ensures forall k :: 0 <= k < |order| ==> r[k] == arr[order[k]]
  {
    seq(|order|, k requires 0 <= k < |order| => arr[order[k]])
  }

  lemma PermutationInBounds(order: seq<nat>, n: nat)
    requires IsPermutation(order, n)
    ensures |order| == n && InBounds(order, n)
  {
    calc {
      |order|;
      |multiset(order)|;
      |multiset(Range(n))|;
      |Range(n)|;
    }
    forall k | 0 <= k < |order|
      ensures order[k] < n
    {
      assert order[k] in multiset(Range(n));
      var j :| 0 <= j < n && Range(n)[j] == order[k];
    }
  }

  /** Taking out the entry at position p takes one copy of it out of the multiset. */
  lemma RemoveAt<T>(s: seq<T>, p: nat)
    requires p < |s|
    ensures multiset(s) == multiset(s[..p] + s[p + 1..]) + multiset{s[p]}
  {
    assert s == s[..p] + [s[p]] + s[p + 1..];
  }

  /** Dropping position p of an order drops the element it picks. */
  lemma PickRemoveAt<T>(arr: seq<T>, ys: seq<nat>, p: nat)
    requires InBounds(ys, |arr|) && p < |ys|
    ensures InBounds(ys[..p] + ys[p + 1..], |arr|)
    ensures multiset(Pick(arr, ys)) == multiset(Pick(arr, ys[..p] + ys[p + 1..])) + multiset{arr[ys[p]]}
  {
    var rest := ys[..p] + ys[p + 1..];
    assert forall k :: 0 <= k < |rest| ==> rest[k] == if k < p then ys[k] else ys[k + 1];
    var picked := Pick(arr, ys);
    RemoveAt(picked, p);
    assert picked[..p] + picked[p + 1..] == Pick(arr, rest);
  }

  /** Taking the same value out of two orders with equal multisets leaves equal multisets. */
  lemma RemoveMatching(xs: seq<nat>, ys: seq<nat>, p: nat)
    requires multiset(xs) == multiset(ys)
    requires xs != [] && p < |ys| && ys[p] == xs[0]
    ensures multiset(xs[1..]) == multiset(ys[..p] + ys[p + 1..])
  {
    var x := xs[0];
    var a, b := multiset(xs[1..]), multiset(ys[..p] + ys[p + 1..]);
    assert xs == [x] + xs[1..];
    RemoveAt(ys, p);
    assert a + multiset{x} == b + multiset{x};
    assert a == (a + multiset{x}) - multiset{x};
    assert b == (b + multiset{x}) - multiset{x};
  }

  /** Two orders that list the same positions pick the same elements, as multisets. */
  lemma {:induction false} PickRespectsMultiset<T>(arr: seq<T>, xs: seq<nat>, ys: seq<nat>)
    requires InBounds(xs, |arr|) && InBounds(ys, |arr|)
    requires multiset(xs) == multiset(ys)
    ensures multiset(Pick(arr, xs)) == multiset(Pick(arr, ys))
    decreases |xs|
  {
    if xs == [] {
      assert |ys| == |multiset(ys)| == 0;
    } else {
      assert xs[0] in multiset(ys);
      var p :| 0 <= p < |ys| && ys[p] == xs[0];
      var rest := ys[..p] + ys[p + 1..];
      RemoveMatching(xs, ys, p);
      PickRemoveAt(arr, xs, 0);
      assert xs[..0] + xs[1..] == xs[1..];
      PickRemoveAt(arr, ys, p);
      PickRespectsMultiset(arr, xs[1..], rest);
    }
  }

  /**
   * The sorted copy: the input rearranged by the oracle. Whatever the
   * comparator answers, the copy has the input's length and elements.
   */
  function SortedCopy<T>(arr: seq<T>, order: seq<nat>): (r: seq<T>)
    requires IsPermutation(order, |arr|)
    ensures |r| == |arr|
    ensures multiset(r) == multiset(arr)
  {
    PermutationInBounds(order, |arr|);
    PickRespectsMultiset(arr, order, Range(|arr|));
    assert Pick(arr, Range(|arr|)) == arr;
    Pick(arr, order)
  }
}
