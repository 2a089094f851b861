/**
 * `std::sort` over a range of a vector, by a string key. Only what the C++
 * standard promises is specified: the range ends up sorted and is a
 * permutation of what it held; the order of elements with equal keys is left
 * open, as `std::sort` is not stable.
 */
module Sorting {
  import opened Lex

  predicate SortedBy<T>(s: seq<T>, key: T -> string) {
    forall i, j :: 0 <= i < j < |s| ==> LessEq(key(s[i]), key(s[j]))
  }

  method Swap<T>(a: array<T>, i: nat, j: nat)
    requires i < a.Length && j < a.Length
    modifies a
    ensures a[i] == old(a[j]) && a[j] == old(a[i])
    ensures forall k :: 0 <= k < a.Length && k != i && k != j ==> a[k] == old(a[k])
    ensures multiset(a[..]) == old(multiset(a[..]))
  {
    a[i], a[j] := a[j], a[i];
  }

  /** Sorts `a[lo..]` in place by `key`, leaving `a[..lo]` alone (an insertion sort). */
  method SortFrom<T>(a: array<T>, lo: nat, key: T -> string)
    requires lo <= a.Length
    modifies a
    ensures a[..lo] == old(a[..lo])
    ensures multiset(a[lo..]) == old(multiset(a[lo..]))
    ensures SortedBy(a[lo..], key)
  {
    var i := lo;
    while i < a.Length
      invariant lo <= i <= a.Length
      invariant forall k :: 0 <= k < lo ==> a[k] == old(a[k])
      invariant multiset(a[..]) == old(multiset(a[..]))
      invariant forall p, q :: lo <= p < q < i ==> LessEq(key(a[p]), key(a[q]))
    {
      Insert(a, lo, i, key);
      i := i + 1;
    }
    SamePrefixSameRest(old(a[..]), a[..], lo);
  }

  /** Moves `a[i]` down into the sorted run `a[lo..i]`, so that `a[lo..i + 1]` is sorted. */
  method Insert<T>(a: array<T>, lo: nat, i: nat, key: T -> string)
    requires lo <= i < a.Length
    requires forall p, q :: lo <= p < q < i ==> LessEq(key(a[p]), key(a[q]))
    modifies a
    ensures forall k :: 0 <= k < a.Length && !(lo <= k <= i) ==> a[k] == old(a[k])
    ensures multiset(a[..]) == old(multiset(a[..]))
    ensures forall p, q :: lo <= p < q <= i ==> LessEq(key(a[p]), key(a[q]))
  {
    var j := i;
    while j > lo && Less(key(a[j]), key(a[j - 1]))
      invariant lo <= j <= i
      invariant forall k :: 0 <= k < a.Length && !(lo <= k <= i) ==> a[k] == old(a[k])
      invariant multiset(a[..]) == old(multiset(a[..]))
      invariant forall p, q :: lo <= p < q < j ==> LessEq(key(a[p]), key(a[q]))
      invariant forall p, q :: j <= p < q <= i ==> LessEq(key(a[p]), key(a[q]))
      invariant forall p, q :: lo <= p < j < q <= i ==> LessEq(key(a[p]), key(a[q]))
    {
      LessAsymmetric(key(a[j]), key(a[j - 1]));
      Swap(a, j - 1, j);
      j := j - 1;
    }
    if j > lo {
      forall p | lo <= p < j - 1 ensures LessEq(key(a[p]), key(a[j])) {
        LessEqTransitive(key(a[p]), key(a[j - 1]), key(a[j]));
      }
    }
  }

  /** Two permutations of each other that agree before `lo` are permutations of each other from `lo` on. */
  lemma SamePrefixSameRest<T>(x: seq<T>, y: seq<T>, lo: nat)
    requires lo <= |x| == |y|
    requires forall k :: 0 <= k < lo ==> x[k] == y[k]
    requires multiset(x) == multiset(y)
    ensures x[..lo] == y[..lo]
    ensures multiset(x[lo..]) == multiset(y[lo..])
  {
    assert x[..lo] == y[..lo];
    assert x == x[..lo] + x[lo..];
    assert y == y[..lo] + y[lo..];
    forall e ensures multiset(x[lo..])[e] == multiset(y[lo..])[e] {
      assert multiset(x)[e] == multiset(x[..lo])[e] + multiset(x[lo..])[e];
      assert multiset(y)[e] == multiset(y[..lo])[e] + multiset(y[lo..])[e];
    }
  }
}
