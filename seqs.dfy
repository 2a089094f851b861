/** Facts about sequence slices, stated once for any element type. */
module Seqs {
  lemma TakeSnoc<T>(s: seq<T>, j: nat)
    requires j < |s|
    ensures s[..j + 1] == s[..j] + [s[j]]
  {
  }

  lemma TakeAll<T>(s: seq<T>)
    ensures s[..|s|] == s
  {
  }

  lemma SnocTake<T>(s: seq<T>, x: T)
    ensures (s + [x])[..|s|] == s
  {
  }

  lemma TakeOfTake<T>(s: seq<T>, i: nat)
    requires i < |s|
    ensures s[..i + 1][..i] == s[..i]
  {
  }

  lemma AppendSnoc<T>(a: seq<T>, b: seq<T>, x: T)
    ensures a + (b + [x]) == (a + b) + [x]
  {
  }

  lemma LastSplit<T>(s: seq<T>)
    requires s != []
    ensures s[..|s| - 1] + [s[|s| - 1]] == s
  {
  }

  lemma HeadSplit<T>(s: seq<T>)
    requires s != []
    ensures [s[0]] + s[1..] == s
  {
  }

  lemma Assoc<T>(a: seq<T>, b: seq<T>, c: seq<T>)
    ensures (a + b) + c == a + (b + c)
  {
  }

  /** A property that holds of every element holds of every element of a permutation. */
  lemma PermAll<T>(a: seq<T>, b: seq<T>, P: T -> bool)
    requires multiset(a) == multiset(b)
    ensures (forall k :: 0 <= k < |a| ==> P(a[k])) <==> (forall k :: 0 <= k < |b| ==> P(b[k]))
  {
    if forall k :: 0 <= k < |a| ==> P(a[k]) {
      forall k | 0 <= k < |b| ensures P(b[k]) {
        assert b[k] in multiset(a);
      }
    }
    if forall k :: 0 <= k < |b| ==> P(b[k]) {
      forall k | 0 <= k < |a| ensures P(a[k]) {
        assert a[k] in multiset(b);
      }
    }
  }
}
