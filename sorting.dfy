/**
 * Orders of indices by a real-valued key, best first. `StableOrder` is the
 * order Python's stable `list.sort(key=..., reverse=True)` produces: keys
 * non-increasing and, among equal keys, the original order kept.
 */
module Sorting {

  /** `order` lists each of 0 .. n-1 exactly once. */
  predicate IsPermutation(order: seq<nat>, n: nat)
  {
    && |order| == n
    && (forall i: nat | i < n :: i in order)
    && (forall p | 0 <= p < |order| :: order[p] < n)
    && (forall p, q | 0 <= p < q < |order| :: order[p] != order[q])
  }

  /** Every index of `order` is a position of `keys`. */
  predicate InRange(keys: seq<real>, order: seq<nat>)
  {
    forall p | 0 <= p < |order| :: order[p] < |keys|
  }

  /** The keys, read in `order`, never increase. */
  predicate NonIncreasing(keys: seq<real>, order: seq<nat>)
    requires InRange(keys, order)
  {
    forall p, q | 0 <= p < q < |order| :: keys[order[p]] >= keys[order[q]]
  }

  /** `order` lists the indices of `keys` from the highest key to the lowest, ties in any order. */
  predicate IsDescendingOrder(keys: seq<real>, order: seq<nat>)
  {
    IsPermutation(order, |keys|) && NonIncreasing(keys, order)
  }

  /** Entries with equal keys keep their original relative order. */
  predicate Stable(keys: seq<real>, order: seq<nat>)
    requires InRange(keys, order)
  {
    forall p, q | 0 <= p < q < |order| :: keys[order[p]] == keys[order[q]] ==> order[p] < order[q]
  }

  /** The elements of `xs` taken in `order`. */
  function Apply<T>(xs: seq<T>, order: seq<nat>): (ys: seq<T>)
    requires forall p | 0 <= p < |order| :: order[p] < |xs|
    ensures |ys| == |order| && forall p | 0 <= p < |order| :: ys[p] == xs[order[p]]
  {
    seq(|order|, p requires 0 <= p < |order| => xs[order[p]])
  }

  /** The identity order 0, 1, ..., n-1. */
  function Range(n: nat): (r: seq<nat>)
    ensures |r| == n && forall p | 0 <= p < n :: r[p] == p
  {
    seq(n, p requires 0 <= p < n => p)
  }

  /** Reordering by a permutation keeps exactly the same elements. */
  lemma PermutedMembers<T>(xs: seq<T>, order: seq<nat>)
    requires IsPermutation(order, |xs|)
    ensures forall x :: x in Apply(xs, order) <==> x in xs
  {
    var ys := Apply(xs, order);
    forall x | x in xs
      ensures x in ys
    {
      var i :| 0 <= i < |xs| && xs[i] == x;
      assert i in order;
      var p :| 0 <= p < |order| && order[p] == i;
      assert ys[p] == x;
    }
  }

  /** Inserts index `k` after every entry whose key is at least `keys[k]`. */
  function Insert(keys: seq<real>, order: seq<nat>, k: nat): (r: seq<nat>)
    requires k < |keys| && InRange(keys, order)
    ensures |r| == |order| + 1 && InRange(keys, r)
    ensures forall x :: x in r <==> x in order || x == k
  {
    if order == [] then [k]
    else if keys[order[0]] >= keys[k] then [order[0]] + Insert(keys, order[1..], k)
    else [k] + order
  }

  /** Insertion of 0, 1, ..., n-1 in turn. */
  function StableOrderUpTo(keys: seq<real>, n: nat): (r: seq<nat>)
    requires n <= |keys|
    ensures |r| == n && InRange(keys, r)
  {
    if n == 0 then [] else Insert(keys, StableOrderUpTo(keys, n - 1), n - 1)
  }

  /** The indices of `keys` in stable non-increasing order of key. */
  function StableOrder(keys: seq<real>): seq<nat>
  {
    StableOrderUpTo(keys, |keys|)
  }

  predicate Distinct(order: seq<nat>)
  {
    forall p, q | 0 <= p < q < |order| :: order[p] != order[q]
  }

  /** Putting `a` in front of an ordered `s` keeps it ordered when `a` belongs before all of `s`. */
  lemma ConsOrdered(keys: seq<real>, a: nat, s: seq<nat>)
    requires a < |keys| && InRange(keys, s)
    requires Distinct(s) && NonIncreasing(keys, s) && Stable(keys, s)
    requires forall q | 0 <= q < |s| :: a != s[q] && keys[a] >= keys[s[q]]
    requires forall q | 0 <= q < |s| :: keys[a] == keys[s[q]] ==> a < s[q]
    ensures InRange(keys, [a] + s)
    ensures Distinct([a] + s) && NonIncreasing(keys, [a] + s) && Stable(keys, [a] + s)
  {
    var r := [a] + s;
    assert forall p | 1 <= p < |r| :: r[p] == s[p - 1];
  }

  lemma {:induction false} InsertSpec(keys: seq<real>, order: seq<nat>, k: nat)
    requires k < |keys| && InRange(keys, order)
    requires forall p | 0 <= p < |order| :: order[p] < k
    requires Distinct(order) && NonIncreasing(keys, order) && Stable(keys, order)
    ensures var r := Insert(keys, order, k);
      Distinct(r) && NonIncreasing(keys, r) && Stable(keys, r)
  {
    if order == [] {
    } else if keys[order[0]] >= keys[k] {
      var rest := order[1..];
      assert forall p | 0 <= p < |rest| :: rest[p] == order[p + 1];
      InsertSpec(keys, rest, k);
      var r' := Insert(keys, rest, k);
      forall q | 0 <= q < |r'|
        ensures order[0] != r'[q] && keys[order[0]] >= keys[r'[q]]
        ensures keys[order[0]] == keys[r'[q]] ==> order[0] < r'[q]
      {
        var x := r'[q];
        assert x in r';
        if x != k {
          var j :| 0 <= j < |rest| && rest[j] == x;
          assert order[j + 1] == x;
        }
      }
      ConsOrdered(keys, order[0], r');
    } else {
      ConsOrdered(keys, k, order);
    }
  }

  lemma {:induction false} StableOrderUpToSpec(keys: seq<real>, n: nat)
    requires n <= |keys|
    ensures var r := StableOrderUpTo(keys, n);
      && IsPermutation(r, n) && NonIncreasing(keys, r) && Stable(keys, r)
  {
    if n > 0 {
      var prev := StableOrderUpTo(keys, n - 1);
      StableOrderUpToSpec(keys, n - 1);
      InsertSpec(keys, prev, n - 1);
      var r := StableOrderUpTo(keys, n);
      assert r == Insert(keys, prev, n - 1);
      forall p | 0 <= p < |r|
        ensures r[p] < n
      {
        assert r[p] in r;
      }
      forall i: nat | i < n
        ensures i in r
      {
        if i < n - 1 {
          assert i in prev;
        }
      }
    }
  }

  /**
   * The stable order is a permutation of the indices whose keys never
   * increase, and that keeps equal keys in their original order.
   */
  lemma StableOrderSpec(keys: seq<real>)
    ensures InRange(keys, StableOrder(keys))
    ensures IsDescendingOrder(keys, StableOrder(keys)) && Stable(keys, StableOrder(keys))
  {
    StableOrderUpToSpec(keys, |keys|);
  }

  lemma {:induction false} InsertAtEnd(keys: seq<real>, order: seq<nat>, k: nat)
    requires k < |keys| && InRange(keys, order)
    requires forall p | 0 <= p < |order| :: keys[order[p]] >= keys[k]
    ensures Insert(keys, order, k) == order + [k]
  {
    if order != [] {
      var rest := order[1..];
      assert forall p | 0 <= p < |rest| :: rest[p] == order[p + 1];
      InsertAtEnd(keys, rest, k);
      assert [order[0]] + (rest + [k]) == order + [k];
    }
  }

  lemma {:induction false} StableOrderUpToOfSorted(keys: seq<real>, n: nat)
    requires n <= |keys|
    requires forall i, j | 0 <= i < j < |keys| :: keys[i] >= keys[j]
    ensures StableOrderUpTo(keys, n) == Range(n)
  {
    if n > 0 {
      StableOrderUpToOfSorted(keys, n - 1);
      InsertAtEnd(keys, Range(n - 1), n - 1);
      assert Range(n - 1) + [n - 1] == Range(n);
    }
  }

  /** Keys that already never increase are left in place: sorting twice changes nothing. */
  lemma StableOrderOfSorted(keys: seq<real>)
    requires forall i, j | 0 <= i < j < |keys| :: keys[i] >= keys[j]
    ensures StableOrder(keys) == Range(|keys|)
  {
    StableOrderUpToOfSorted(keys, |keys|);
  }

  /**
   * The front of the stable order is the first index with the largest key:
   * no key is larger and every earlier key is strictly smaller.
   */
  lemma StableOrderFront(keys: seq<real>)
    requires keys != []
    ensures var w := StableOrder(keys)[0];
      && w < |keys|
      && (forall j | 0 <= j < |keys| :: keys[j] <= keys[w])
      && (forall j | 0 <= j < w :: keys[j] < keys[w])
  {
    StableOrderSpec(keys);
    var order := StableOrder(keys);
    var w := order[0];
    forall j | 0 <= j < |keys|
      ensures keys[j] <= keys[w]
      ensures j < w ==> keys[j] < keys[w]
    {
      assert j in order;
      var p :| 0 <= p < |order| && order[p] == j;
      if p > 0 {
        assert keys[order[0]] >= keys[order[p]];
      }
    }
  }
}
