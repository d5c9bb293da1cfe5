/**
 * The in-place sorts the core relies on: `Collections.sort` with a comparator on the
 * second element of a pair (a stable sort), `Collections.reverse`, and `Arrays.sort`
 * on an `int[]`.
 */
module Sorting {

  /** `lt` is a strict total order: irreflexive, transitive, and any two keys are equal or comparable. */
  ghost predicate StrictTotalOrder<K(!new)>(lt: (K, K) -> bool)
  {
    && (forall x :: !lt(x, x))
    && (forall x, y, z :: lt(x, y) && lt(y, z) ==> lt(x, z))
    && (forall x, y :: x == y || lt(x, y) || lt(y, x))
  }

  /** `perm` lists every index below `n` exactly once. */
  ghost predicate IsPermutation(perm: seq<nat>, n: nat)
  {
    && |perm| == n
    && (forall k :: 0 <= k < n ==> perm[k] < n)
    && (forall k, l :: 0 <= k < l < n ==> perm[k] != perm[l])
  }

  /** Every index below `n` occurs in a permutation of `n`: nothing is lost. */
  lemma PermutationOnto(perm: seq<nat>, n: nat, k: nat)
    requires IsPermutation(perm, n) && k < n
    ensures exists p :: 0 <= p < n && perm[p] == k
  {
    if forall p :: 0 <= p < n ==> perm[p] != k {
      var image := set p | 0 <= p < n :: perm[p];
      ImageSize(perm, n, n);
      assert image <= IndicesBelow(n) - {k};
      assert k in IndicesBelow(n);
      assert |IndicesBelow(n) - {k}| == n - 1;
      SubsetSize(image, IndicesBelow(n) - {k});
      assert false;
    }
  }

  /** The indices `0 .. n - 1` as a set. */
  ghost function IndicesBelow(n: nat): (r: set<nat>)
    ensures forall x: nat :: x in r <==> x < n
    ensures |r| == n
  {
    if n == 0 then {} else IndicesBelow(n - 1) + {n - 1}
  }

  /** An injective prefix of `perm` has as many distinct values as positions. */
  lemma {:induction false} ImageSize(perm: seq<nat>, n: nat, i: nat)
    requires IsPermutation(perm, n) && i <= n
    ensures |set p | 0 <= p < i :: perm[p]| == i
  {
    if i > 0 {
      ImageSize(perm, n, i - 1);
      var before := set p | 0 <= p < i - 1 :: perm[p];
      assert perm[i - 1] !in before;
      assert (set p | 0 <= p < i :: perm[p]) == before + {perm[i - 1]};
    }
  }

  lemma SubsetSize<X>(a: set<X>, b: set<X>)
    requires a <= b
    ensures |a| <= |b|
  {
    if a != {} {
      var x :| x in a;
      SubsetSize(a - {x}, b - {x});
    }
  }

  /** Element `k` of `now` is element `perm[k]` of `was`. */
  ghost predicate Rearranged<X>(now: seq<X>, was: seq<X>, perm: seq<nat>)
  {
    && |now| == |was| == |perm|
    && (forall k :: 0 <= k < |now| ==> perm[k] < |was| && now[k] == was[perm[k]])
  }

  /** No key later in `s` is smaller than an earlier one. */
  ghost predicate Ascending<A, K>(s: seq<(A, K)>, lt: (K, K) -> bool)
  {
    forall k, l :: 0 <= k < l < |s| ==> !lt(s[l].1, s[k].1)
  }

  /** No key later in `s` is larger than an earlier one. */
  ghost predicate Descending<A, K>(s: seq<(A, K)>, lt: (K, K) -> bool)
  {
    forall k, l :: 0 <= k < l < |s| ==> !lt(s[k].1, s[l].1)
  }

  /** Keys that are equal appear in the order of their original positions. */
  ghost predicate TiesInOrder<A, K>(s: seq<(A, K)>, perm: seq<nat>)
    requires |perm| == |s|
  {
    forall k, l :: 0 <= k < l < |s| && s[k].1 == s[l].1 ==> perm[k] < perm[l]
  }

  /** The first `i + 1` keys are ascending, leaving out position `j`. */
  ghost predicate AscendingBut<A, K>(s: seq<(A, K)>, i: nat, j: nat, lt: (K, K) -> bool)
    requires i < |s|
  {
    forall k, l :: 0 <= k < l <= i && k != j && l != j ==> !lt(s[l].1, s[k].1)
  }

  /** The key at `j` is strictly smaller than every key from `j + 1` to `i`. */
  ghost predicate SmallerThanRest<A, K>(s: seq<(A, K)>, i: nat, j: nat, lt: (K, K) -> bool)
    requires j <= i < |s|
  {
    forall l :: j < l <= i ==> lt(s[j].1, s[l].1)
  }

  function SwapAdjacent<X>(s: seq<X>, j: nat): (t: seq<X>)
    requires 0 < j < |s|
  {
    s[j - 1 := s[j]][j := s[j - 1]]
  }

  lemma SwapKeepsRearranged<X>(s: seq<X>, was: seq<X>, perm: seq<nat>, j: nat)
    requires 0 < j < |s|
    requires IsPermutation(perm, |s|) && Rearranged(s, was, perm)
    ensures IsPermutation(SwapAdjacent(perm, j), |s|)
    ensures Rearranged(SwapAdjacent(s, j), was, SwapAdjacent(perm, j))
  {
  }

  /** The outer loop's state: the first `i` pairs are sorted, stably, and nothing was lost. */
  ghost predicate SortedUpTo<A, K>(s: seq<(A, K)>, was: seq<(A, K)>, perm: seq<nat>, i: nat, lt: (K, K) -> bool)
  {
    && 1 <= i <= |s|
    && IsPermutation(perm, |s|) && Rearranged(s, was, perm)
    && TiesInOrder(s, perm)
    && (forall k, l :: 0 <= k < l < i ==> !lt(s[l].1, s[k].1))
  }

  /** The inner loop's state: pair `i` has moved down to `j`, past keys strictly larger than its own. */
  ghost predicate Inserting<A, K>(s: seq<(A, K)>, was: seq<(A, K)>, perm: seq<nat>, i: nat, j: nat, lt: (K, K) -> bool)
  {
    && j <= i < |s|
    && IsPermutation(perm, |s|) && Rearranged(s, was, perm)
    && TiesInOrder(s, perm)
    && AscendingBut(s, i, j, lt) && SmallerThanRest(s, i, j, lt)
  }

  lemma StartInsertion<A, K>(s: seq<(A, K)>, was: seq<(A, K)>, perm: seq<nat>, i: nat, lt: (K, K) -> bool)
    requires SortedUpTo(s, was, perm, i, lt) && i < |s|
    ensures Inserting(s, was, perm, i, i, lt)
  {
  }

  /** One step of the insertion: swapping a strictly inverted adjacent pair keeps every invariant. */
  lemma SwapStep<A, K(!new)>(s: seq<(A, K)>, was: seq<(A, K)>, perm: seq<nat>, i: nat, j: nat, lt: (K, K) -> bool)
    requires StrictTotalOrder(lt)
    requires Inserting(s, was, perm, i, j, lt) && 0 < j
    requires lt(s[j].1, s[j - 1].1)
    ensures Inserting(SwapAdjacent(s, j), was, SwapAdjacent(perm, j), i, j - 1, lt)
  {
    SwapKeepsRearranged(s, was, perm, j);
    assert s[j].1 != s[j - 1].1;
  }

  /** When the insertion stops, the first `i + 1` pairs are sorted. */
  lemma InsertionDone<A, K(!new)>(s: seq<(A, K)>, was: seq<(A, K)>, perm: seq<nat>, i: nat, j: nat, lt: (K, K) -> bool)
    requires StrictTotalOrder(lt)
    requires Inserting(s, was, perm, i, j, lt)
    requires j == 0 || !lt(s[j].1, s[j - 1].1)
    ensures SortedUpTo(s, was, perm, i + 1, lt)
  {
    forall k, l | 0 <= k < l <= i ensures !lt(s[l].1, s[k].1) {
      if l == j {
        if k < j - 1 {
          assert !lt(s[j - 1].1, s[k].1);
        }
      } else if k == j {
        assert lt(s[j].1, s[l].1);
      }
    }
  }

  /**
   * Stable ascending sort of pairs by their second component, in place, as
   * `Collections.sort(list, new ComparePairsBySecondElement())` does: the result is a
   * rearrangement of the input, ascending, and pairs with equal keys keep their input order.
   * It moves one element at a time leftwards past strictly larger keys.
   */
  method SortBySecond<A, K(!new)>(a: array<(A, K)>, lt: (K, K) -> bool) returns (ghost perm: seq<nat>)
    requires StrictTotalOrder(lt)
    modifies a
    ensures IsPermutation(perm, a.Length) && Rearranged(a[..], old(a[..]), perm)
    ensures Ascending(a[..], lt)
    ensures TiesInOrder(a[..], perm)
  {
    ghost var was := a[..];
    var n := a.Length;
    perm := seq(n, k => k);
    if n == 0 { return; }
    var i := 1;
    while i < n
      invariant SortedUpTo(a[..], was, perm, i, lt)
    {
      perm := InsertPair(a, was, perm, i, lt);
      i := i + 1;
    }
  }

  /** Moves pair `i` left past the strictly larger keys before it, so that the first `i + 1` pairs are sorted. */
  method InsertPair<A, K(!new)>(a: array<(A, K)>, ghost was: seq<(A, K)>, ghost perm0: seq<nat>, i: nat,
                                lt: (K, K) -> bool) returns (ghost perm: seq<nat>)
    requires StrictTotalOrder(lt)
    requires SortedUpTo(a[..], was, perm0, i, lt) && i < a.Length
    modifies a
    ensures SortedUpTo(a[..], was, perm, i + 1, lt)
  {
    perm := perm0;
    StartInsertion(a[..], was, perm, i, lt);
    var j: nat := i;
    while j > 0 && lt(a[j].1, a[j - 1].1)
      invariant Inserting(a[..], was, perm, i, j, lt)
    {
      ghost var before := a[..];
      SwapStep(before, was, perm, i, j, lt);
      a[j - 1], a[j] := a[j], a[j - 1];
      assert a[..] == SwapAdjacent(before, j);
      perm := SwapAdjacent(perm, j);
      j := j - 1;
    }
    InsertionDone(a[..], was, perm, i, j, lt);
  }

  /** `Collections.reverse`, in place. */
  method Reverse<X>(a: array<X>)
    modifies a
    ensures forall k :: 0 <= k < a.Length ==> a[k] == old(a[a.Length - 1 - k])
  {
    var n := a.Length;
    var i := 0;
    while i < n / 2
      invariant 0 <= i <= n / 2
      invariant forall k :: 0 <= k < i ==> a[k] == old(a[n - 1 - k]) && a[n - 1 - k] == old(a[k])
      invariant forall k :: i <= k < n - i ==> a[k] == old(a[k])
    {
      a[i], a[n - 1 - i] := a[n - 1 - i], a[i];
      i := i + 1;
    }
  }

  /**
   * The stable ascending sort followed by the reversal, as both the ranking dump and the
   * link-back selector do it: keys end up non-increasing, and among equal keys the pair that
   * came later in the input comes first.
   */
  method SortThenReverse<A, K(!new)>(a: array<(A, K)>, lt: (K, K) -> bool) returns (ghost perm: seq<nat>)
    requires StrictTotalOrder(lt)
    modifies a
    ensures IsPermutation(perm, a.Length) && Rearranged(a[..], old(a[..]), perm)
    ensures Descending(a[..], lt)
    ensures forall k, l :: 0 <= k < l < a.Length && a[k].1 == a[l].1 ==> perm[k] > perm[l]
  {
    ghost var was := a[..];
    ghost var asc := SortBySecond(a, lt);
    ghost var sorted := a[..];
    Reverse(a);
    perm := ReversedOrder(a[..], sorted, was, asc, lt);
  }

  lemma ReversedOrder<A, K>(s: seq<(A, K)>, sorted: seq<(A, K)>, was: seq<(A, K)>, asc: seq<nat>, lt: (K, K) -> bool)
    returns (perm: seq<nat>)
    requires |s| == |sorted| && forall k :: 0 <= k < |s| ==> s[k] == sorted[|s| - 1 - k]
    requires IsPermutation(asc, |s|) && Rearranged(sorted, was, asc)
    requires Ascending(sorted, lt) && TiesInOrder(sorted, asc)
    ensures IsPermutation(perm, |s|) && Rearranged(s, was, perm)
    ensures Descending(s, lt)
    ensures forall k, l :: 0 <= k < l < |s| && s[k].1 == s[l].1 ==> perm[k] > perm[l]
  {
    var n := |s|;
    perm := seq(n, k requires 0 <= k < n => asc[n - 1 - k]);
    forall k, l | 0 <= k < l < n ensures !lt(s[k].1, s[l].1) {
      assert s[k] == sorted[n - 1 - k] && s[l] == sorted[n - 1 - l];
    }
  }

  predicate Sorted(s: seq<int>)
  {
    forall k, l :: 0 <= k < l < |s| ==> s[k] <= s[l]
  }

  /** The first `i + 1` values are ascending, leaving out position `j`. */
  ghost predicate SortedBut(s: seq<int>, i: nat, j: nat)
    requires i < |s|
  {
    forall k, l :: 0 <= k < l <= i && k != j && l != j ==> s[k] <= s[l]
  }

  lemma SwapIntStep(s: seq<int>, i: nat, j: nat)
    requires 0 < j <= i < |s| && s[j] < s[j - 1]
    requires SortedBut(s, i, j) && forall l :: j < l <= i ==> s[j] < s[l]
    ensures multiset(SwapAdjacent(s, j)) == multiset(s)
    ensures SortedBut(SwapAdjacent(s, j), i, j - 1)
    ensures forall l :: j - 1 < l <= i ==> SwapAdjacent(s, j)[j - 1] < SwapAdjacent(s, j)[l]
  {
  }

  lemma IntInsertionDone(s: seq<int>, i: nat, j: nat)
    requires j <= i < |s|
    requires j == 0 || s[j - 1] <= s[j]
    requires SortedBut(s, i, j) && forall l :: j < l <= i ==> s[j] < s[l]
    ensures forall k, l :: 0 <= k < l <= i ==> s[k] <= s[l]
  {
    forall k, l | 0 <= k < l <= i ensures s[k] <= s[l] {
      if l == j && k < j - 1 {
        assert s[k] <= s[j - 1];
      }
    }
  }

  /** `Arrays.sort` on an `int[]`: ascending, same elements. */
  method SortInts(a: array<int>)
    modifies a
    ensures Sorted(a[..])
    ensures multiset(a[..]) == old(multiset(a[..]))
  {
    var n := a.Length;
    if n == 0 { return; }
    var i := 1;
    while i < n
      invariant 1 <= i <= n
      invariant multiset(a[..]) == old(multiset(a[..]))
      invariant forall k, l :: 0 <= k < l < i ==> a[k] <= a[l]
    {
      InsertInt(a, i);
      i := i + 1;
    }
  }

  /** Moves `a[i]` left into the ascending prefix `a[..i]`, so that `a[..i + 1]` is ascending. */
  method InsertInt(a: array<int>, i: nat)
    requires 0 < i < a.Length
    requires forall k, l :: 0 <= k < l < i ==> a[k] <= a[l]
    modifies a
    ensures forall k, l :: 0 <= k < l <= i ==> a[k] <= a[l]
    ensures multiset(a[..]) == old(multiset(a[..]))
  {
    var j := i;
    while j > 0 && a[j] < a[j - 1]
      invariant 0 <= j <= i
      invariant multiset(a[..]) == old(multiset(a[..]))
      invariant SortedBut(a[..], i, j) && forall l :: j < l <= i ==> a[j] < a[l]
    {
      ghost var before := a[..];
      SwapIntStep(before, i, j);
      a[j - 1], a[j] := a[j], a[j - 1];
      assert a[..] == SwapAdjacent(before, j);
      j := j - 1;
    }
    IntInsertionDone(a[..], i, j);
  }

  /** The head of an ascending sequence is at most each of its elements. */
  lemma SortedHeadIsLeast(s: seq<int>, x: int)
    requires Sorted(s) && x in multiset(s)
    ensures s != [] && s[0] <= x
  {
    assert x in s;
    var i :| 0 <= i < |s| && s[i] == x;
    assert i == 0 || s[0] <= s[i];
  }

  /** Two ascending sequences with the same elements start alike and continue with the same elements. */
  lemma SortedSameHead(s: seq<int>, t: seq<int>)
    requires s != [] && Sorted(s) && Sorted(t) && multiset(s) == multiset(t)
    ensures t != [] && s[0] == t[0]
    ensures Sorted(s[1..]) && Sorted(t[1..]) && multiset(s[1..]) == multiset(t[1..])
  {
    assert s[0] in multiset(t);
    SortedHeadIsLeast(t, s[0]);
    assert t[0] in multiset(s);
    SortedHeadIsLeast(s, t[0]);
    MultisetTail(s);
    MultisetTail(t);
  }

  /** Dropping the head of a sequence takes one copy of it out of its multiset. */
  lemma MultisetTail(s: seq<int>)
    requires s != []
    ensures multiset(s[1..]) == multiset(s) - multiset{s[0]}
  {
    assert s == [s[0]] + s[1..];
  }

  /** Sorting forgets the input order: two sorted sequences with the same elements are equal. */
  lemma {:induction false} SortedUnique(s: seq<int>, t: seq<int>)
    requires Sorted(s) && Sorted(t) && multiset(s) == multiset(t)
    ensures s == t
  {
    if s == [] {
      assert |t| == |multiset(t)|;
    } else {
      SortedSameHead(s, t);
      SortedUnique(s[1..], t[1..]);
      assert s == [s[0]] + s[1..] && t == [t[0]] + t[1..];
    }
  }
}
