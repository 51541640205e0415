/**
 * In-place sorting by an integer key, standing for the library sorts the
 * solvers call (List.sort and Arrays.sort with Comparator.comparingInt /
 * comparingLong). Only the outcome is modelled: the array ends up ordered by
 * the key and holds the same elements.
 */
module Sorting {

  ghost predicate SortedBy<T>(s: seq<T>, key: T -> int) {
    forall i, j :: 0 <= i < j < |s| ==> key(s[i]) <= key(s[j])
  }

  /** Insertion sort by adjacent swaps. */
  method SortByKey<T>(a: array<T>, key: T -> int)
    modifies a
    ensures SortedBy(a[..], key)
    ensures multiset(a[..]) == multiset(old(a[..]))
  {
    if a.Length == 0 { return; }
    var i := 1;
    while i < a.Length
      invariant 1 <= i <= a.Length
      invariant SortedBy(a[..i], key)
      invariant multiset(a[..]) == multiset(old(a[..]))
    {
      Sink(a, i, key);
      i := i + 1;
    }
    assert a[..] == a[..a.Length];
  }

  /** Moves a[i] left past every larger key, so that a[..i + 1] becomes sorted. */
  method Sink<T>(a: array<T>, i: nat, key: T -> int)
    requires i < a.Length
    requires SortedBy(a[..i], key)
    modifies a
    ensures SortedBy(a[..i + 1], key)
    ensures multiset(a[..]) == multiset(old(a[..]))
  {
    var j := i;
    while j > 0 && key(a[j - 1]) > key(a[j])
      invariant 0 <= j <= i
      invariant forall p, q :: 0 <= p < q <= i && q != j ==> key(a[p]) <= key(a[q])
      invariant 0 < j < i ==> key(a[j - 1]) <= key(a[j + 1])
      invariant multiset(a[..]) == multiset(old(a[..]))
    {
      Swap(a, j - 1, j);
      j := j - 1;
    }
  }

  method Swap<T>(a: array<T>, i: nat, j: nat)
    requires i < j < a.Length
    modifies a
    ensures a[..] == old(a[..])[i := old(a[j])][j := old(a[i])]
    ensures multiset(a[..]) == multiset(old(a[..]))
  {
    a[i], a[j] := a[j], a[i];
  }

  /** Inserts x after every element whose key is at most x's. */
  function InsertBy<T>(s: seq<T>, x: T, key: T -> int): (r: seq<T>)
    requires SortedBy(s, key)
    ensures SortedBy(r, key) && multiset(r) == multiset(s) + multiset{x} && |r| == |s| + 1
  {
    if |s| == 0 || key(s[|s| - 1]) <= key(x) then s + [x]
    else
      var init := s[..|s| - 1];
      var last := s[|s| - 1];
      assert s == init + [last];
      var r0 := InsertBy(init, x, key);
      KeysBounded(r0, init, x, key, key(last));
      r0 + [last]
  }

  /** A permutation of init plus x has keys at most b when they all do. */
  lemma {:induction false} KeysBounded<T>(r: seq<T>, init: seq<T>, x: T, key: T -> int, b: int)
    requires multiset(r) == multiset(init) + multiset{x}
    requires key(x) <= b && forall i :: 0 <= i < |init| ==> key(init[i]) <= b
    ensures forall k :: 0 <= k < |r| ==> key(r[k]) <= b
  {
    forall k | 0 <= k < |r| ensures key(r[k]) <= b {
      assert r[k] in multiset(r);
      if r[k] != x {
        assert r[k] in multiset(init);
        var i :| 0 <= i < |init| && init[i] == r[k];
      }
    }
  }

  /**
   * The stable sort the library performs: each element, in input order, is
   * inserted after the ones with an equal key. The result is sorted and a
   * permutation of the input.
   */
  function SortBy<T>(s: seq<T>, key: T -> int): (r: seq<T>)
    ensures SortedBy(r, key) && multiset(r) == multiset(s) && |r| == |s|
  {
    if |s| == 0 then []
    else
      assert s == s[..|s| - 1] + [s[|s| - 1]];
      InsertBy(SortBy(s[..|s| - 1], key), s[|s| - 1], key)
  }
}
