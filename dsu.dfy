/**
 * Day 08's disjoint-set forest: every element has a parent link, a root
 * links to itself, find compresses the path it walks and union hangs the
 * root of the smaller set under the root of the larger one.
 *
 * The forest is described by value: Roots(p, ...) is the root every element
 * reaches, and a ghost ranking that grows strictly along every link shows
 * that the links have no cycle (it is what makes find terminate).
 */
module DisjointSets {

  /** Every link points inside the forest. */
  predicate InRange(p: seq<int>) {
    forall i :: 0 <= i < |p| ==> 0 <= p[i] < |p|
  }

  /**
   * The ranking grows along every link that is not a self-loop and never
   * exceeds bound.
   */
  predicate Ranked(p: seq<int>, rank: seq<nat>, bound: nat) {
    |rank| == |p| && InRange(p) &&
    forall i :: 0 <= i < |p| ==> rank[i] <= bound && (p[i] == i || rank[i] < rank[p[i]])
  }

  /** The root reached from i by following the links. */
  function RootOf(p: seq<int>, rank: seq<nat>, bound: nat, i: nat): (r: nat)
    requires Ranked(p, rank, bound) && i < |p|
    ensures r < |p| && p[r] == r
    decreases bound - rank[i]
  {
    if p[i] == i then i else RootOf(p, rank, bound, p[i])
  }

  /** The root of every element. */
  function Roots(p: seq<int>, rank: seq<nat>, bound: nat): (rs: seq<nat>)
    requires Ranked(p, rank, bound)
    ensures |rs| == |p|
  {
    seq(|p|, i requires 0 <= i < |p| => RootOf(p, rank, bound, i))
  }

  /** The elements whose root is r. */
  function Members(roots: seq<nat>, r: nat): set<nat> {
    set i: nat | i < |roots| && roots[i] == r
  }

  /** Each root's size is the number of elements below it. */
  predicate SizesCount(roots: seq<nat>, size: seq<int>) {
    |size| == |roots| &&
    forall r :: 0 <= r < |roots| && roots[r] == r ==> size[r] == |Members(roots, r)|
  }

  /** A root is its own root, and every other element lies strictly below its root. */
  lemma {:induction false} RootAbove(p: seq<int>, rank: seq<nat>, bound: nat, i: nat)
    requires Ranked(p, rank, bound) && i < |p|
    ensures RootOf(p, rank, bound, i) == i <==> p[i] == i
    ensures p[i] != i ==> rank[i] < rank[RootOf(p, rank, bound, i)]
    decreases bound - rank[i]
  {
    if p[i] != i {
      RootAbove(p, rank, bound, p[i]);
    }
  }

  /** The root an element reaches depends on the links only, not on the ranking. */
  lemma {:induction false} RootOfLinksOnly(p: seq<int>, rank: seq<nat>, bound: nat, rank': seq<nat>, bound': nat, i: nat)
    requires Ranked(p, rank, bound) && Ranked(p, rank', bound') && i < |p|
    ensures RootOf(p, rank, bound, i) == RootOf(p, rank', bound', i)
    decreases bound - rank[i]
  {
    if p[i] != i {
      RootOfLinksOnly(p, rank, bound, rank', bound', p[i]);
    }
  }

  /** Roots of roots: every element's root is a root. */
  lemma {:induction false} RootsIdempotent(p: seq<int>, rank: seq<nat>, bound: nat)
    requires Ranked(p, rank, bound)
    ensures forall i :: 0 <= i < |p| ==> Roots(p, rank, bound)[Roots(p, rank, bound)[i]] == Roots(p, rank, bound)[i]
  {
    forall i | 0 <= i < |p|
      ensures Roots(p, rank, bound)[Roots(p, rank, bound)[i]] == Roots(p, rank, bound)[i]
    {
      var r := RootOf(p, rank, bound, i);
      RootAbove(p, rank, bound, r);
    }
  }

  /**
   * Path compression: pointing a straight at its root keeps the forest
   * acyclic and changes no element's root.
   */
  lemma {:induction false} Compress(p: seq<int>, rank: seq<nat>, bound: nat, a: nat)
    requires Ranked(p, rank, bound) && a < |p|
    ensures Ranked(p[a := RootOf(p, rank, bound, a)], rank, bound)
    ensures Roots(p[a := RootOf(p, rank, bound, a)], rank, bound) == Roots(p, rank, bound)
  {
    var r := RootOf(p, rank, bound, a);
    var q := p[a := r];
    RootAbove(p, rank, bound, a);
    assert Ranked(q, rank, bound);
    forall i | 0 <= i < |p|
      ensures RootOf(q, rank, bound, i) == RootOf(p, rank, bound, i)
    {
      CompressAt(p, rank, bound, a, i);
    }
  }

  lemma {:induction false} CompressAt(p: seq<int>, rank: seq<nat>, bound: nat, a: nat, i: nat)
    requires Ranked(p, rank, bound) && a < |p| && i < |p|
    requires Ranked(p[a := RootOf(p, rank, bound, a)], rank, bound)
    ensures RootOf(p[a := RootOf(p, rank, bound, a)], rank, bound, i) == RootOf(p, rank, bound, i)
    decreases bound - rank[i]
  {
    var r := RootOf(p, rank, bound, a);
    var q := p[a := r];
    if i == a {
      assert q[r] == r;
    } else if p[i] != i {
      CompressAt(p, rank, bound, a, p[i]);
    }
  }

  /** The ranking after linking root rb under root ra. */
  function LinkRank(rank: seq<nat>, ra: nat, rb: nat): seq<nat>
    requires ra < |rank| && rb < |rank|
  {
    rank[ra := if rank[ra] > rank[rb] then rank[ra] else rank[rb] + 1]
  }

  function LinkBound(rank: seq<nat>, bound: nat, rb: nat): nat
    requires rb < |rank|
  {
    if bound > rank[rb] then bound else rank[rb] + 1
  }

  /** Every element whose root was 'from' gets the root 'to'; the others keep theirs. */
  function Relink(roots: seq<nat>, from: nat, to: nat): (rs: seq<nat>)
    ensures |rs| == |roots|
  {
    seq(|roots|, i requires 0 <= i < |roots| => if roots[i] == from then to else roots[i])
  }

  /**
   * Linking root rb under root ra keeps the forest acyclic (with the raised
   * ranking) and moves exactly the elements below rb to ra.
   */
  lemma {:induction false} LinkRoots(p: seq<int>, rank: seq<nat>, bound: nat, ra: nat, rb: nat)
    requires Ranked(p, rank, bound) && ra < |p| && rb < |p|
    requires p[ra] == ra && p[rb] == rb && ra != rb
    ensures Ranked(p[rb := ra], LinkRank(rank, ra, rb), LinkBound(rank, bound, rb))
    ensures Roots(p[rb := ra], LinkRank(rank, ra, rb), LinkBound(rank, bound, rb)) ==
            Relink(Roots(p, rank, bound), rb, ra)
  {
    var q, rank', bound' := p[rb := ra], LinkRank(rank, ra, rb), LinkBound(rank, bound, rb);
    assert Ranked(q, rank', bound');
    forall i | 0 <= i < |p|
      ensures RootOf(q, rank', bound', i) == Relink(Roots(p, rank, bound), rb, ra)[i]
    {
      LinkAt(p, rank, bound, ra, rb, i);
    }
  }

  lemma {:induction false} LinkAt(p: seq<int>, rank: seq<nat>, bound: nat, ra: nat, rb: nat, i: nat)
    requires Ranked(p, rank, bound) && ra < |p| && rb < |p| && i < |p|
    requires p[ra] == ra && p[rb] == rb && ra != rb
    requires Ranked(p[rb := ra], LinkRank(rank, ra, rb), LinkBound(rank, bound, rb))
    ensures RootOf(p[rb := ra], LinkRank(rank, ra, rb), LinkBound(rank, bound, rb), i) ==
            if RootOf(p, rank, bound, i) == rb then ra else RootOf(p, rank, bound, i)
    decreases bound - rank[i]
  {
    var q, rank', bound' := p[rb := ra], LinkRank(rank, ra, rb), LinkBound(rank, bound, rb);
    if i == rb {
      assert RootOf(q, rank', bound', ra) == ra;
    } else if p[i] != i {
      LinkAt(p, rank, bound, ra, rb, p[i]);
    }
  }

  /** The sizes after the link: ra's set absorbs rb's, the other sets are untouched. */
  lemma {:induction false} RelinkMembers(roots: seq<nat>, ra: nat, rb: nat, r: nat)
    requires ra != rb
    ensures Members(Relink(roots, rb, ra), ra) == Members(roots, ra) + Members(roots, rb)
    ensures Members(roots, ra) !! Members(roots, rb)
    ensures r != ra && r != rb ==> Members(Relink(roots, rb, ra), r) == Members(roots, r)
  {
  }

  /**
   * The effect of union on two different roots ra and rb: the root of the
   * smaller set goes under the other, ra staying on top on a tie, and the
   * top root's size becomes the sum of both.
   */
  predicate Linked(roots: seq<nat>, size: seq<int>, ra: nat, rb: nat, roots': seq<nat>, size': seq<int>)
    requires ra < |size| && rb < |size|
  {
    var (top, under) := if size[ra] < size[rb] then (rb, ra) else (ra, rb);
    roots' == Relink(roots, under, top) && size' == size[top := size[ra] + size[rb]]
  }

  /**
   * The effect of union(a, b): nothing when a and b already share a root,
   * otherwise their two roots are linked.
   */
  predicate Unioned(roots: seq<nat>, size: seq<int>, a: nat, b: nat, roots': seq<nat>, size': seq<int>)
    requires a < |roots| && b < |roots| && roots[a] < |size| && roots[b] < |size|
  {
    if roots[a] == roots[b] then roots' == roots && size' == size
    else Linked(roots, size, roots[a], roots[b], roots', size')
  }

  /**
   * Union merges exactly two sets: after it, two elements share a root
   * when they did before or when one was with ra and the other with rb.
   */
  lemma {:induction false} LinkedMerges(roots: seq<nat>, size: seq<int>, ra: nat, rb: nat,
                                        roots': seq<nat>, size': seq<int>, i: nat, j: nat)
    requires ra < |size| && rb < |size| && Linked(roots, size, ra, rb, roots', size')
    requires i < |roots| && j < |roots| && ra != rb
    ensures roots'[i] == roots'[j] <==>
            roots[i] == roots[j] || (roots[i] == ra && roots[j] == rb) || (roots[i] == rb && roots[j] == ra)
  {
  }

  /** Linking keeps every root's size equal to its number of elements. */
  lemma {:induction false} LinkSizes(roots: seq<nat>, size: seq<int>, ra: nat, rb: nat)
    requires SizesCount(roots, size) && ra < |roots| && rb < |roots|
    requires roots[ra] == ra && roots[rb] == rb && ra != rb
    ensures SizesCount(Relink(roots, rb, ra), size[ra := size[ra] + size[rb]])
  {
    var roots', size' := Relink(roots, rb, ra), size[ra := size[ra] + size[rb]];
    forall r | 0 <= r < |roots'| && roots'[r] == r
      ensures size'[r] == |Members(roots', r)|
    {
      RelinkMembers(roots, ra, rb, r);
    }
  }

  /** The whole forest after linking root rb under root ra. */
  lemma {:induction false} LinkState(p: seq<int>, rank: seq<nat>, bound: nat, size: seq<int>, ra: nat, rb: nat)
    requires Ranked(p, rank, bound) && SizesCount(Roots(p, rank, bound), size)
    requires ra < |p| && rb < |p| && p[ra] == ra && p[rb] == rb && ra != rb
    ensures Ranked(p[rb := ra], LinkRank(rank, ra, rb), LinkBound(rank, bound, rb))
    ensures Roots(p[rb := ra], LinkRank(rank, ra, rb), LinkBound(rank, bound, rb)) ==
            Relink(Roots(p, rank, bound), rb, ra)
    ensures SizesCount(Roots(p[rb := ra], LinkRank(rank, ra, rb), LinkBound(rank, bound, rb)),
                       size[ra := size[ra] + size[rb]])
  {
    LinkRoots(p, rank, bound, ra, rb);
    RootAbove(p, rank, bound, ra);
    RootAbove(p, rank, bound, rb);
    LinkSizes(Roots(p, rank, bound), size, ra, rb);
  }

  /** The sizes of the roots 0 .. k - 1. */
  function RootSizeSum(roots: seq<nat>, size: seq<int>, k: nat): int
    requires k <= |roots| && |size| == |roots|
  {
    if k == 0 then 0
    else RootSizeSum(roots, size, k - 1) + if roots[k - 1] == k - 1 then size[k - 1] else 0
  }

  /** The elements whose root is below k. */
  function Below(roots: seq<nat>, k: nat): set<nat> {
    set i: nat | i < |roots| && roots[i] < k
  }

  lemma {:induction false} RootSizeSumCounts(roots: seq<nat>, size: seq<int>, k: nat)
    requires k <= |roots| && SizesCount(roots, size)
    requires forall i :: 0 <= i < |roots| ==> roots[i] < |roots| && roots[roots[i]] == roots[i]
    ensures RootSizeSum(roots, size, k) == |Below(roots, k)|
  {
    if k > 0 {
      RootSizeSumCounts(roots, size, k - 1);
      assert Below(roots, k) == Below(roots, k - 1) + Members(roots, k - 1);
      assert Below(roots, k - 1) !! Members(roots, k - 1);
      if roots[k - 1] != k - 1 {
        assert Members(roots, k - 1) == {};
      }
    }
  }

  /** The sizes of all roots add up to the number of elements. */
  lemma RootSizesSumToN(roots: seq<nat>, size: seq<int>)
    requires SizesCount(roots, size)
    requires forall i :: 0 <= i < |roots| ==> roots[i] < |roots| && roots[roots[i]] == roots[i]
    ensures RootSizeSum(roots, size, |roots|) == |roots|
  {
    RootSizeSumCounts(roots, size, |roots|);
    assert Below(roots, |roots|) == Indices(|roots|);
  }

  /** The indices 0 .. n - 1. */
  function Indices(n: nat): (r: set<nat>)
    ensures |r| == n && forall i :: i in r <==> 0 <= i < n
  {
    if n == 0 then {}
    else
      var s := Indices(n - 1);
      assert n - 1 !in s;
      s + {n - 1}
  }

  class DSU {
    const parent: array<int>
    const size: array<int>
    ghost var rank: seq<nat>
    ghost var bound: nat

    ghost predicate Valid()
      reads this, parent, size
    {
      parent != size && parent.Length == size.Length &&
      Ranked(parent[..], rank, bound) &&
      SizesCount(Roots(parent[..], rank, bound), size[..])
    }

    /** The root of every element. */
    ghost function Components(): (rs: seq<nat>)
      reads this, parent, size
      requires Valid()
      ensures |rs| == parent.Length
    {
      Roots(parent[..], rank, bound)
    }

    /** n singletons: every element its own root, every size 1. */
    constructor(n: nat)
      ensures Valid() && fresh(parent) && fresh(size)
      ensures parent.Length == n
      ensures parent[..] == seq(n, i => i) && size[..] == seq(n, _ => 1)
      ensures Components() == seq(n, i => i)
    {
      var p := new int[n];
      var s := new int[n];
      var i := 0;
      while i < n
        invariant 0 <= i <= n
        invariant forall j :: 0 <= j < i ==> p[j] == j && s[j] == 1
      {
        p[i] := i;
        s[i] := 1;
        i := i + 1;
      }
      parent := p;
      size := s;
      rank := seq(n, _ => 0);
      bound := 0;
      new;
      assert parent[..] == seq(n, i => i) && size[..] == seq(n, _ => 1);
      assert Ranked(parent[..], rank, bound);
      var roots := Roots(parent[..], rank, bound);
      assert roots == seq(n, i => i);
      forall r | 0 <= r < n
        ensures size[r] == |Members(roots, r)|
      {
        assert Members(roots, r) == {r};
      }
    }

    /** find: the root of a, with every link on the walked path pointed at it. */
    method Find(a: nat) returns (r: nat)
      requires Valid() && a < parent.Length
      modifies parent
      ensures Valid()
      ensures r == old(Components())[a] && r < parent.Length && parent[r] == r
      ensures Components() == old(Components())
      ensures size[..] == old(size[..])
      decreases bound - rank[a]
    {
      if parent[a] != a {
        ghost var p0 := parent[..];
        var root := Find(parent[a]);
        ghost var p1 := parent[..];
        assert root == Roots(p1, rank, bound)[a];
        Compress(p1, rank, bound, a);
        RootAbove(p0, rank, bound, a);
        parent[a] := root;
        assert parent[..] == p1[a := root];
      }
      r := parent[a];
    }

    /** union: links the smaller root under the larger one; ties keep a's root on top. */
    method Union(a: nat, b: nat)
      requires Valid() && a < parent.Length && b < parent.Length
      modifies this, parent, size
      ensures Valid()
      ensures old(Components())[a] < parent.Length && old(Components())[b] < parent.Length
      ensures Unioned(old(Components()), old(size[..]), a, b, Components(), size[..])
    {
      ghost var c0 := Components();
      var ra := Find(a);
      var rb := Find(b);
      if ra == rb {
        return;
      }
      assert c0[a] == ra && c0[b] == rb;
      Attach(ra, rb);
    }

    /** The linking half of union, on two different roots. */
    method Attach(ra: nat, rb: nat)
      requires Valid() && ra < parent.Length && rb < parent.Length
      requires parent[ra] == ra && parent[rb] == rb && ra != rb
      modifies this, parent, size
      ensures Valid()
      ensures Linked(old(Components()), old(size[..]), ra, rb, Components(), size[..])
    {
      ghost var c0, s0 := Components(), size[..];
      ghost var ra0, rb0 := ra, rb;
      var ra, rb := ra, rb;
      if size[ra] < size[rb] {
        ra, rb := rb, ra;
      }
      ghost var p, rk, bd := parent[..], rank, bound;
      ghost var q, rk', bd' := p[rb := ra], LinkRank(rk, ra, rb), LinkBound(rk, bd, rb);
      ghost var s1 := s0[ra := s0[ra] + s0[rb]];
      LinkState(p, rk, bd, s0, ra, rb);
      assert Linked(c0, s0, ra0, rb0, Roots(q, rk', bd'), s1);
      rank, bound := rk', bd';
      parent[rb] := ra;
      assert parent[..] == q;
      size[ra] := size[ra] + size[rb];
      assert size[..] == s1;
    }

    /** Every element's root is an element. */
    lemma RootInRange(a: nat)
      requires Valid() && a < parent.Length
      ensures Components()[a] < parent.Length
    {
    }

    /** A root is its own component's root. */
    lemma RootIsOwn(r: nat)
      requires Valid() && r < parent.Length && parent[r] == r
      ensures Components()[r] == r
    {
    }

    /** The sizes kept at the roots add up to the number of elements. */
    lemma SizesSumToN()
      requires Valid()
      ensures RootSizeSum(Components(), size[..], parent.Length) == parent.Length
    {
      RootsIdempotent(parent[..], rank, bound);
      RootSizesSumToN(Components(), size[..]);
    }
  }
}
