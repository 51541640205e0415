/**
 * The backtracking packer of the tree-farm puzzle (day 12): pieces are
 * placed one after another on a boolean occupancy grid, trying each
 * precomputed placement of the piece's shape, and undoing a placement when
 * the rest cannot be packed.
 */
module TreeFarmPacker {

  /** Every index of p addresses a grid of n cells. */
  predicate InGrid(p: seq<int>, n: int) {
    forall k :: 0 <= k < |p| ==> 0 <= p[k] < n
  }

  /** No cell of p is occupied in g. */
  predicate Free(p: seq<int>, g: seq<bool>)
    requires InGrid(p, |g|)
  {
    forall k :: 0 <= k < |p| ==> !g[p[k]]
  }

  /** g with every cell of p set to v. */
  function Mark(g: seq<bool>, p: seq<int>, v: bool): (r: seq<bool>)
    ensures |r| == |g|
  {
    seq(|g|, i requires 0 <= i < |g| => if i in p then v else g[i])
  }

  /** g with the cells of every placement in ps set, one placement after another. */
  function MarkAll(g: seq<bool>, ps: seq<seq<int>>): (r: seq<bool>)
    ensures |r| == |g|
    decreases |ps|
  {
    if |ps| == 0 then g else MarkAll(Mark(g, ps[0], true), ps[1..])
  }

  /** After marking, a cell is set exactly when it was set or some placement covers it. */
  lemma {:induction false} MarkAllCells(g: seq<bool>, ps: seq<seq<int>>)
    ensures forall i :: 0 <= i < |g| ==>
      (MarkAll(g, ps)[i] <==> g[i] || exists t :: 0 <= t < |ps| && i in ps[t])
    decreases |ps|
  {
    if |ps| > 0 {
      var g' := Mark(g, ps[0], true);
      MarkAllCells(g', ps[1..]);
      forall i | 0 <= i < |g| ensures MarkAll(g, ps)[i] <==> g[i] || exists t :: 0 <= t < |ps| && i in ps[t] {
        if exists t :: 0 <= t < |ps[1..]| && i in ps[1..][t] {
          var t :| 0 <= t < |ps[1..]| && i in ps[1..][t];
          assert i in ps[t + 1];
        }
        if t :| 0 <= t < |ps| && i in ps[t] {
          if t > 0 {
            assert i in ps[1..][t - 1];
          }
        }
      }
    }
  }

  /** Every piece has a placement list, and every listed placement lies inside the grid. */
  predicate WellFormed(order: seq<nat>, pl: map<nat, seq<seq<int>>>, n: int) {
    forall t :: 0 <= t < |order| ==>
      order[t] in pl && forall j :: 0 <= j < |pl[order[t]]| ==> InGrid(pl[order[t]][j], n)
  }

  /**
   * backtrackPlace's answer: pieces idx.. can be placed, each on one of its
   * shape's placements, the first that fits being tried first.
   */
  ghost predicate CanPack(order: seq<nat>, pl: map<nat, seq<seq<int>>>, idx: nat, g: seq<bool>)
    requires WellFormed(order, pl, |g|)
    decreases |order| - idx
  {
    idx >= |order| ||
    exists j :: 0 <= j < |pl[order[idx]]| && Free(pl[order[idx]][j], g) &&
      CanPack(order, pl, idx + 1, Mark(g, pl[order[idx]][j], true))
  }

  ghost predicate Disjoint(p: seq<int>, q: seq<int>) {
    forall k :: 0 <= k < |p| ==> p[k] !in q
  }

  /**
   * A packing of the pieces: one listed placement per piece, each on free
   * cells of g, no two sharing a cell.
   */
  ghost predicate IsPacking(order: seq<nat>, pl: map<nat, seq<seq<int>>>, g: seq<bool>, ps: seq<seq<int>>)
  {
    && |ps| == |order|
    && (forall t :: 0 <= t < |ps| ==> order[t] in pl && ps[t] in pl[order[t]])
    && (forall t :: 0 <= t < |ps| ==> InGrid(ps[t], |g|) && Free(ps[t], g))
    && (forall t, u :: 0 <= t < u < |ps| ==> Disjoint(ps[t], ps[u]))
  }

  lemma WellFormedSuffix(order: seq<nat>, pl: map<nat, seq<seq<int>>>, n: int, idx: nat)
    requires WellFormed(order, pl, n) && idx <= |order|
    ensures WellFormed(order[idx..], pl, n)
  {
    forall t | 0 <= t < |order[idx..]|
      ensures order[idx..][t] in pl && forall j :: 0 <= j < |pl[order[idx..][t]]| ==> InGrid(pl[order[idx..][t]][j], n)
    {
      assert order[idx..][t] == order[idx + t];
    }
  }

  /** A cell free in g and outside p stays free once p is marked, and only those do. */
  lemma MarkFree(g: seq<bool>, p: seq<int>, q: seq<int>)
    requires InGrid(p, |g|) && InGrid(q, |g|)
    ensures Free(q, Mark(g, p, true)) <==> Free(q, g) && Disjoint(q, p)
  {
  }

  /**
   * The search answers exactly the packing question: pieces idx.. can be
   * packed on g by backtracking if and only if a packing of them exists.
   */
  lemma CanPackIff(order: seq<nat>, pl: map<nat, seq<seq<int>>>, idx: nat, g: seq<bool>)
    requires WellFormed(order, pl, |g|) && idx <= |order|
    ensures CanPack(order, pl, idx, g) <==> exists ps :: IsPacking(order[idx..], pl, g, ps)
  {
    if CanPack(order, pl, idx, g) {
      var ps := SearchFindsPacking(order, pl, idx, g);
    }
    if ps :| IsPacking(order[idx..], pl, g, ps) {
      PackingFoundBySearch(order, pl, idx, g, ps);
    }
  }

  /** When the search succeeds, the placements it commits to form a packing. */
  lemma {:induction false} SearchFindsPacking(order: seq<nat>, pl: map<nat, seq<seq<int>>>, idx: nat, g: seq<bool>)
    returns (ps: seq<seq<int>>)
    requires WellFormed(order, pl, |g|) && idx <= |order|
    requires CanPack(order, pl, idx, g)
    ensures IsPacking(order[idx..], pl, g, ps)
    decreases |order| - idx
  {
    if idx == |order| {
      ps := [];
      return;
    }
    var shape := order[idx];
    var rest := order[idx + 1..];
    assert order[idx..] == [shape] + rest;
    var j :| 0 <= j < |pl[shape]| && Free(pl[shape][j], g) &&
      CanPack(order, pl, idx + 1, Mark(g, pl[shape][j], true));
    var p := pl[shape][j];
    var ps' := SearchFindsPacking(order, pl, idx + 1, Mark(g, p, true));
    ExtendPacking(order, pl, idx, g, j, ps');
    ps := [p] + ps';
  }

  /**
   * A free placement of piece idx followed by a packing of the pieces after
   * it on the grid with that placement marked is a packing of pieces idx..,
   * and marking it all at once marks the same cells.
   */
  lemma ExtendPacking(order: seq<nat>, pl: map<nat, seq<seq<int>>>, idx: nat, g: seq<bool>, j: nat, ps': seq<seq<int>>)
    requires WellFormed(order, pl, |g|) && idx < |order|
    requires j < |pl[order[idx]]| && Free(pl[order[idx]][j], g)
    requires IsPacking(order[idx + 1..], pl, Mark(g, pl[order[idx]][j], true), ps')
    ensures IsPacking(order[idx..], pl, g, [pl[order[idx]][j]] + ps')
    ensures MarkAll(g, [pl[order[idx]][j]] + ps') == MarkAll(Mark(g, pl[order[idx]][j], true), ps')
  {
    var p := pl[order[idx]][j];
    var ps := [p] + ps';
    assert order[idx..] == [order[idx]] + order[idx + 1..];
    assert ps[1..] == ps';
    forall t | 0 < t < |ps| ensures InGrid(ps[t], |g|) && Free(ps[t], g) && Disjoint(ps[t], p) {
      assert ps[t] == ps'[t - 1];
      MarkFree(g, p, ps[t]);
    }
    forall t, u | 0 <= t < u < |ps| ensures Disjoint(ps[t], ps[u]) {
      if t == 0 {
        assert Disjoint(ps[u], p);
      } else {
        assert ps[t] == ps'[t - 1] && ps[u] == ps'[u - 1];
      }
    }
  }

  /** When a packing exists, the search succeeds. */
  lemma {:induction false} PackingFoundBySearch(order: seq<nat>, pl: map<nat, seq<seq<int>>>, idx: nat,
                                                g: seq<bool>, ps: seq<seq<int>>)
    requires WellFormed(order, pl, |g|) && idx <= |order|
    requires IsPacking(order[idx..], pl, g, ps)
    ensures CanPack(order, pl, idx, g)
    decreases |order| - idx
  {
    if idx == |order| {
      return;
    }
    var shape := order[idx];
    var rest := order[idx + 1..];
    assert order[idx..] == [shape] + rest;
    var p := ps[0];
    assert p in pl[shape];
    var j :| 0 <= j < |pl[shape]| && pl[shape][j] == p;
    var g' := Mark(g, p, true);
    var ps' := ps[1..];
    forall t | 0 <= t < |ps'| ensures InGrid(ps'[t], |g'|) && Free(ps'[t], g') {
      assert ps'[t] == ps[t + 1];
      assert Disjoint(ps[0], ps[t + 1]);
      MarkFree(g, p, ps'[t]);
    }
    forall t, u | 0 <= t < u < |ps'| ensures Disjoint(ps'[t], ps'[u]) {
      assert ps'[t] == ps[t + 1] && ps'[u] == ps[u + 1];
    }
    assert IsPacking(rest, pl, g', ps');
    PackingFoundBySearch(order, pl, idx + 1, g', ps');
  }

  lemma DisjointSymmetric(p: seq<int>, q: seq<int>)
    requires Disjoint(p, q)
    ensures Disjoint(q, p)
  {
  }

  /** Taking a piece out of a packing leaves a packing of the rest around its cells. */
  lemma RemovePiece(order: seq<nat>, pl: map<nat, seq<seq<int>>>, g: seq<bool>, ps: seq<seq<int>>, t: nat)
    requires IsPacking(order, pl, g, ps) && t < |order|
    ensures IsPacking(order[..t] + order[t + 1..], pl, Mark(g, ps[t], true), ps[..t] + ps[t + 1..])
  {
    var order1 := order[..t] + order[t + 1..];
    var ps1 := ps[..t] + ps[t + 1..];
    assert forall i :: 0 <= i < t ==> ps1[i] == ps[i];
    assert forall i :: t <= i < |ps1| ==> ps1[i] == ps[i + 1];
    assert forall i :: 0 <= i < |order1| ==> order1[i] == if i < t then order[i] else order[i + 1];
    RemainingFree(pl, g, ps, t, ps1);
    forall i, j | 0 <= i < j < |ps1| ensures Disjoint(ps1[i], ps1[j]) {
      var si := if i < t then i else i + 1;
      var sj := if j < t then j else j + 1;
      assert ps1[i] == ps[si] && ps1[j] == ps[sj] && si < sj;
    }
  }

  lemma RemainingFree(pl: map<nat, seq<seq<int>>>, g: seq<bool>, ps: seq<seq<int>>, t: nat, ps1: seq<seq<int>>)
    requires t < |ps|
    requires forall s :: 0 <= s < |ps| ==> InGrid(ps[s], |g|) && Free(ps[s], g)
    requires forall s, u :: 0 <= s < u < |ps| ==> Disjoint(ps[s], ps[u])
    requires |ps1| == |ps| - 1
    requires forall i :: 0 <= i < t ==> ps1[i] == ps[i]
    requires forall i :: t <= i < |ps1| ==> ps1[i] == ps[i + 1]
    ensures forall i :: 0 <= i < |ps1| ==> InGrid(ps1[i], |g|) && Free(ps1[i], Mark(g, ps[t], true))
  {
    var p := ps[t];
    forall i | 0 <= i < |ps1| ensures InGrid(ps1[i], |g|) && Free(ps1[i], Mark(g, p, true)) {
      var src := if i < t then i else i + 1;
      assert ps1[i] == ps[src];
      if src < t {
        assert Disjoint(ps[src], p);
      } else {
        DisjointSymmetric(p, ps[src]);
      }
      MarkFree(g, p, ps1[i]);
    }
  }

  /** A free listed placement in front of a packing of the rest around it is a packing. */
  lemma AddPiece(v: nat, p: seq<int>, rest: seq<nat>, pl: map<nat, seq<seq<int>>>, g: seq<bool>, ps: seq<seq<int>>)
    requires v in pl && p in pl[v] && InGrid(p, |g|) && Free(p, g)
    requires IsPacking(rest, pl, Mark(g, p, true), ps)
    ensures IsPacking([v] + rest, pl, g, [p] + ps)
  {
    var ps2 := [p] + ps;
    forall i | 0 < i < |ps2| ensures InGrid(ps2[i], |g|) && Free(ps2[i], g) && Disjoint(ps2[i], p) {
      assert ps2[i] == ps[i - 1];
      MarkFree(g, p, ps2[i]);
    }
    forall i, j | 0 <= i < j < |ps2| ensures Disjoint(ps2[i], ps2[j]) {
      if i > 0 {
        assert ps2[i] == ps[i - 1] && ps2[j] == ps[j - 1];
      }
    }
  }

  /** Removing an element both sequences share keeps their multisets equal. */
  lemma RemoveShared(order: seq<nat>, order2: seq<nat>, t: nat)
    requires multiset(order) == multiset(order2) && 0 < |order2| && t < |order| && order[t] == order2[0]
    ensures multiset(order[..t] + order[t + 1..]) == multiset(order2[1..])
  {
    var v := order2[0];
    assert order == order[..t] + [v] + order[t + 1..];
    assert order2 == [v] + order2[1..];
    var a := multiset(order[..t] + order[t + 1..]);
    var b := multiset(order2[1..]);
    assert a + multiset{v} == multiset(order);
    assert b + multiset{v} == multiset(order2);
    forall x ensures a[x] == b[x] {
      assert (a + multiset{v})[x] == (b + multiset{v})[x];
    }
  }

  /**
   * The order of the pieces does not matter: a packing of one arrangement of
   * the pieces gives a packing of any rearrangement of them.
   */
  lemma {:induction false} PackingPermutes(order: seq<nat>, order2: seq<nat>, pl: map<nat, seq<seq<int>>>,
                                           g: seq<bool>, ps: seq<seq<int>>)
    requires multiset(order) == multiset(order2)
    requires IsPacking(order, pl, g, ps)
    ensures exists ps2 :: IsPacking(order2, pl, g, ps2)
    decreases |order|
  {
    if |order2| == 0 {
      assert IsPacking(order2, pl, g, []);
    } else {
      var v := order2[0];
      assert v in multiset(order2);
      var t :| 0 <= t < |order| && order[t] == v;
      RemoveShared(order, order2, t);
      RemovePiece(order, pl, g, ps, t);
      var p := ps[t];
      PackingPermutes(order[..t] + order[t + 1..], order2[1..], pl, Mark(g, p, true), ps[..t] + ps[t + 1..]);
      var ps2 :| IsPacking(order2[1..], pl, Mark(g, p, true), ps2);
      AddPiece(v, p, order2[1..], pl, g, ps2);
      assert order2 == [v] + order2[1..];
    }
  }

  method CanPlace(cells: seq<int>, grid: array<bool>) returns (ok: bool)
    requires InGrid(cells, grid.Length)
    ensures ok == Free(cells, grid[..])
  {
    for k := 0 to |cells|
      invariant forall kk :: 0 <= kk < k ==> !grid[cells[kk]]
    {
      if grid[cells[k]] {
        return false;
      }
    }
    return true;
  }

  method SetPlace(cells: seq<int>, grid: array<bool>, val: bool)
    requires InGrid(cells, grid.Length)
    modifies grid
    ensures grid[..] == Mark(old(grid[..]), cells, val)
  {
    for k := 0 to |cells|
      invariant forall i :: 0 <= i < grid.Length ==>
        grid[i] == if i in cells[..k] then val else old(grid[i])
    {
      grid[cells[k]] := val;
      assert cells[..k + 1] == cells[..k] + [cells[k]];
    }
    assert cells[..|cells|] == cells;
  }

  /** Marking the cells of a free placement and clearing them again restores the grid. */
  lemma MarkUnmark(g: seq<bool>, p: seq<int>)
    requires InGrid(p, |g|) && Free(p, g)
    ensures Mark(Mark(g, p, true), p, false) == g
  {
    forall i | 0 <= i < |g| ensures Mark(Mark(g, p, true), p, false)[i] == g[i] {
      if i in p {
        var k :| 0 <= k < |p| && p[k] == i;
      }
    }
  }

  /**
   * Places pieces idx.. on the grid; on success the grid keeps the
   * placements of a packing of those pieces, on failure it is restored.
   */
  method BacktrackPlace(idx: nat, order: seq<nat>, pl: map<nat, seq<seq<int>>>, grid: array<bool>)
    returns (ok: bool)
    requires WellFormed(order, pl, grid.Length)
    modifies grid
    ensures ok == CanPack(order, pl, idx, old(grid[..]))
    ensures !ok ==> grid[..] == old(grid[..])
    ensures ok ==> exists ps :: IsPacking(if idx <= |order| then order[idx..] else [], pl, old(grid[..]), ps) &&
                                grid[..] == MarkAll(old(grid[..]), ps)
    decreases |order| - idx
  {
    if idx >= |order| {
      assert IsPacking(if idx <= |order| then order[idx..] else [], pl, grid[..], []);
      assert grid[..] == MarkAll(grid[..], []);
      return true;
    }
    var shape := order[idx];
    var placements := pl[shape];
    ghost var g0 := grid[..];
    for j := 0 to |placements|
      invariant grid[..] == g0
      invariant forall jj :: 0 <= jj < j ==>
        !(Free(placements[jj], g0) && CanPack(order, pl, idx + 1, Mark(g0, placements[jj], true)))
    {
      var place := placements[j];
      var free := CanPlace(place, grid);
      if free {
        SetPlace(place, grid, true);
        var rest := BacktrackPlace(idx + 1, order, pl, grid);
        if rest {
          ghost var ps' :| IsPacking(order[idx + 1..], pl, Mark(g0, place, true), ps') &&
                           grid[..] == MarkAll(Mark(g0, place, true), ps');
          ExtendPacking(order, pl, idx, g0, j, ps');
          return true;
        }
        SetPlace(place, grid, false);
        MarkUnmark(g0, place);
      }
    }
    return false;
  }
}
