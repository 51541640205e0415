// Linear algebra over GF(2) for day 10: vectors of bits, the inner product
// (parity of the positions set in both), row operations and the solution
// set of a system M x = rhs.

module Gf2 {

  type Vec = seq<bool>
  type Mat = seq<Vec>

  function Zeros(m: nat): (r: Vec)
    ensures |r| == m && forall c :: 0 <= c < m ==> !r[c]
  {
    seq(m, c => false)
  }

  /** Component-wise sum over GF(2). */
  function Xor(u: Vec, v: Vec): (r: Vec)
    requires |u| == |v|
    ensures |r| == |u| && forall c :: 0 <= c < |u| ==> r[c] == (u[c] != v[c])
  {
    seq(|u|, c requires 0 <= c < |u| => u[c] != v[c])
  }

  /** The inner product over GF(2): the parity of the positions set in both u and x. */
  function Dot(u: Vec, x: Vec): bool
    requires |u| == |x|
  {
    if |u| == 0 then false
    else Dot(u[..|u| - 1], x[..|u| - 1]) != (u[|u| - 1] && x[|u| - 1])
  }

  /** The number of set bits. */
  function Weight(x: Vec): (w: nat)
    ensures w <= |x|
  {
    if |x| == 0 then 0 else Weight(x[..|x| - 1]) + if x[|x| - 1] then 1 else 0
  }

  /** n rows of m bits each. */
  predicate Shaped(M: Mat, n: nat, m: nat) {
    |M| == n && forall r :: 0 <= r < n ==> |M[r]| == m
  }

  /** x satisfies every equation Dot(M[r], x) == rhs[r]. */
  predicate Solves(M: Mat, rhs: Vec, x: Vec) {
    |rhs| == |M| && forall r :: 0 <= r < |M| ==> |M[r]| == |x| && Dot(M[r], x) == rhs[r]
  }

  /** The two systems have the same solutions of length m. */
  ghost predicate SameSolutions(M: Mat, b: Vec, M': Mat, b': Vec, m: nat) {
    forall x :: |x| == m ==> (Solves(M, b, x) <==> Solves(M', b', x))
  }

  // ---------------------------------------------------------------------
  // The inner product

  /** Linearity in the left argument. */
  lemma {:induction false} DotXorLeft(u: Vec, v: Vec, x: Vec)
    requires |u| == |v| == |x|
    ensures Dot(Xor(u, v), x) == (Dot(u, x) != Dot(v, x))
  {
    if |u| > 0 {
      var k := |u| - 1;
      DotXorLeft(u[..k], v[..k], x[..k]);
      assert Xor(u, v)[..k] == Xor(u[..k], v[..k]);
    }
  }

  /** Linearity in the right argument. */
  lemma {:induction false} DotXorRight(u: Vec, x: Vec, y: Vec)
    requires |u| == |x| == |y|
    ensures Dot(u, Xor(x, y)) == (Dot(u, x) != Dot(u, y))
  {
    if |u| > 0 {
      var k := |u| - 1;
      DotXorRight(u[..k], x[..k], y[..k]);
      assert Xor(x, y)[..k] == Xor(x[..k], y[..k]);
    }
  }

  /** With no position set in both, the product is 0. */
  lemma {:induction false} DotNone(u: Vec, z: Vec)
    requires |u| == |z|
    requires forall c :: 0 <= c < |u| ==> !(u[c] && z[c])
    ensures !Dot(u, z)
  {
    if |u| > 0 {
      DotNone(u[..|u| - 1], z[..|u| - 1]);
    }
  }

  /** With at most position k set in both, the product is that position's bit. */
  lemma {:induction false} DotOne(u: Vec, z: Vec, k: nat)
    requires |u| == |z| && k < |u|
    requires forall c :: 0 <= c < |u| && c != k ==> !(u[c] && z[c])
    ensures Dot(u, z) == (u[k] && z[k])
  {
    var n := |u| - 1;
    if k == n {
      DotNone(u[..n], z[..n]);
    } else {
      DotOne(u[..n], z[..n], k);
    }
  }

  /** With at most positions k1 and k2 set in both, the product is the sum of those two bits. */
  lemma {:induction false} DotTwo(u: Vec, z: Vec, k1: nat, k2: nat)
    requires |u| == |z| && k1 < |u| && k2 < |u| && k1 != k2
    requires forall c :: 0 <= c < |u| && c != k1 && c != k2 ==> !(u[c] && z[c])
    ensures Dot(u, z) == ((u[k1] && z[k1]) != (u[k2] && z[k2]))
  {
    var n := |u| - 1;
    if k1 == n {
      DotOne(u[..n], z[..n], k2);
    } else if k2 == n {
      DotOne(u[..n], z[..n], k1);
    } else {
      DotTwo(u[..n], z[..n], k1, k2);
    }
  }

  /** The zero vector has weight 0, and only it. */
  lemma {:induction false} WeightZero(x: Vec)
    ensures Weight(x) == 0 <==> forall c :: 0 <= c < |x| ==> !x[c]
  {
    if |x| > 0 {
      WeightZero(x[..|x| - 1]);
    }
  }

  // ---------------------------------------------------------------------
  // Row operations

  /** Exchanges positions a and b. */
  function SwapAt<T>(s: seq<T>, a: nat, b: nat): (r: seq<T>)
    requires a < |s| && b < |s|
    ensures |r| == |s|
  {
    s[a := s[b]][b := s[a]]
  }

  /** Adds row p into row r. */
  function AddRow(M: Mat, r: nat, p: nat): (r': Mat)
    requires r < |M| && p < |M| && |M[r]| == |M[p]|
    ensures |r'| == |M|
  {
    M[r := Xor(M[r], M[p])]
  }

  function AddBit(b: Vec, r: nat, p: nat): (r': Vec)
    requires r < |b| && p < |b|
    ensures |r'| == |b|
  {
    b[r := b[r] != b[p]]
  }

  lemma SameRefl(M: Mat, b: Vec, m: nat)
    ensures SameSolutions(M, b, M, b, m)
  {
  }

  lemma SameTrans(M1: Mat, b1: Vec, M2: Mat, b2: Vec, M3: Mat, b3: Vec, m: nat)
    requires SameSolutions(M1, b1, M2, b2, m) && SameSolutions(M2, b2, M3, b3, m)
    ensures SameSolutions(M1, b1, M3, b3, m)
  {
  }

  /** Exchanging two equations keeps the solutions. */
  lemma {:induction false} SwapSame(M: Mat, b: Vec, a1: nat, a2: nat, m: nat)
    requires Shaped(M, |b|, m) && a1 < |M| && a2 < |M|
    ensures SameSolutions(M, b, SwapAt(M, a1, a2), SwapAt(b, a1, a2), m)
  {
    var M', b' := SwapAt(M, a1, a2), SwapAt(b, a1, a2);
    forall x | |x| == m
      ensures Solves(M, b, x) <==> Solves(M', b', x)
    {
      if Solves(M, b, x) {
        forall r | 0 <= r < |M'| ensures |M'[r]| == |x| && Dot(M'[r], x) == b'[r] {
          var s := if r == a2 then a1 else if r == a1 then a2 else r;
          assert M'[r] == M[s] && b'[r] == b[s];
        }
      }
      if Solves(M', b', x) {
        forall r | 0 <= r < |M| ensures |M[r]| == |x| && Dot(M[r], x) == b[r] {
          var s := if r == a2 then a1 else if r == a1 then a2 else r;
          assert M'[s] == M[r] && b'[s] == b[r];
        }
      }
    }
  }

  /** Adding one equation into another keeps the solutions. */
  lemma {:induction false} AddRowSame(M: Mat, b: Vec, r: nat, p: nat, m: nat)
    requires Shaped(M, |b|, m) && r < |M| && p < |M| && r != p
    ensures SameSolutions(M, b, AddRow(M, r, p), AddBit(b, r, p), m)
  {
    var M', b' := AddRow(M, r, p), AddBit(b, r, p);
    forall x | |x| == m
      ensures Solves(M, b, x) <==> Solves(M', b', x)
    {
      DotXorLeft(M[r], M[p], x);
      if Solves(M, b, x) {
        assert Dot(M[r], x) == b[r] && Dot(M[p], x) == b[p];
        forall r' | 0 <= r' < |M'| ensures |M'[r']| == |x| && Dot(M'[r'], x) == b'[r'] {
          if r' != r {
            assert M'[r'] == M[r'];
          }
        }
      }
      if Solves(M', b', x) {
        assert Dot(M'[r], x) == b'[r] && Dot(M'[p], x) == b'[p];
        forall r' | 0 <= r' < |M| ensures |M[r']| == |x| && Dot(M[r'], x) == b[r'] {
          if r' != r {
            assert M'[r'] == M[r'];
          }
        }
      }
    }
  }

  // ---------------------------------------------------------------------
  // Reduced row echelon form, built one column at a time

  /**
   * The first col columns are reduced with row pivots: rows 0 .. row - 1
   * have pivot columns piv[r] < col, strictly increasing; a pivot column is
   * set in its own row only; the rows from row on are 0 in the first col
   * columns and have no pivot (-1).
   */
  predicate Echelon(M: Mat, piv: seq<int>, row: nat, col: nat, m: nat) {
    Shaped(M, |piv|, m) && row <= |piv| && col <= m &&
    (forall r :: 0 <= r < row ==> 0 <= piv[r] < col) &&
    (forall r :: row <= r < |piv| ==> piv[r] == -1) &&
    (forall r1, r2 :: 0 <= r1 < r2 < row ==> piv[r1] < piv[r2]) &&
    (forall r, r' :: 0 <= r < row && 0 <= r' < |M| ==> M[r'][piv[r]] == (r' == r)) &&
    (forall r, c :: row <= r < |M| && 0 <= c < col ==> !M[r][c])
  }

  /** The whole matrix is reduced: every row without a pivot is 0. */
  predicate Reduced(M: Mat, piv: seq<int>, rank: nat, m: nat) {
    Echelon(M, piv, rank, m, m)
  }

  /** Nothing is reduced yet. */
  lemma EchelonStart(M: Mat, piv: seq<int>, m: nat)
    requires Shaped(M, |piv|, m) && forall r :: 0 <= r < |piv| ==> piv[r] == -1
    ensures Echelon(M, piv, 0, 0, m)
  {
  }

  /** The elimination stops when the columns or the rows run out; either way the matrix is reduced. */
  lemma EchelonDone(M: Mat, piv: seq<int>, row: nat, col: nat, m: nat)
    requires Echelon(M, piv, row, col, m) && (col == m || row == |piv|)
    ensures Reduced(M, piv, row, m)
  {
  }

  /** A column with no 1 from row on gets no pivot. */
  lemma EchelonSkip(M: Mat, piv: seq<int>, row: nat, col: nat, m: nat)
    requires Echelon(M, piv, row, col, m) && col < m
    requires forall r :: row <= r < |M| ==> !M[r][col]
    ensures Echelon(M, piv, row, col + 1, m)
  {
  }

  /** Exchanging two rows that have no pivot yet keeps the form. */
  lemma {:induction false} EchelonSwap(M: Mat, piv: seq<int>, row: nat, col: nat, m: nat, sel: nat)
    requires Echelon(M, piv, row, col, m) && row <= sel < |M|
    ensures Echelon(SwapAt(M, row, sel), piv, row, col, m)
  {
    var M' := SwapAt(M, row, sel);
    forall r, r' | 0 <= r < row && 0 <= r' < |M'| ensures M'[r'][piv[r]] == (r' == r) {
      var s := if r' == row then sel else if r' == sel then row else r';
      assert M'[r'] == M[s];
    }
    forall r, c | row <= r < |M'| && 0 <= c < col ensures !M'[r][c] {
      var s := if r == row then sel else if r == sel then row else r;
      assert M'[r] == M[s];
    }
  }

  /** Row p added into every other row r < k that has a 1 in column col. */
  function ClearUpTo(M: Mat, p: nat, col: nat, k: nat): (r': Mat)
    requires p < |M| && k <= |M| && forall r :: 0 <= r < |M| ==> |M[r]| == |M[p]|
    requires col < |M[p]|
    ensures |r'| == |M|
  {
    seq(|M|, r requires 0 <= r < |M| =>
      if r < k && r != p && M[r][col] then Xor(M[r], M[p]) else M[r])
  }

  function ClearBitsUpTo(b: Vec, M: Mat, p: nat, col: nat, k: nat): (r': Vec)
    requires |b| == |M| && p < |M| && k <= |M| && forall r :: 0 <= r < |M| ==> col < |M[r]|
    ensures |r'| == |b|
  {
    seq(|b|, r requires 0 <= r < |b| =>
      if r < k && r != p && M[r][col] then b[r] != b[p] else b[r])
  }

  /** Clearing one more row is one row addition. */
  lemma {:induction false} ClearStep(M: Mat, b: Vec, p: nat, col: nat, k: nat, m: nat)
    requires Shaped(M, |b|, m) && p < |M| && k < |M| && col < m
    ensures var C, c := ClearUpTo(M, p, col, k), ClearBitsUpTo(b, M, p, col, k);
            if k != p && M[k][col]
            then ClearUpTo(M, p, col, k + 1) == AddRow(C, k, p) && ClearBitsUpTo(b, M, p, col, k + 1) == AddBit(c, k, p)
            else ClearUpTo(M, p, col, k + 1) == C && ClearBitsUpTo(b, M, p, col, k + 1) == c
  {
  }

  /** Clearing the column keeps the solutions. */
  lemma {:induction false} ClearSame(M: Mat, b: Vec, p: nat, col: nat, k: nat, m: nat)
    requires Shaped(M, |b|, m) && p < |M| && k <= |M| && col < m
    ensures SameSolutions(M, b, ClearUpTo(M, p, col, k), ClearBitsUpTo(b, M, p, col, k), m)
  {
    if k == 0 {
      assert ClearUpTo(M, p, col, 0) == M;
      assert ClearBitsUpTo(b, M, p, col, 0) == b;
    } else {
      var j := k - 1;
      ClearSame(M, b, p, col, j, m);
      ClearStep(M, b, p, col, j, m);
      var C, c := ClearUpTo(M, p, col, j), ClearBitsUpTo(b, M, p, col, j);
      if j != p && M[j][col] {
        AddRowSame(C, c, j, p, m);
        SameTrans(M, b, C, c, AddRow(C, j, p), AddBit(c, j, p), m);
      }
    }
  }

  /**
   * Taking row as the pivot row of column col, after a 1 was brought there,
   * and clearing the column in every other row extends the form by one row
   * and one column.
   */
  lemma {:induction false} EchelonPivot(M: Mat, piv: seq<int>, row: nat, col: nat, m: nat)
    requires Echelon(M, piv, row, col, m) && row < |M| && col < m && M[row][col]
    ensures Echelon(ClearUpTo(M, row, col, |M|), piv[row := col], row + 1, col + 1, m)
  {
    var C, piv' := ClearUpTo(M, row, col, |M|), piv[row := col];
    forall r, r' | 0 <= r < row + 1 && 0 <= r' < |C| ensures C[r'][piv'[r]] == (r' == r) {
      if r < row {
        assert !M[row][piv[r]];
      }
    }
    forall r, c | row + 1 <= r < |C| && 0 <= c < col + 1 ensures !C[r][c] {
      if c < col {
        assert !M[row][c];
      }
    }
  }

  // ---------------------------------------------------------------------
  // Solutions of a reduced system

  /** Every pivot entry is a column below m or the marker -1. */
  predicate PivotsIn(piv: seq<int>, m: nat) {
    forall r :: 0 <= r < |piv| ==> -1 <= piv[r] < m
  }

  /** Every equation without a pivot asks for 0. */
  predicate Consistent(b: Vec, rank: nat) {
    forall r :: rank <= r < |b| ==> !b[r]
  }

  /** The first k rows of the particular solution: pivot variables take their row's right-hand side, the rest are 0. */
  function ParticularUpTo(b: Vec, piv: seq<int>, m: nat, k: nat): (p: Vec)
    requires |b| == |piv| && k <= |piv| && PivotsIn(piv, m)
    ensures |p| == m
  {
    if k == 0 then Zeros(m)
    else
      var p := ParticularUpTo(b, piv, m, k - 1);
      if piv[k - 1] != -1 then p[piv[k - 1] := b[k - 1]] else p
  }

  function Particular(b: Vec, piv: seq<int>, m: nat): (p: Vec)
    requires |b| == |piv| && PivotsIn(piv, m)
    ensures |p| == m
  {
    ParticularUpTo(b, piv, m, |piv|)
  }

  /** The first k rows of the null-space vector of free column f: f set, and each pivot variable whose row has a 1 in column f. */
  function BasisUpTo(M: Mat, piv: seq<int>, f: nat, m: nat, k: nat): (v: Vec)
    requires Shaped(M, |piv|, m) && f < m && k <= |piv| && PivotsIn(piv, m)
    ensures |v| == m
  {
    if k == 0 then Zeros(m)[f := true]
    else
      var v := BasisUpTo(M, piv, f, m, k - 1);
      if piv[k - 1] != -1 && M[k - 1][f] then v[piv[k - 1] := true] else v
  }

  function BasisVec(M: Mat, piv: seq<int>, f: nat, m: nat): (v: Vec)
    requires Shaped(M, |piv|, m) && f < m && PivotsIn(piv, m)
    ensures |v| == m
  {
    BasisUpTo(M, piv, f, m, |piv|)
  }

  lemma {:induction false} ParticularAt(M: Mat, b: Vec, piv: seq<int>, rank: nat, m: nat, k: nat)
    requires Reduced(M, piv, rank, m) && |b| == |piv| && k <= |piv|
    ensures var p := ParticularUpTo(b, piv, m, k);
            (forall r :: 0 <= r < k && r < rank ==> p[piv[r]] == b[r]) &&
            (forall c :: 0 <= c < m && c !in piv[..k] ==> !p[c])
  {
    if k > 0 {
      ParticularAt(M, b, piv, rank, m, k - 1);
      assert piv[..k] == piv[..k - 1] + [piv[k - 1]];
    }
  }

  lemma {:induction false} BasisAt(M: Mat, piv: seq<int>, rank: nat, f: nat, m: nat, k: nat)
    requires Reduced(M, piv, rank, m) && f < m && f !in piv && k <= |piv|
    ensures var v := BasisUpTo(M, piv, f, m, k);
            v[f] &&
            (forall r :: 0 <= r < k && r < rank ==> v[piv[r]] == M[r][f]) &&
            (forall c :: 0 <= c < m && c != f && c !in piv[..k] ==> !v[c])
  {
    if k > 0 {
      BasisAt(M, piv, rank, f, m, k - 1);
      assert piv[..k] == piv[..k - 1] + [piv[k - 1]];
    }
  }

  /** A column of a reduced matrix that is a pivot is the pivot of one of the first rank rows. */
  lemma PivotRow(piv: seq<int>, rank: nat, m: nat, c: nat) returns (r: nat)
    requires rank <= |piv| && (forall r :: rank <= r < |piv| ==> piv[r] == -1) && c in piv
    ensures r < rank && piv[r] == c
  {
    var i :| 0 <= i < |piv| && piv[i] == c;
    r := i;
  }

  /** When the right-hand side is 0 on the rows without a pivot, the particular vector solves the system. */
  lemma {:induction false} ParticularSolves(M: Mat, b: Vec, piv: seq<int>, rank: nat, m: nat)
    requires Reduced(M, piv, rank, m) && |b| == |piv| && Consistent(b, rank)
    ensures Solves(M, b, Particular(b, piv, m))
  {
    var p := Particular(b, piv, m);
    ParticularAt(M, b, piv, rank, m, |piv|);
    assert piv[..|piv|] == piv;
    forall r | 0 <= r < |M| ensures Dot(M[r], p) == b[r] {
      if r < rank {
        forall c | 0 <= c < m && c != piv[r] ensures !(M[r][c] && p[c]) {
          if c in piv {
            var r' := PivotRow(piv, rank, m, c);
          }
        }
        DotOne(M[r], p, piv[r]);
      } else {
        DotNone(M[r], p);
      }
    }
  }

  /** The vector of a free column solves the homogeneous system. */
  lemma {:induction false} BasisSolves(M: Mat, piv: seq<int>, rank: nat, m: nat, f: nat)
    requires Reduced(M, piv, rank, m) && f < m && f !in piv
    ensures Solves(M, Zeros(|M|), BasisVec(M, piv, f, m))
  {
    var v := BasisVec(M, piv, f, m);
    BasisAt(M, piv, rank, f, m, |piv|);
    assert piv[..|piv|] == piv;
    forall r | 0 <= r < |M| ensures !Dot(M[r], v) {
      if r < rank {
        forall c | 0 <= c < m && c != piv[r] && c != f ensures !(M[r][c] && v[c]) {
          if c in piv {
            var r' := PivotRow(piv, rank, m, c);
          }
        }
        DotTwo(M[r], v, f, piv[r]);
      } else {
        DotNone(M[r], v);
      }
    }
  }

  /** A solvable reduced system asks for 0 on the rows without a pivot. */
  lemma {:induction false} SolvableConsistent(M: Mat, b: Vec, piv: seq<int>, rank: nat, m: nat, x: Vec)
    requires Reduced(M, piv, rank, m) && Solves(M, b, x) && |x| == m
    ensures Consistent(b, rank)
  {
    forall r | rank <= r < |b| ensures !b[r] {
      DotNone(M[r], x);
    }
  }

  /** Two solutions of a reduced system that agree on the free columns are equal. */
  lemma {:induction false} FreeDetermines(M: Mat, b: Vec, piv: seq<int>, rank: nat, m: nat, x: Vec, y: Vec)
    requires Reduced(M, piv, rank, m) && Solves(M, b, x) && Solves(M, b, y) && |x| == m && |y| == m
    requires forall c :: 0 <= c < m && c !in piv ==> x[c] == y[c]
    ensures x == y
  {
    var z := Xor(x, y);
    forall c | 0 <= c < m ensures x[c] == y[c] {
      if c in piv {
        var r := PivotRow(piv, rank, m, c);
        DotXorRight(M[r], x, y);
        forall c' | 0 <= c' < m && c' != c ensures !(M[r][c'] && z[c']) {
          if c' in piv {
            var r' := PivotRow(piv, rank, m, c');
          }
        }
        DotOne(M[r], z, c);
      }
    }
  }

  // ---------------------------------------------------------------------
  // Every solution as the particular vector plus a combination of the
  // free columns' vectors, chosen by the bits of a mask

  /** The columns below c that are no pivot, ascending. */
  function FreeUpTo(piv: seq<int>, c: nat): (fs: seq<nat>)
    ensures |fs| <= c && forall i :: 0 <= i < |fs| ==> fs[i] < c
  {
    if c == 0 then []
    else FreeUpTo(piv, c - 1) + (if c - 1 in piv then [] else [c - 1])
  }

  /** FreeUpTo lists exactly the non-pivot columns below c, in ascending order. */
  lemma {:induction false} FreeUpToShape(piv: seq<int>, c: nat)
    ensures var fs := FreeUpTo(piv, c);
            (forall i :: 0 <= i < |fs| ==> fs[i] < c && fs[i] !in piv) &&
            (forall i, j :: 0 <= i < j < |fs| ==> fs[i] < fs[j]) &&
            (forall d :: 0 <= d < c && d !in piv ==> d in fs)
  {
    if c > 0 {
      FreeUpToShape(piv, c - 1);
    }
  }

  /** The vectors of the free columns fs, in order. */
  function Basis(M: Mat, piv: seq<int>, fs: seq<nat>, m: nat): (B: seq<Vec>)
    requires Shaped(M, |piv|, m) && PivotsIn(piv, m) && forall i :: 0 <= i < |fs| ==> fs[i] < m
    ensures |B| == |fs| && forall i :: 0 <= i < |B| ==> |B[i]| == m
  {
    seq(|fs|, i requires 0 <= i < |fs| => BasisVec(M, piv, fs[i], m))
  }

  function Pow2(k: nat): (r: nat)
    ensures r >= 1
  {
    if k == 0 then 1 else 2 * Pow2(k - 1)
  }

  /**
   * y plus the vectors B[bi + i] for every bit i set in mm: bit 0 of mm
   * chooses B[bi], and mm is shifted right until it is 0.
   */
  function ComboMask(y: Vec, B: seq<Vec>, mm: nat, bi: nat): (x: Vec)
    requires bi <= |B| && mm < Pow2(|B| - bi)
    requires forall i :: 0 <= i < |B| ==> |B[i]| == |y|
    ensures |x| == |y|
    decreases mm
  {
    if mm == 0 then y
    else
      assert bi < |B| && mm / 2 < Pow2(|B| - (bi + 1));
      ComboMask(if mm % 2 == 1 then Xor(y, B[bi]) else y, B, mm / 2, bi + 1)
  }

  /** The number whose binary digits, lowest first, are bits. */
  function MaskOf(bits: seq<bool>): (mm: nat)
    ensures mm < Pow2(|bits|)
    ensures mm == 0 <==> forall i :: 0 <= i < |bits| ==> !bits[i]
  {
    if |bits| == 0 then 0
    else
      var rest := MaskOf(bits[1..]);
      assert forall i :: 1 <= i < |bits| ==> bits[i] == bits[1..][i - 1];
      (if bits[0] then 1 else 0) + 2 * rest
  }

  /** Adding a homogeneous solution to a solution gives a solution. */
  lemma {:induction false} XorSolves(M: Mat, b: Vec, y: Vec, v: Vec)
    requires Solves(M, b, y) && Solves(M, Zeros(|M|), v) && |y| == |v|
    ensures Solves(M, b, Xor(y, v))
  {
    forall r | 0 <= r < |M| ensures Dot(M[r], Xor(y, v)) == b[r] {
      DotXorRight(M[r], y, v);
    }
  }

  /** Any combination added to a solution is a solution. */
  lemma {:induction false} ComboSolves(M: Mat, b: Vec, y: Vec, B: seq<Vec>, mm: nat, bi: nat)
    requires bi <= |B| && mm < Pow2(|B| - bi)
    requires forall i :: 0 <= i < |B| ==> |B[i]| == |y| && Solves(M, Zeros(|M|), B[i])
    requires Solves(M, b, y)
    ensures Solves(M, b, ComboMask(y, B, mm, bi))
    decreases mm
  {
    if mm > 0 {
      assert bi < |B| && mm / 2 < Pow2(|B| - (bi + 1));
      var y' := if mm % 2 == 1 then Xor(y, B[bi]) else y;
      if mm % 2 == 1 {
        XorSolves(M, b, y, B[bi]);
      }
      ComboSolves(M, b, y', B, mm / 2, bi + 1);
    }
  }

  /**
   * When B[i] is 1 in column fs[j] exactly for i == j, the combination chosen
   * by the bits flips column fs[j] of y exactly when bit j - bi is set.
   */
  lemma {:induction false} ComboFree(y: Vec, B: seq<Vec>, fs: seq<nat>, bits: seq<bool>, bi: nat)
    requires |fs| == |B| && bi + |bits| == |B|
    requires forall i :: 0 <= i < |B| ==> |B[i]| == |y|
    requires forall j :: 0 <= j < |fs| ==> fs[j] < |y|
    requires forall i, j :: 0 <= i < |B| && 0 <= j < |fs| ==> B[i][fs[j]] == (i == j)
    ensures var x := ComboMask(y, B, MaskOf(bits), bi);
            forall j :: 0 <= j < |fs| ==> x[fs[j]] == (y[fs[j]] != (bi <= j && bits[j - bi]))
    decreases |bits|
  {
    var mm := MaskOf(bits);
    if mm > 0 {
      var rest := bits[1..];
      assert mm == (if bits[0] then 1 else 0) + 2 * MaskOf(rest);
      assert mm % 2 == 1 <==> bits[0];
      assert mm / 2 == MaskOf(rest);
      var y' := if bits[0] then Xor(y, B[bi]) else y;
      assert ComboMask(y, B, mm, bi) == ComboMask(y', B, MaskOf(rest), bi + 1);
      ComboFree(y', B, fs, rest, bi + 1);
      forall k | 0 <= k < |rest| ensures rest[k] == bits[k + 1] {
      }
    }
  }

  /**
   * Completeness: every solution of a reduced system of m unknowns is the
   * particular vector plus the combination of the free columns' vectors
   * chosen by some mask below 2^(number of free columns).
   */
  lemma {:induction false} Completeness(M: Mat, b: Vec, piv: seq<int>, rank: nat, m: nat, x: Vec) returns (mm: nat)
    requires Reduced(M, piv, rank, m) && |b| == |piv| && Solves(M, b, x) && |x| == m
    ensures var fs := FreeUpTo(piv, m);
            mm < Pow2(|fs|) &&
            ComboMask(Particular(b, piv, m), Basis(M, piv, fs, m), mm, 0) == x
  {
    var fs := FreeUpTo(piv, m);
    FreeUpToShape(piv, m);
    var B := Basis(M, piv, fs, m);
    var p := Particular(b, piv, m);
    var bits := seq(|fs|, j requires 0 <= j < |fs| => x[fs[j]]);
    mm := MaskOf(bits);
    SolvableConsistent(M, b, piv, rank, m, x);
    ParticularSolves(M, b, piv, rank, m);
    ParticularAt(M, b, piv, rank, m, |piv|);
    assert piv[..|piv|] == piv;
    forall i | 0 <= i < |B| ensures Solves(M, Zeros(|M|), B[i]) {
      BasisSolves(M, piv, rank, m, fs[i]);
    }
    forall i, j | 0 <= i < |B| && 0 <= j < |fs| ensures B[i][fs[j]] == (i == j) {
      BasisAt(M, piv, rank, fs[i], m, |piv|);
    }
    ComboSolves(M, b, p, B, mm, 0);
    var c := ComboMask(p, B, mm, 0);
    ComboFree(p, B, fs, bits, 0);
    forall d | 0 <= d < m && d !in piv ensures c[d] == x[d] {
      var j :| 0 <= j < |fs| && fs[j] == d;
    }
    FreeDetermines(M, b, piv, rank, m, c, x);
  }

  /** A system with a solution of m unknowns. */
  ghost predicate Solvable(M: Mat, b: Vec, m: nat) {
    exists x :: |x| == m && Solves(M, b, x)
  }

  /** w is the fewest set bits of any solution of m unknowns. */
  ghost predicate FewestOnes(M: Mat, b: Vec, m: nat, w: nat) {
    (exists x :: |x| == m && Solves(M, b, x) && Weight(x) == w) &&
    (forall x :: |x| == m && Solves(M, b, x) ==> w <= Weight(x))
  }

  /** w is the fewest set bits among the combinations of every mask. */
  ghost predicate FewestCombo(y: Vec, B: seq<Vec>, w: nat)
    requires forall i :: 0 <= i < |B| ==> |B[i]| == |y|
  {
    (exists mm: nat :: mm < Pow2(|B|) && Weight(ComboMask(y, B, mm, 0)) == w) &&
    (forall mm: nat :: mm < Pow2(|B|) ==> w <= Weight(ComboMask(y, B, mm, 0)))
  }

  /**
   * For a solvable reduced system, the fewest set bits over all masks'
   * combinations is the fewest set bits of any solution.
   */
  lemma {:induction false} FewestFromCombos(M: Mat, b: Vec, piv: seq<int>, rank: nat, m: nat, w: nat)
    requires Reduced(M, piv, rank, m) && |b| == |piv| && Solvable(M, b, m)
    requires FewestCombo(Particular(b, piv, m), Basis(M, piv, FreeUpTo(piv, m), m), w)
    ensures FewestOnes(M, b, m, w)
  {
    var fs := FreeUpTo(piv, m);
    FreeUpToShape(piv, m);
    var B := Basis(M, piv, fs, m);
    var p := Particular(b, piv, m);
    var x0 :| |x0| == m && Solves(M, b, x0);
    SolvableConsistent(M, b, piv, rank, m, x0);
    ParticularSolves(M, b, piv, rank, m);
    forall i | 0 <= i < |B| ensures Solves(M, Zeros(|M|), B[i]) {
      BasisSolves(M, piv, rank, m, fs[i]);
    }
    var mm: nat :| mm < Pow2(|B|) && Weight(ComboMask(p, B, mm, 0)) == w;
    ComboSolves(M, b, p, B, mm, 0);
    forall x | |x| == m && Solves(M, b, x) ensures w <= Weight(x) {
      var mx := Completeness(M, b, piv, rank, m, x);
    }
  }

  /** Systems with the same solutions have the same fewest set bits. */
  lemma FewestSame(M: Mat, b: Vec, M': Mat, b': Vec, m: nat, w: nat)
    requires SameSolutions(M, b, M', b', m) && FewestOnes(M', b', m, w)
    ensures FewestOnes(M, b, m, w)
  {
  }

  /**
   * The fewest set bits found on a reduced system that has the same
   * solutions as the original one is the original's fewest set bits.
   */
  lemma {:induction false} FewestAfterElimination(A: Mat, b: Vec, M: Mat, rhs: Vec, piv: seq<int>, rank: nat, m: nat, w: nat)
    requires SameSolutions(A, b, M, rhs, m) && Solvable(A, b, m)
    requires Reduced(M, piv, rank, m) && |rhs| == |piv|
    requires FewestCombo(Particular(rhs, piv, m), Basis(M, piv, FreeUpTo(piv, m), m), w)
    ensures FewestOnes(A, b, m, w)
  {
    var x0 :| |x0| == m && Solves(A, b, x0);
    assert Solves(M, rhs, x0);
    FewestFromCombos(M, rhs, piv, rank, m, w);
    FewestSame(A, b, M, rhs, m, w);
  }
}
