// Day 10 (Factory), part one: each machine line holds a light diagram
// "[.##.]", button wirings "(0,3) (1,2)" and joltage requirements "{...}".
// A button toggles the lights it lists; the answer for a machine is the
// fewest button presses that turn on exactly the '#' lights, found by
// Gaussian elimination over GF(2) and a search over the free variables.

module Factory {
  import opened Text
  import opened Gf2

  /** The light diagram between '[' and ']' and the light positions of each button. */
  datatype Machine = Machine(lights: string, buttons: seq<seq<int>>)

  /** Integer.MAX_VALUE, the starting value of the minimum search. */
  const IntMax: int := 0x7fff_ffff

  // ---------------------------------------------------------------------
  // Parsing

  /** A trimmed token read as a Java int. */
  function Number(t: string): Option<int> {
    ParseInt(Trim(t))
  }

  /** Every part must read as a number; the numbers in order. */
  function Numbers(parts: seq<string>): (r: Option<seq<int>>)
    ensures r.Some? <==> forall i :: 0 <= i < |parts| ==> Number(parts[i]).Some?
    ensures r.Some? ==> |r.value| == |parts| && forall i :: 0 <= i < |parts| ==> Number(parts[i]) == Some(r.value[i])
  {
    if forall i :: 0 <= i < |parts| ==> Number(parts[i]).Some?
    then Some(seq(|parts|, i requires 0 <= i < |parts| => Number(parts[i]).value))
    else None
  }

  /** The numbers of a button: the text between its parentheses, trimmed, split on ',' and every part read as a number. */
  function ButtonOf(group: string): Option<seq<int>> {
    Numbers(Split(Trim(group), ','))
  }

  /** The texts between each '(' and the next ')' from idx on, left to right; the scan stops when either is missing. */
  function Groups(part: string, idx: nat): (gs: seq<string>)
    decreases |part| - idx
  {
    var p1 := IndexOf(part, '(', idx);
    if p1 < 0 then []
    else
      var p2 := IndexOf(part, ')', p1);
      if p2 < 0 then [] else [part[p1 + 1..p2]] + Groups(part, p2 + 1)
  }

  /** Every text read by f, in order; None when f fails on one of them. */
  function ReadAll<T>(gs: seq<string>, f: string -> Option<T>): (r: Option<seq<T>>)
  {
    if |gs| == 0 then Some([])
    else
      var init := ReadAll(gs[..|gs| - 1], f);
      var b := f(gs[|gs| - 1]);
      if init.Some? && b.Some? then Some(init.value + [b.value]) else None
  }

  /** ReadAll reads one item per text, in order, and fails exactly when f fails on some text. */
  lemma {:induction false} ReadAllAt<T>(gs: seq<string>, f: string -> Option<T>)
    ensures ReadAll(gs, f).Some? <==> forall i :: 0 <= i < |gs| ==> f(gs[i]).Some?
    ensures ReadAll(gs, f).Some? ==>
              |ReadAll(gs, f).value| == |gs| && forall i :: 0 <= i < |gs| ==> f(gs[i]) == Some(ReadAll(gs, f).value[i])
  {
    if |gs| > 0 {
      var k := |gs| - 1;
      ReadAllAt(gs[..k], f);
      assert forall i :: 0 <= i < k ==> gs[..k][i] == gs[i];
    }
  }

  /**
   * The machine on a line, or None where the source throws: no ']', a '['
   * after the first ']', a '{' before it, or a button group that is not a
   * list of integers (an empty "()" included).
   */
  function ParseMachine(line: string): (r: Option<Machine>)
  {
    var lb := IndexOf(line, '[', 0);
    var rb := IndexOf(line, ']', 0);
    var cb := IndexOf(line, '{', 0);
    if rb < 0 || lb + 1 > rb || (cb >= 0 && cb < rb + 1) then None
    else MachineIn(line, lb, rb, cb)
  }

  /** The lights between '[' at lb and ']' at rb, and the buttons after rb, up to the '{' at cb when there is one. */
  function MachineIn(line: string, lb: int, rb: nat, cb: int): Option<Machine>
    requires 0 <= lb + 1 <= rb < |line| && (cb >= 0 ==> rb + 1 <= cb <= |line|)
  {
    var part := if cb >= 0 then line[rb + 1..cb] else line[rb + 1..];
    var bs := ReadAll(Groups(part, 0), ButtonOf);
    if bs.None? then None else Some(Machine(line[lb + 1..rb], bs.value))
  }

  /** Parses one button: trims the group, splits it on ',' and reads every part into an int array. */
  method ParseButton(group: string) returns (r: Option<seq<int>>)
    ensures r == ButtonOf(group)
  {
    var inside := Trim(group);
    r := ParseNumbers(Split(inside, ','));
  }

  method ParseNumbers(parts: seq<string>) returns (r: Option<seq<int>>)
    ensures r == Numbers(parts)
  {
    var arr := new int[|parts|];
    for i := 0 to |parts|
      invariant forall k :: 0 <= k < i ==> Number(parts[k]) == Some(arr[k])
    {
      var v := Number(parts[i]);
      if v.None? {
        assert !Numbers(parts).Some?;
        return None;
      }
      arr[i] := v.value;
    }
    assert Numbers(parts).Some?;
    assert Numbers(parts).value == arr[..];
    r := Some(arr[..]);
  }

  /**
   * One round of the button loop from idx: done when no "(...)" group is
   * left, otherwise the group's text and the index after its ')'.
   */
  method NextGroup(part: string, idx: nat) returns (done: bool, group: string, next: nat)
    ensures done ==> Groups(part, idx) == []
    ensures !done ==> idx < next <= |part| && Groups(part, idx) == [group] + Groups(part, next)
  {
    var p1 := IndexOf(part, '(', idx);
    if p1 < 0 {
      return true, "", idx;
    }
    var p2 := IndexOf(part, ')', p1);
    if p2 < 0 {
      return true, "", idx;
    }
    return false, part[p1 + 1..p2], p2 + 1;
  }

  /** A group read into a button extends both the groups seen and the buttons read. */
  lemma {:induction false} ReadMore<T>(gs: seq<string>, f: string -> Option<T>, seen: seq<string>, rest: seq<string>,
                                       group: string, xs: seq<T>, x: T)
    requires seen + ([group] + rest) == gs && ReadAll(seen, f) == Some(xs) && f(group) == Some(x)
    ensures (seen + [group]) + rest == gs && ReadAll(seen + [group], f) == Some(xs + [x])
  {
    assert (seen + [group])[..|seen|] == seen;
  }

  /** A group that fails to read makes the whole reading fail. */
  lemma {:induction false} ReadFails<T>(gs: seq<string>, f: string -> Option<T>, seen: seq<string>, rest: seq<string>,
                                        group: string)
    requires seen + ([group] + rest) == gs && f(group).None?
    ensures ReadAll(gs, f).None?
  {
    ReadAllAt(gs, f);
    assert gs[|seen|] == group;
  }

  /** The button loop: scans part for "(...)" groups from left to right and parses each. */
  method ParseButtons(part: string) returns (r: Option<seq<seq<int>>>)
    ensures r == ReadAll(Groups(part, 0), ButtonOf)
  {
    var buttons: seq<seq<int>> := [];
    var idx: nat := 0;
    ghost var seen: seq<string> := [];
    while true
      invariant seen + Groups(part, idx) == Groups(part, 0)
      invariant ReadAll(seen, ButtonOf) == Some(buttons)
      decreases |part| - idx
    {
      var done, group, next := NextGroup(part, idx);
      if done {
        assert seen + [] == seen;
        break;
      }
      var arr := ParseButton(group);
      if arr.None? {
        ReadFails(Groups(part, 0), ButtonOf, seen, Groups(part, next), group);
        return None;
      }
      ReadMore(Groups(part, 0), ButtonOf, seen, Groups(part, next), group, buttons, arr.value);
      seen := seen + [group];
      buttons := buttons + [arr.value];
      idx := next;
    }
    r := Some(buttons);
  }

  /** The machine on a line: the brackets and the brace are located first, then the buttons between them are scanned. */
  method ReadMachine(line: string) returns (r: Option<Machine>)
    ensures r == ParseMachine(line)
  {
    var lb := IndexOf(line, '[', 0);
    var rb := IndexOf(line, ']', 0);
    var cb := IndexOf(line, '{', 0);
    if rb < 0 || lb + 1 > rb || (cb >= 0 && cb < rb + 1) {
      r := None;
    } else {
      r := ReadParts(line, lb, rb, cb);
    }
  }

  method ReadParts(line: string, lb: int, rb: nat, cb: int) returns (r: Option<Machine>)
    requires 0 <= lb + 1 <= rb < |line| && (cb >= 0 ==> rb + 1 <= cb <= |line|)
    ensures r == MachineIn(line, lb, rb, cb)
  {
    var lights := line[lb + 1..rb];
    var part := if cb >= 0 then line[rb + 1..cb] else line[rb + 1..];
    var bs := ParseButtons(part);
    r := if bs.None? then None else Some(Machine(lights, bs.value));
  }

  // ---------------------------------------------------------------------
  // The system A x = b of a machine

  /** The number of times v occurs in s. */
  function Occurrences(s: seq<int>, v: int): (k: nat)
    ensures k <= |s|
  {
    if |s| == 0 then 0 else Occurrences(s[..|s| - 1], v) + if s[|s| - 1] == v then 1 else 0
  }

  /** A[i][j]: button j lists light i an odd number of times. */
  function Toggles(bs: seq<seq<int>>, n: nat): (A: Mat)
    ensures Shaped(A, n, |bs|)
  {
    seq(n, i => seq(|bs|, j requires 0 <= j < |bs| => Occurrences(bs[j], i) % 2 == 1))
  }

  /** b[i]: light i must end up on. */
  function Target(lights: string): (b: Vec)
    ensures |b| == |lights|
  {
    seq(|lights|, i requires 0 <= i < |lights| => lights[i] == '#')
  }

  /** How many times light i is toggled when each button j with x[j] is pressed once. */
  function PressCount(bs: seq<seq<int>>, x: Vec, i: int): nat
    requires |x| == |bs|
  {
    if |x| == 0 then 0
    else
      var k := |x| - 1;
      PressCount(bs[..k], x[..k], i) + if x[k] then Occurrences(bs[k], i) else 0
  }

  /** Pressing the buttons chosen by x once each leaves exactly the '#' lights on (all lights start off). */
  ghost predicate Presses(mc: Machine, x: Vec) {
    |x| == |mc.buttons| &&
    forall i :: 0 <= i < |mc.lights| ==> (PressCount(mc.buttons, x, i) % 2 == 1 <==> mc.lights[i] == '#')
  }

  /** w is the fewest buttons that turn the machine's lights into its diagram. */
  ghost predicate FewestPresses(mc: Machine, w: nat) {
    (exists x :: Presses(mc, x) && Weight(x) == w) && (forall x :: Presses(mc, x) ==> w <= Weight(x))
  }

  /** The equation of light i is the parity of the presses that toggle it. */
  lemma {:induction false} DotIsParity(bs: seq<seq<int>>, n: nat, x: Vec, i: nat)
    requires |x| == |bs| && i < n
    ensures Dot(Toggles(bs, n)[i], x) == (PressCount(bs, x, i) % 2 == 1)
  {
    if |x| > 0 {
      var k := |x| - 1;
      DotIsParity(bs[..k], n, x[..k], i);
      assert Toggles(bs, n)[i][..k] == Toggles(bs[..k], n)[i];
    }
  }

  /** The solutions of the machine's system are exactly the press sets that light the diagram. */
  lemma {:induction false} PressesSolves(mc: Machine, x: Vec)
    ensures Presses(mc, x) <==>
              |x| == |mc.buttons| && Solves(Toggles(mc.buttons, |mc.lights|), Target(mc.lights), x)
  {
    var A, b := Toggles(mc.buttons, |mc.lights|), Target(mc.lights);
    if |x| == |mc.buttons| {
      forall i | 0 <= i < |mc.lights| ensures Dot(A[i], x) == (PressCount(mc.buttons, x, i) % 2 == 1) {
        DotIsParity(mc.buttons, |mc.lights|, x, i);
      }
    }
  }

  /** The fewest set bits of a solution is the fewest presses. */
  lemma {:induction false} FewestIsPresses(mc: Machine, w: nat)
    requires FewestOnes(Toggles(mc.buttons, |mc.lights|), Target(mc.lights), |mc.buttons|, w)
    ensures FewestPresses(mc, w)
  {
    var A, b, m := Toggles(mc.buttons, |mc.lights|), Target(mc.lights), |mc.buttons|;
    var x0 :| |x0| == m && Solves(A, b, x0) && Weight(x0) == w;
    PressesSolves(mc, x0);
    forall x | Presses(mc, x) ensures w <= Weight(x) {
      PressesSolves(mc, x);
    }
  }

  /** A machine some press set can light has a solvable system. */
  lemma {:induction false} PressableSolvable(mc: Machine, x: Vec)
    requires Presses(mc, x)
    ensures Solvable(Toggles(mc.buttons, |mc.lights|), Target(mc.lights), |mc.buttons|)
  {
    PressesSolves(mc, x);
  }

  // ---------------------------------------------------------------------
  // Building the system in arrays

  /** The rows of a bit matrix held in a 2-D array. */
  function Rows(M: array2<bool>): (R: Mat)
    reads M
    ensures Shaped(R, M.Length0, M.Length1)
  {
    seq(M.Length0, i requires 0 <= i < M.Length0 reads M =>
      seq(M.Length1, j requires 0 <= j < M.Length1 reads M => M[i, j]))
  }

  /** The target vector b: b[i] is 1 exactly when light i is '#'. */
  method BuildTarget(lights: string) returns (b: array<bool>)
    ensures fresh(b) && b[..] == Target(lights)
  {
    b := new bool[|lights|];
    for i := 0 to |lights|
      invariant forall k :: 0 <= k < i ==> b[k] == (lights[k] == '#')
    {
      b[i] := lights[i] == '#';
    }
  }

  /**
   * The matrix A, n rows by one column per button: for every position pos
   * listed by button j, A[pos][j] is toggled when 0 <= pos < n; other
   * positions are ignored.
   */
  method BuildMatrix(bs: seq<seq<int>>, n: nat) returns (A: array2<bool>)
    ensures fresh(A) && A.Length0 == n && A.Length1 == |bs| && Rows(A) == Toggles(bs, n)
  {
    A := new bool[n, |bs|]((i, j) => false);
    for j := 0 to |bs|
      invariant forall i, j' :: 0 <= i < n && 0 <= j' < |bs| ==>
                  A[i, j'] == (j' < j && Occurrences(bs[j'], i) % 2 == 1)
    {
      var button := bs[j];
      for q := 0 to |button|
        invariant forall i, j' :: 0 <= i < n && 0 <= j' < |bs| ==>
                    A[i, j'] == (if j' < j then Occurrences(bs[j'], i) % 2 == 1
                                 else j' == j && Occurrences(button[..q], i) % 2 == 1)
      {
        assert button[..q + 1][..q] == button[..q];
        var pos := button[q];
        if 0 <= pos < n {
          A[pos, j] := !A[pos, j];
        }
      }
      assert button[..|button|] == button;
    }
    assert forall i :: 0 <= i < n ==> Rows(A)[i] == Toggles(bs, n)[i];
  }

  /** A copy of a matrix (Arrays.copyOf, row by row). */
  method CopyMatrix(A: array2<bool>) returns (M: array2<bool>)
    ensures fresh(M) && M.Length0 == A.Length0 && M.Length1 == A.Length1 && Rows(M) == Rows(A)
  {
    M := new bool[A.Length0, A.Length1];
    for i := 0 to A.Length0
      invariant forall i', c :: 0 <= i' < i && 0 <= c < A.Length1 ==> M[i', c] == A[i', c]
    {
      for c := 0 to A.Length1
        invariant forall i', c' :: 0 <= i' < A.Length0 && 0 <= c' < A.Length1 && (i' < i || (i' == i && c' < c)) ==>
                    M[i', c'] == A[i', c']
      {
        M[i, c] := A[i, c];
      }
    }
    assert forall i :: 0 <= i < A.Length0 ==> Rows(M)[i] == Rows(A)[i];
  }

  // ---------------------------------------------------------------------
  // Gaussian elimination over GF(2), in place

  /** The first row from row on with a 1 in column col, or -1. */
  method FindPivot(M: array2<bool>, row: nat, col: nat) returns (sel: int)
    requires row <= M.Length0 && col < M.Length1
    ensures sel == -1 ==> forall r :: row <= r < M.Length0 ==> !M[r, col]
    ensures sel != -1 ==> row <= sel < M.Length0 && M[sel, col] && forall r :: row <= r < sel ==> !M[r, col]
  {
    sel := -1;
    var r := row;
    while r < M.Length0
      invariant row <= r <= M.Length0
      invariant forall r' :: row <= r' < r ==> !M[r', col]
    {
      if M[r, col] {
        return r;
      }
      r := r + 1;
    }
  }

  /** Exchanges rows a and b of M and the same entries of rhs. */
  method SwapRows(M: array2<bool>, rhs: array<bool>, a: nat, b: nat)
    requires a < M.Length0 && b < M.Length0 && rhs.Length == M.Length0
    modifies M, rhs
    ensures Rows(M) == SwapAt(old(Rows(M)), a, b) && rhs[..] == SwapAt(old(rhs[..]), a, b)
  {
    ghost var M0, b0 := Rows(M), rhs[..];
    for c := 0 to M.Length1
      invariant rhs[..] == b0
      invariant forall i, c' :: 0 <= i < M.Length0 && 0 <= c' < M.Length1 ==>
                  M[i, c'] == M0[if c' < c then Swapped(i, a, b) else i][c']
    {
      var t := M[a, c];
      M[a, c] := M[b, c];
      M[b, c] := t;
    }
    var t := rhs[a];
    rhs[a] := rhs[b];
    rhs[b] := t;
    forall i | 0 <= i < M.Length0 ensures Rows(M)[i] == SwapAt(M0, a, b)[i] && rhs[i] == SwapAt(b0, a, b)[i] {
      assert SwapAt(M0, a, b)[i] == M0[Swapped(i, a, b)];
    }
  }

  /** The row that lands at index i when rows a and b are exchanged. */
  function Swapped(i: nat, a: nat, b: nat): nat {
    if i == a then b else if i == b then a else i
  }

  /** Adds row p into row r, from column col on; the columns before col of row p are 0. */
  method AddRowFrom(M: array2<bool>, r: nat, p: nat, col: nat)
    requires r < M.Length0 && p < M.Length0 && r != p && col <= M.Length1
    requires forall c :: 0 <= c < col ==> !M[p, c]
    modifies M
    ensures Rows(M) == AddRow(old(Rows(M)), r, p)
  {
    ghost var M0 := Rows(M);
    for c := col to M.Length1
      invariant forall i, c' :: 0 <= i < M.Length0 && 0 <= c' < M.Length1 ==>
                  M[i, c'] == if i == r && col <= c' < c then M0[r][c'] != M0[p][c'] else M0[i][c']
    {
      M[r, c] := M[r, c] != M[p, c];
    }
    forall i | 0 <= i < M.Length0 ensures Rows(M)[i] == AddRow(M0, r, p)[i] {
    }
  }

  /** Adds row p into every other row with a 1 in column col, right-hand sides included. */
  method ClearColumn(M: array2<bool>, rhs: array<bool>, p: nat, col: nat)
    requires p < M.Length0 && col < M.Length1 && rhs.Length == M.Length0
    requires forall c :: 0 <= c < col ==> !M[p, c]
    modifies M, rhs
    ensures Rows(M) == ClearUpTo(old(Rows(M)), p, col, M.Length0)
    ensures rhs[..] == ClearBitsUpTo(old(rhs[..]), old(Rows(M)), p, col, M.Length0)
  {
    ghost var M0, b0 := Rows(M), rhs[..];
    for r := 0 to M.Length0
      invariant Rows(M) == ClearUpTo(M0, p, col, r)
      invariant rhs[..] == ClearBitsUpTo(b0, M0, p, col, r)
    {
      ClearStep(M0, b0, p, col, r, M.Length1);
      assert M[r, col] == Rows(M)[r][col] == M0[r][col];
      if r != p && M[r, col] {
        assert Rows(M)[p] == M0[p];
        assert forall c :: 0 <= c < col ==> !M[p, c] by {
          forall c | 0 <= c < col ensures !M[p, c] {
            assert M[p, c] == Rows(M)[p][c];
          }
        }
        ghost var b1 := rhs[..];
        AddRowFrom(M, r, p, col);
        rhs[r] := rhs[r] != rhs[p];
        assert rhs[..] == AddBit(b1, r, p);
      }
    }
  }

  /**
   * One column of the elimination: when some row from row on has a 1 in
   * column col, the first such row is swapped up to row, becomes the pivot
   * row of col, and col is cleared in every other row.
   */
  method EliminateColumn(M: array2<bool>, rhs: array<bool>, piv: array<int>, row: nat, col: nat) returns (row': nat)
    requires rhs.Length == M.Length0 && piv.Length == M.Length0
    requires Echelon(Rows(M), piv[..], row, col, M.Length1) && row < M.Length0 && col < M.Length1
    modifies M, rhs, piv
    ensures Echelon(Rows(M), piv[..], row', col + 1, M.Length1) && row <= row' <= row + 1
    ensures SameSolutions(old(Rows(M)), old(rhs[..]), Rows(M), rhs[..], M.Length1)
  {
    var sel := FindPivot(M, row, col);
    if sel == -1 {
      SameRefl(Rows(M), rhs[..], M.Length1);
      EchelonSkip(Rows(M), piv[..], row, col, M.Length1);
      return row;
    }
    ghost var M0, b0 := Rows(M), rhs[..];
    if sel != row {
      SwapUp(M, rhs, piv, row, col, sel);
    } else {
      SameRefl(M0, b0, M.Length1);
    }
    ghost var M1, b1 := Rows(M), rhs[..];
    TakePivot(M, rhs, piv, row, col);
    SameTrans(M0, b0, M1, b1, Rows(M), rhs[..], M.Length1);
    return row + 1;
  }

  /** Brings row sel, which has a 1 in column col, up to row. */
  method SwapUp(M: array2<bool>, rhs: array<bool>, piv: array<int>, row: nat, col: nat, sel: nat)
    requires rhs.Length == M.Length0 && piv.Length == M.Length0
    requires Echelon(Rows(M), piv[..], row, col, M.Length1) && row <= sel < M.Length0 && col < M.Length1
    requires M[sel, col]
    modifies M, rhs
    ensures Echelon(Rows(M), piv[..], row, col, M.Length1) && M[row, col]
    ensures SameSolutions(old(Rows(M)), old(rhs[..]), Rows(M), rhs[..], M.Length1)
  {
    ghost var M0, b0 := Rows(M), rhs[..];
    assert M0[sel][col];
    SwapRows(M, rhs, row, sel);
    SwapSame(M0, b0, row, sel, M.Length1);
    EchelonSwap(M0, piv[..], row, col, M.Length1, sel);
    assert M[row, col] == Rows(M)[row][col];
  }

  /** Makes row the pivot row of column col and clears col in every other row. */
  method TakePivot(M: array2<bool>, rhs: array<bool>, piv: array<int>, row: nat, col: nat)
    requires rhs.Length == M.Length0 && piv.Length == M.Length0
    requires Echelon(Rows(M), piv[..], row, col, M.Length1) && row < M.Length0 && col < M.Length1
    requires M[row, col]
    modifies M, rhs, piv
    ensures Echelon(Rows(M), piv[..], row + 1, col + 1, M.Length1)
    ensures SameSolutions(old(Rows(M)), old(rhs[..]), Rows(M), rhs[..], M.Length1)
  {
    ghost var M1, b1, piv1 := Rows(M), rhs[..], piv[..];
    assert M1[row][col];
    assert forall c :: 0 <= c < col ==> !M[row, c] by {
      forall c | 0 <= c < col ensures !M[row, c] {
        assert M[row, c] == M1[row][c];
      }
    }
    piv[row] := col;
    ClearColumn(M, rhs, row, col);
    ClearSame(M1, b1, row, col, M.Length0, M.Length1);
    EchelonPivot(M1, piv1, row, col, M.Length1);
  }

  /**
   * The elimination loop: columns left to right while rows remain. The
   * result is reduced, with piv[r] the pivot column of row r (-1 from rank
   * on), and has the same solutions as the system it started from.
   */
  method Eliminate(M: array2<bool>, rhs: array<bool>) returns (piv: array<int>, rank: nat)
    requires rhs.Length == M.Length0
    modifies M, rhs
    ensures fresh(piv) && piv.Length == M.Length0
    ensures Reduced(Rows(M), piv[..], rank, M.Length1)
    ensures SameSolutions(old(Rows(M)), old(rhs[..]), Rows(M), rhs[..], M.Length1)
  {
    var n, m := M.Length0, M.Length1;
    ghost var M0, b0 := Rows(M), rhs[..];
    piv := new int[n](_ => -1);
    EchelonStart(M0, piv[..], m);
    SameRefl(M0, b0, m);
    var row, col := 0, 0;
    while col < m && row < n
      invariant col <= m
      invariant Echelon(Rows(M), piv[..], row, col, m)
      invariant SameSolutions(M0, b0, Rows(M), rhs[..], m)
    {
      ghost var M1, b1 := Rows(M), rhs[..];
      row := EliminateColumn(M, rhs, piv, row, col);
      SameTrans(M0, b0, M1, b1, Rows(M), rhs[..], m);
      col := col + 1;
    }
    EchelonDone(Rows(M), piv[..], row, col, m);
    rank := row;
  }

  // ---------------------------------------------------------------------
  // Reading the solutions off the reduced system

  /** The particular solution: each pivot variable takes its row's right-hand side, the free ones 0. */
  method BuildParticular(rhs: array<bool>, piv: array<int>, m: nat) returns (x: array<bool>)
    requires rhs.Length == piv.Length && PivotsIn(piv[..], m)
    ensures fresh(x) && x[..] == Particular(rhs[..], piv[..], m)
  {
    x := new bool[m](_ => false);
    assert x[..] == Zeros(m);
    for r := 0 to piv.Length
      invariant x[..] == ParticularUpTo(rhs[..], piv[..], m, r)
    {
      var pc := piv[r];
      if pc != -1 {
        x[pc] := rhs[r];
      }
    }
  }

  /** The columns that are no row's pivot, ascending. */
  method FreeColumns(piv: array<int>, m: nat) returns (fs: seq<nat>)
    requires PivotsIn(piv[..], m)
    ensures fs == FreeUpTo(piv[..], m)
  {
    var isPivot := new bool[m](_ => false);
    for r := 0 to piv.Length
      invariant forall c :: 0 <= c < m ==> (isPivot[c] <==> c in piv[..r])
    {
      assert piv[..r + 1] == piv[..r] + [piv[r]];
      if piv[r] != -1 {
        isPivot[piv[r]] := true;
      }
    }
    assert piv[..piv.Length] == piv[..];
    fs := [];
    for c := 0 to m
      invariant fs == FreeUpTo(piv[..], c)
    {
      if !isPivot[c] {
        fs := fs + [c];
      }
    }
  }

  /** Row i of the basis: the null-space vector of free column f. */
  method FillBasisRow(B: array2<bool>, i: nat, M: array2<bool>, piv: array<int>, f: nat)
    requires B != M && i < B.Length0 && B.Length1 == M.Length1 && f < M.Length1
    requires piv.Length == M.Length0 && PivotsIn(piv[..], M.Length1)
    requires forall c :: 0 <= c < B.Length1 ==> !B[i, c]
    modifies B
    ensures forall i', c :: 0 <= i' < B.Length0 && 0 <= c < B.Length1 ==>
              B[i', c] == if i' == i then BasisVec(Rows(M), piv[..], f, M.Length1)[c] else old(B[i', c])
  {
    ghost var M0 := Rows(M);
    B[i, f] := true;
    for r := 0 to piv.Length
      invariant forall i', c :: 0 <= i' < B.Length0 && 0 <= c < B.Length1 ==>
                  B[i', c] == if i' == i then BasisUpTo(M0, piv[..], f, M.Length1, r)[c] else old(B[i', c])
    {
      var pc := piv[r];
      if pc != -1 && M[r, f] {
        assert M[r, f] == M0[r][f];
        B[i, pc] := true;
      }
    }
  }

  /** One null-space vector per free column, as the rows of a k x m array. */
  method BuildBasis(M: array2<bool>, piv: array<int>, fs: seq<nat>) returns (B: array2<bool>)
    requires piv.Length == M.Length0 && PivotsIn(piv[..], M.Length1)
    requires forall i :: 0 <= i < |fs| ==> fs[i] < M.Length1
    ensures fresh(B) && B.Length0 == |fs| && B.Length1 == M.Length1
    ensures Rows(B) == Basis(Rows(M), piv[..], fs, M.Length1)
  {
    B := new bool[|fs|, M.Length1]((i, c) => false);
    for i := 0 to |fs|
      invariant forall i', c :: 0 <= i' < |fs| && 0 <= c < M.Length1 ==>
                  B[i', c] == (i' < i && BasisVec(Rows(M), piv[..], fs[i'], M.Length1)[c])
    {
      FillBasisRow(B, i, M, piv, fs[i]);
    }
    assert forall i :: 0 <= i < |fs| ==> Rows(B)[i] == Basis(Rows(M), piv[..], fs, M.Length1)[i];
  }

  // ---------------------------------------------------------------------
  // Trying every combination of the basis

  lemma {:induction false} Pow2Grows(a: nat, b: nat)
    requires a <= b
    ensures Pow2(a) <= Pow2(b)
    decreases b
  {
    if a < b {
      Pow2Grows(a, b - 1);
    }
  }

  /**
   * Java's 1 << k on a 32-bit int: the shift distance is taken mod 32 and
   * a 1 shifted into bit 31 is the sign bit.
   */
  function ShiftLeftOne(k: nat): (r: int)
    ensures r <= Pow2(k)
    ensures k < 31 ==> r == Pow2(k)
  {
    Pow2Grows(k % 32, k);
    if k % 32 == 31 then -0x8000_0000 else Pow2(k % 32)
  }

  /** x becomes x XOR row bi of B. */
  method XorInto(x: array<bool>, B: array2<bool>, bi: nat)
    requires bi < B.Length0 && B.Length1 == x.Length
    modifies x
    ensures x[..] == Xor(old(x[..]), Rows(B)[bi])
  {
    ghost var x0 := x[..];
    for c := 0 to x.Length
      invariant forall c' :: 0 <= c' < x.Length ==> x[c'] == if c' < c then x0[c'] != B[bi, c'] else x0[c']
    {
      x[c] := x[c] != B[bi, c];
    }
  }

  lemma ComboStep(y: Vec, B: seq<Vec>, mm: nat, bi: nat)
    requires bi < |B| && 0 < mm < Pow2(|B| - bi)
    requires forall i :: 0 <= i < |B| ==> |B[i]| == |y|
    ensures mm / 2 < Pow2(|B| - (bi + 1))
    ensures ComboMask(y, B, mm, bi) == ComboMask(if mm % 2 == 1 then Xor(y, B[bi]) else y, B, mm / 2, bi + 1)
  {
  }

  /** The particular solution plus the basis rows chosen by the bits of mask. */
  method Combination(p: array<bool>, B: array2<bool>, mask: nat) returns (x: array<bool>)
    requires B.Length1 == p.Length && mask < Pow2(B.Length0)
    ensures fresh(x) && x[..] == ComboMask(p[..], Rows(B), mask, 0)
  {
    ghost var R := Rows(B);
    x := new bool[p.Length](c requires 0 <= c < p.Length reads p => p[c]);
    assert x[..] == p[..];
    var mm: nat, bi: nat := mask, 0;
    while mm != 0
      invariant bi <= B.Length0 && mm < Pow2(B.Length0 - bi)
      invariant x.Length == p.Length
      invariant ComboMask(x[..], R, mm, bi) == ComboMask(p[..], R, mask, 0)
      decreases mm
    {
      assert bi < B.Length0;
      ComboStep(x[..], R, mm, bi);
      if mm % 2 == 1 {
        XorInto(x, B, bi);
      }
      bi := bi + 1;
      mm := mm / 2;
    }
  }

  /** The number of set bits of x. */
  method CountOnes(x: array<bool>) returns (w: nat)
    ensures w == Weight(x[..])
  {
    w := 0;
    for c := 0 to x.Length
      invariant w == Weight(x[..c])
    {
      assert x[..c + 1][..c] == x[..c];
      if x[c] {
        w := w + 1;
      }
    }
    assert x[..x.Length] == x[..];
  }

  /** The number of set bits of the combination chosen by mask. */
  method MaskWeight(p: array<bool>, B: array2<bool>, mask: nat) returns (w: nat)
    requires B.Length1 == p.Length && mask < Pow2(B.Length0)
    ensures w == Weight(ComboMask(p[..], Rows(B), mask, 0))
  {
    var x := Combination(p, B, mask);
    w := CountOnes(x);
  }

  /**
   * The fewest set bits over the combinations of the first 1 << k masks,
   * starting from Integer.MAX_VALUE; with fewer than 31 basis rows that is
   * every mask.
   */
  method FewestWeight(p: array<bool>, B: array2<bool>) returns (best: nat)
    requires B.Length1 == p.Length
    ensures best <= IntMax
    ensures B.Length0 < 31 && p.Length < IntMax ==> FewestCombo(p[..], Rows(B), best)
  {
    ghost var R, y := Rows(B), p[..];
    best := IntMax;
    var combos := ShiftLeftOne(B.Length0);
    var mask := 0;
    while mask < combos
      invariant 0 <= mask <= Pow2(B.Length0) && (combos >= 0 ==> mask <= combos)
      invariant best <= IntMax
      invariant forall mm: nat :: mm < mask ==> best <= Weight(ComboMask(y, R, mm, 0))
      invariant best == IntMax || exists mm: nat :: mm < mask && Weight(ComboMask(y, R, mm, 0)) == best
    {
      var weight := MaskWeight(p, B, mask);
      if weight < best {
        best := weight;
      }
      mask := mask + 1;
    }
    if B.Length0 < 31 && p.Length < IntMax {
      assert best <= Weight(ComboMask(y, R, 0, 0));
    }
  }

  /**
   * The fewest set bits over every combination of a reduced system's
   * solutions; exact whenever fewer than 31 columns are free.
   */
  method FewestReduced(M: array2<bool>, rhs: array<bool>, piv: array<int>, rank: nat) returns (best: nat)
    requires rhs.Length == piv.Length && Reduced(Rows(M), piv[..], rank, M.Length1)
    ensures best <= IntMax
    ensures |FreeUpTo(piv[..], M.Length1)| < 31 && M.Length1 < IntMax ==>
              var p := Particular(rhs[..], piv[..], M.Length1);
              var B := Basis(Rows(M), piv[..], FreeUpTo(piv[..], M.Length1), M.Length1);
              FewestCombo(p, B, best) && best <= Weight(p)
  {
    var m := M.Length1;
    var x := BuildParticular(rhs, piv, m);
    var fs := FreeColumns(piv, m);
    var B := BuildBasis(M, piv, fs);
    best := FewestWeight(x, B);
    if |fs| < 31 && m < IntMax {
      assert best <= Weight(ComboMask(x[..], Rows(B), 0, 0));
    }
  }

  /**
   * Solves A x = b over GF(2) on copies of A and b: elimination, the
   * particular solution, the null-space basis and every combination.
   */
  method FewestSolution(A: array2<bool>, b: array<bool>) returns (best: nat)
    requires b.Length == A.Length0
    ensures best <= IntMax
    ensures A.Length1 < 31 ==> best <= A.Length1
    ensures A.Length1 < 31 && Solvable(Rows(A), b[..], A.Length1) ==> FewestOnes(Rows(A), b[..], A.Length1, best)
  {
    var M := CopyMatrix(A);
    var rhs := new bool[b.Length](i requires 0 <= i < b.Length reads b => b[i]);
    assert rhs[..] == b[..];
    var piv, rank := Eliminate(M, rhs);
    best := FewestReduced(M, rhs, piv, rank);
    if A.Length1 < 31 && Solvable(Rows(A), b[..], A.Length1) {
      FewestAfterElimination(Rows(A), b[..], Rows(M), rhs[..], piv[..], rank, A.Length1, best);
    }
  }

  // ---------------------------------------------------------------------
  // Part one

  /** Some set of presses lights the machine's diagram. */
  ghost predicate Pressable(mc: Machine) {
    exists x :: Presses(mc, x)
  }

  /** A line that parses into a pressable machine with fewer than 31 buttons. */
  ghost predicate Tractable(line: string) {
    var mc := ParseMachine(line);
    mc.Some? && |mc.value.buttons| < 31 && Pressable(mc.value)
  }

  /**
   * The fewest presses for one line: None when the line does not parse;
   * otherwise the fewest presses for a pressable machine with fewer than 31
   * buttons, and never more than its number of buttons.
   */
  method SolveMachineLights(line: string) returns (r: Option<nat>)
    ensures r.None? <==> ParseMachine(line).None?
    ensures r.Some? ==>
              var mc := ParseMachine(line).value;
              r.value <= IntMax &&
              (|mc.buttons| < 31 ==> r.value <= |mc.buttons| && (Pressable(mc) ==> FewestPresses(mc, r.value)))
  {
    var mc := ReadMachine(line);
    if mc.None? {
      return None;
    }
    var A := BuildMatrix(mc.value.buttons, |mc.value.lights|);
    var b := BuildTarget(mc.value.lights);
    var best := FewestSolution(A, b);
    if |mc.value.buttons| < 31 && Pressable(mc.value) {
      var x :| Presses(mc.value, x);
      PressableSolvable(mc.value, x);
      FewestIsPresses(mc.value, best);
    }
    return Some(best);
  }

  /** total is the sum over the lines of each machine's fewest presses. */
  ghost predicate FewestTotal(lines: seq<string>, total: int)
    decreases |lines|
  {
    if |lines| == 0 then total == 0
    else
      var mc := ParseMachine(lines[|lines| - 1]);
      mc.Some? && exists w: nat :: FewestPresses(mc.value, w) && FewestTotal(lines[..|lines| - 1], total - w)
  }

  /** p holds of every element of s. */
  predicate Every<T>(s: seq<T>, p: T -> bool) {
    forall k :: 0 <= k < |s| ==> p(s[k])
  }

  lemma EverySnoc<T>(s: seq<T>, i: nat, p: T -> bool)
    requires i < |s|
    ensures Every(s[..i + 1], p) <==> Every(s[..i], p) && p(s[i])
  {
    assert s[..i + 1][i] == s[i];
    assert forall k :: 0 <= k < i ==> s[..i + 1][k] == s[..i][k];
  }

  /** The line parses into a machine. */
  predicate Parses(line: string) {
    ParseMachine(line).Some?
  }

  /** Every line parses. */
  predicate AllParse(lines: seq<string>) {
    Every(lines, Parses)
  }

  /** Every line is tractable. */
  ghost predicate AllTractable(lines: seq<string>) {
    Every(lines, Tractable)
  }

  lemma TotalSnoc(lines: seq<string>, i: nat, total: int, w: nat)
    requires i < |lines| && FewestTotal(lines[..i], total)
    requires ParseMachine(lines[i]).Some? && FewestPresses(ParseMachine(lines[i]).value, w)
    ensures FewestTotal(lines[..i + 1], total + w)
  {
    assert lines[..i + 1][..i] == lines[..i];
  }

  /** One more line's result keeps the running sum's meaning. */
  lemma SilverStep(lines: seq<string>, i: nat, total: int, v: nat)
    requires i < |lines| && AllParse(lines[..i]) && (AllTractable(lines[..i]) ==> FewestTotal(lines[..i], total))
    requires Parses(lines[i])
    requires Tractable(lines[i]) ==> FewestPresses(ParseMachine(lines[i]).value, v)
    ensures AllParse(lines[..i + 1]) && (AllTractable(lines[..i + 1]) ==> FewestTotal(lines[..i + 1], total + v))
  {
    EverySnoc(lines, i, Parses);
    EverySnoc(lines, i, Tractable);
    if AllTractable(lines[..i + 1]) {
      TotalSnoc(lines, i, total, v);
    }
  }

  /** Part one: the sum of the fewest presses over all machines; None when a line does not parse. */
  method SolveSilver(input: seq<string>) returns (r: Option<int>)
    ensures r.None? <==> !AllParse(input)
    ensures r.Some? && AllTractable(input) ==> FewestTotal(input, r.value)
  {
    var sum := 0;
    for i := 0 to |input|
      invariant AllParse(input[..i])
      invariant AllTractable(input[..i]) ==> FewestTotal(input[..i], sum)
    {
      var v := SolveMachineLights(input[i]);
      if v.None? {
        return None;
      }
      SilverStep(input, i, sum, v.value);
      sum := sum + v.value;
    }
    assert input[..|input|] == input;
    return Some(sum);
  }
}
