/**
 * Day 06, Trash Compactor: a worksheet of arithmetic problems laid out in
 * columns, the last line holding each problem's operator. Silver reads the
 * numbers as whitespace-separated tokens, one problem per token column;
 * Gold reads each character column, right to left, as one number written
 * top to bottom, a problem being a run of such columns that ends at the
 * column carrying its operator. Any Java exception (an empty input, a
 * missing token, an unparsable number, an empty problem) is None.
 */
module TrashCompactor {
  import opened Text

  // ---------------------------------------------------------------------
  // applyOperator

  function Combine(acc: int, x: int, op: char): int {
    if op == '+' then acc + x else acc * x
  }

  /** The left fold of applyOperator, starting from the first number. */
  function Apply(numbers: seq<int>, op: char): int
    requires |numbers| > 0
  {
    if |numbers| == 1 then numbers[0]
    else Combine(Apply(numbers[..|numbers| - 1], op), numbers[|numbers| - 1], op)
  }

  method ApplyOperator(numbers: seq<int>, op: char) returns (temp: int)
    requires |numbers| > 0
    ensures temp == Apply(numbers, op)
  {
    temp := numbers[0];
    assert numbers[..1] == [numbers[0]];
    for i := 1 to |numbers|
      invariant temp == Apply(numbers[..i], op)
    {
      assert numbers[..i + 1][..i] == numbers[..i];
      if op == '+' {
        temp := temp + numbers[i];
      } else {
        temp := temp * numbers[i];
      }
    }
    assert numbers[..|numbers|] == numbers;
  }

  /** Reference sum and product, folded from the front. */
  function Sum(s: seq<int>): int {
    if |s| == 0 then 0 else s[0] + Sum(s[1..])
  }

  function Product(s: seq<int>): int {
    if |s| == 0 then 1 else s[0] * Product(s[1..])
  }

  lemma {:induction false} SumSnoc(s: seq<int>, x: int)
    ensures Sum(s + [x]) == Sum(s) + x
  {
    if |s| > 0 {
      assert (s + [x])[1..] == s[1..] + [x];
      SumSnoc(s[1..], x);
    }
  }

  lemma {:induction false} ProductSnoc(s: seq<int>, x: int)
    ensures Product(s + [x]) == Product(s) * x
  {
    if |s| > 0 {
      assert (s + [x])[1..] == s[1..] + [x];
      ProductSnoc(s[1..], x);
    }
  }

  /** applyOperator with '+' is the sum of the numbers. */
  lemma {:induction false} ApplyPlusIsSum(numbers: seq<int>)
    requires |numbers| > 0
    ensures Apply(numbers, '+') == Sum(numbers)
  {
    if |numbers| == 1 {
      assert numbers[1..] == [];
    } else {
      var init := numbers[..|numbers| - 1];
      ApplyPlusIsSum(init);
      SumSnoc(init, numbers[|numbers| - 1]);
      assert init + [numbers[|numbers| - 1]] == numbers;
    }
  }

  /** applyOperator with any other operator is the product of the numbers. */
  lemma {:induction false} ApplyOtherIsProduct(numbers: seq<int>, op: char)
    requires |numbers| > 0 && op != '+'
    ensures Apply(numbers, op) == Product(numbers)
  {
    if |numbers| == 1 {
      assert numbers[1..] == [];
    } else {
      var init := numbers[..|numbers| - 1];
      ApplyOtherIsProduct(init, op);
      ProductSnoc(init, numbers[|numbers| - 1]);
      assert init + [numbers[|numbers| - 1]] == numbers;
    }
  }

  function Reverse(s: seq<int>): (r: seq<int>)
    ensures |r| == |s|
  {
    if |s| == 0 then [] else Reverse(s[1..]) + [s[0]]
  }

  /** The order in which the numbers are read does not change the result. */
  lemma {:induction false} ApplyReversed(numbers: seq<int>, op: char)
    requires |numbers| > 0
    ensures Apply(Reverse(numbers), op) == Apply(numbers, op)
  {
    ReverseSumProduct(numbers);
    if op == '+' {
      ApplyPlusIsSum(numbers);
      ApplyPlusIsSum(Reverse(numbers));
    } else {
      ApplyOtherIsProduct(numbers, op);
      ApplyOtherIsProduct(Reverse(numbers), op);
    }
  }

  lemma {:induction false} ReverseSumProduct(s: seq<int>)
    ensures Sum(Reverse(s)) == Sum(s) && Product(Reverse(s)) == Product(s)
  {
    if |s| > 0 {
      ReverseSumProduct(s[1..]);
      SumSnoc(Reverse(s[1..]), s[0]);
      ProductSnoc(Reverse(s[1..]), s[0]);
    }
  }

  // ---------------------------------------------------------------------
  // Silver: token columns

  /** line.trim().split("\\s+"). */
  function Tokens(line: string): seq<string> {
    SplitSpaces(Trim(line))
  }

  /** The token rows of the input, in order. */
  function Rows(input: seq<string>): seq<seq<string>> {
    Map(input, Tokens)
  }

  /** f applied to each element, in order. */
  function Map<A, B>(s: seq<A>, f: A -> B): (r: seq<B>)
    ensures |r| == |s|
  {
    if |s| == 0 then [] else Map(s[..|s| - 1], f) + [f(s[|s| - 1])]
  }

  lemma {:induction false} MapAt<A, B>(s: seq<A>, f: A -> B, k: nat)
    requires k < |s|
    ensures Map(s, f)[k] == f(s[k])
  {
    if k < |s| - 1 {
      MapAt(s[..|s| - 1], f, k);
    }
  }

  /** The numbers of token column i in rows[..k]; None when a row has no i-th token or it is not a number. */
  function ColumnNumbers(rows: seq<seq<string>>, i: nat, k: nat): (r: Option<seq<int>>)
    requires k <= |rows|
    ensures r.Some? ==> |r.value| == k
  {
    if k == 0 then Some([])
    else match ColumnNumbers(rows, i, k - 1)
      case None => None
      case Some(ns) =>
        if i < |rows[k - 1]| && ParseInt(rows[k - 1][i]).Some? then Some(ns + [ParseInt(rows[k - 1][i]).value])
        else None
  }

  lemma {:induction false} ColumnNumbersStayFailed(rows: seq<seq<string>>, i: nat, j: nat, k: nat)
    requires j <= k <= |rows| && ColumnNumbers(rows, i, j).None?
    ensures ColumnNumbers(rows, i, k).None?
    decreases k - j
  {
    if j < k {
      ColumnNumbersStayFailed(rows, i, j, k - 1);
    }
  }

  /** One problem of Silver: the last row's i-th token names the operator. */
  function ColumnValue(rows: seq<seq<string>>, i: nat): Option<int>
    requires |rows| > 0
  {
    var opRow := rows[|rows| - 1];
    if i >= |opRow| || |opRow[i]| == 0 then None
    else match ColumnNumbers(rows, i, |rows| - 1)
      case None => None
      case Some(ns) => if |ns| == 0 then None else Some(Apply(ns, opRow[i][0]))
  }

  /** The sum of the first c problems. */
  function SilverSum(rows: seq<seq<string>>, c: nat): Option<int>
    requires |rows| > 0
  {
    if c == 0 then Some(0)
    else match SilverSum(rows, c - 1)
      case None => None
      case Some(s) => match ColumnValue(rows, c - 1)
        case None => None
        case Some(v) => Some(s + v)
  }

  lemma {:induction false} SilverSumStaysFailed(rows: seq<seq<string>>, j: nat, c: nat)
    requires |rows| > 0 && j <= c && SilverSum(rows, j).None?
    ensures SilverSum(rows, c).None?
    decreases c - j
  {
    if j < c {
      SilverSumStaysFailed(rows, j, c - 1);
    }
  }

  /** Silver: as many problems as the first line has tokens. */
  function Silver(input: seq<string>): Option<int> {
    if |input| == 0 then None else SilverOf(Rows(input))
  }

  function SilverOf(rows: seq<seq<string>>): Option<int>
    requires |rows| > 0
  {
    SilverSum(rows, |rows[0]|)
  }

  method ReadRows(input: seq<string>) returns (values: seq<seq<string>>)
    ensures values == Rows(input)
  {
    values := [];
    for k := 0 to |input|
      invariant values == Map(input[..k], Tokens)
    {
      assert input[..k + 1][..k] == input[..k];
      values := values + [Tokens(input[k])];
    }
    assert input[..|input|] == input;
  }

  /** The numbers and operator of token column i, applied (solveSilver's loop body). */
  method SolveColumn(values: seq<seq<string>>, i: nat) returns (v: Option<int>)
    requires |values| > 0
    ensures v == ColumnValue(values, i)
  {
    var lines := |values|;
    if i >= |values[lines - 1]| || |values[lines - 1][i]| == 0 {
      return None;
    }
    var op := values[lines - 1][i][0];
    var numbers: seq<int> := [];
    for j := 0 to lines - 1
      invariant ColumnNumbers(values, i, j) == Some(numbers)
    {
      if i >= |values[j]| || ParseInt(values[j][i]).None? {
        ColumnNumbersStayFailed(values, i, j + 1, lines - 1);
        return None;
      }
      numbers := numbers + [ParseInt(values[j][i]).value];
    }
    if |numbers| == 0 {
      return None;
    }
    var applied := ApplyOperator(numbers, op);
    v := Some(applied);
  }

  method SolveSilver(input: seq<string>) returns (r: Option<int>)
    ensures r == Silver(input)
  {
    if |input| == 0 {
      return None;
    }
    var values := ReadRows(input);
    r := SolveRows(values);
  }

  /** The column loop of solveSilver over the token rows. */
  method SolveRows(values: seq<seq<string>>) returns (r: Option<int>)
    requires |values| > 0
    ensures r == SilverOf(values)
  {
    var columns := |values[0]|;
    var result := 0;
    for i := 0 to columns
      invariant SilverSum(values, i) == Some(result)
    {
      var v := SolveColumn(values, i);
      if v.None? {
        SilverSumStaysFailed(values, i + 1, columns);
        return None;
      }
      result := result + v.value;
    }
    r := Some(result);
  }

  // ---------------------------------------------------------------------
  // Silver reads back a worksheet written with single spaces

  /** A grid of numbers, one row per line, and one operator per column. */
  predicate Sheet(grid: seq<seq<nat>>, ops: string) {
    && |grid| > 0 && |ops| > 0
    && (forall j :: 0 <= j < |grid| ==> |grid[j]| == |ops|)
    && (forall i :: 0 <= i < |ops| ==> !IsTrimmed(ops[i]))
  }

  function DecimalTokens(row: seq<nat>): (ts: seq<string>)
    ensures |ts| == |row|
  {
    seq(|row|, i requires 0 <= i < |row| => ToDecimal(row[i]))
  }

  function OpTokens(ops: string): (ts: seq<string>)
    ensures |ts| == |ops|
  {
    seq(|ops|, i requires 0 <= i < |ops| => [ops[i]])
  }

  /** The worksheet: each row's numbers, then the operators, separated by single spaces. */
  function Worksheet(grid: seq<seq<nat>>, ops: string): (lines: seq<string>)
    requires Sheet(grid, ops)
    ensures |lines| == |grid| + 1
  {
    seq(|grid|, j requires 0 <= j < |grid| => Join(DecimalTokens(grid[j]), ' '))
      + [Join(OpTokens(ops), ' ')]
  }

  /** The numbers of column i, top to bottom, over the first k rows. */
  function Column(grid: seq<seq<nat>>, i: nat, k: nat): (col: seq<int>)
    requires k <= |grid| && forall j :: 0 <= j < |grid| ==> i < |grid[j]|
    ensures |col| == k
  {
    if k == 0 then [] else Column(grid, i, k - 1) + [grid[k - 1][i]]
  }

  /** Column i's numbers combined by its operator. */
  function ColumnResult(grid: seq<seq<nat>>, ops: string, i: nat): int
    requires Sheet(grid, ops) && i < |ops|
  {
    Apply(Column(grid, i, |grid|), ops[i])
  }

  lemma SheetRows(grid: seq<seq<nat>>, ops: string)
    requires Sheet(grid, ops)
    ensures forall j :: 0 <= j < |grid| ==> Rows(Worksheet(grid, ops))[j] == DecimalTokens(grid[j])
    ensures Rows(Worksheet(grid, ops))[|grid|] == OpTokens(ops)
  {
    var lines := Worksheet(grid, ops);
    forall j | 0 <= j < |grid| ensures Rows(lines)[j] == DecimalTokens(grid[j]) {
      MapAt(lines, Tokens, j);
      DecimalWords(grid[j]);
      SplitJoinedWords(DecimalTokens(grid[j]));
    }
    MapAt(lines, Tokens, |grid|);
    SplitJoinedWords(OpTokens(ops));
  }

  lemma DecimalWords(row: seq<nat>)
    ensures Words(DecimalTokens(row))
  {
    forall i | 0 <= i < |row| ensures Word(ToDecimal(row[i])) {
      DecimalIsWord(row[i]);
    }
  }

  lemma {:induction false} SheetColumnNumbers(rows: seq<seq<string>>, grid: seq<seq<nat>>, ops: string, i: nat, k: nat)
    requires Sheet(grid, ops) && i < |ops| && k <= |grid| && |grid| < |rows|
    requires forall j :: 0 <= j < |grid| ==> rows[j] == DecimalTokens(grid[j])
    ensures ColumnNumbers(rows, i, k) == Some(Column(grid, i, k))
  {
    if k > 0 {
      SheetColumnNumbers(rows, grid, ops, i, k - 1);
      ParseToDecimal(grid[k - 1][i]);
    }
  }

  /** The sum of vals[..c]. */
  function SumTo(vals: seq<int>, c: nat): int
    requires c <= |vals|
  {
    if c == 0 then 0 else SumTo(vals, c - 1) + vals[c - 1]
  }

  /** When every column has a value, Silver's running sum is the sum of the values. */
  lemma {:induction false} SilverSumValues(rows: seq<seq<string>>, vals: seq<int>, c: nat)
    requires |rows| > 0 && c <= |vals|
    requires forall i :: 0 <= i < |vals| ==> ColumnValue(rows, i) == Some(vals[i])
    ensures SilverSum(rows, c) == Some(SumTo(vals, c))
  {
    if c > 0 {
      SilverSumValues(rows, vals, c - 1);
    }
  }

  function ColumnResults(grid: seq<seq<nat>>, ops: string): (vals: seq<int>)
    requires Sheet(grid, ops)
    ensures |vals| == |ops|
  {
    seq(|ops|, i requires 0 <= i < |ops| => ColumnResult(grid, ops, i))
  }

  lemma SheetColumnValue(rows: seq<seq<string>>, grid: seq<seq<nat>>, ops: string, i: nat)
    requires Sheet(grid, ops) && i < |ops| && |rows| == |grid| + 1
    requires forall j :: 0 <= j < |grid| ==> rows[j] == DecimalTokens(grid[j])
    requires rows[|grid|] == OpTokens(ops)
    ensures ColumnValue(rows, i) == Some(ColumnResult(grid, ops, i))
  {
    SheetColumnNumbers(rows, grid, ops, i, |grid|);
    assert rows[|rows| - 1][i] == [ops[i]];
  }

  /**
   * Silver of a worksheet written from numbers and operators gives the sum,
   * over the columns, of each column's numbers combined by its operator.
   */
  lemma SilverReadsWorksheet(grid: seq<seq<nat>>, ops: string)
    requires Sheet(grid, ops)
    ensures Silver(Worksheet(grid, ops)) == Some(SumTo(ColumnResults(grid, ops), |ops|))
  {
    var lines := Worksheet(grid, ops);
    var rows := Rows(lines);
    SheetRows(grid, ops);
    var vals := ColumnResults(grid, ops);
    forall i | 0 <= i < |ops| ensures ColumnValue(rows, i) == Some(vals[i]) {
      SheetColumnValue(rows, grid, ops, i);
    }
    SilverSumValues(rows, vals, |ops|);
  }

  // ---------------------------------------------------------------------
  // padLinesToEqualLength

  function Spaces(n: nat): (s: string)
    ensures |s| == n && forall i :: 0 <= i < n ==> s[i] == ' '
  {
    if n == 0 then [] else Spaces(n - 1) + [' ']
  }

  /** The longest line's length, 0 for no lines (max().orElse(0)). */
  function MaxLength(input: seq<string>): (m: nat)
    ensures forall k :: 0 <= k < |input| ==> |input[k]| <= m
    ensures |input| == 0 ==> m == 0
    ensures |input| > 0 ==> exists k :: 0 <= k < |input| && |input[k]| == m
  {
    if |input| == 0 then 0
    else
      var m := MaxLength(input[..|input| - 1]);
      var last := |input[|input| - 1]|;
      assert forall k :: 0 <= k < |input| - 1 ==> input[..|input| - 1][k] == input[k];
      if last > m then last else m
  }

  /** Each line followed by spaces up to the longest line's length. */
  function Padded(input: seq<string>): seq<string> {
    seq(|input|, k requires 0 <= k < |input| => input[k] + Spaces(MaxLength(input) - |input[k]|))
  }

  /**
   * Padding keeps the number of lines and every line's text; it only adds
   * spaces at the end, and afterwards every line is as long as the longest.
   */
  lemma PaddedShape(input: seq<string>)
    ensures |Padded(input)| == |input|
    ensures forall k :: 0 <= k < |input| ==>
      |Padded(input)[k]| == MaxLength(input) && Padded(input)[k][..|input[k]|] == input[k]
      && forall j :: |input[k]| <= j < MaxLength(input) ==> Padded(input)[k][j] == ' '
  {
    forall k | 0 <= k < |input|
      ensures Padded(input)[k][..|input[k]|] == input[k]
    {
      assert Padded(input)[k] == input[k] + Spaces(MaxLength(input) - |input[k]|);
    }
  }

  method PadLines(input: seq<string>) returns (padded: seq<string>)
    ensures padded == Padded(input)
  {
    var maxLength := MaxLength(input);
    padded := [];
    for k := 0 to |input|
      invariant |padded| == k
      invariant forall j :: 0 <= j < k ==> padded[j] == Padded(input)[j]
    {
      var sb := input[k];
      while |sb| < maxLength
        invariant |input[k]| <= |sb| <= maxLength
        invariant sb == input[k] + Spaces(|sb| - |input[k]|)
        decreases maxLength - |sb|
      {
        sb := sb + [' '];
      }
      padded := padded + [sb];
    }
  }

  // ---------------------------------------------------------------------
  // Gold: character columns, right to left

  /** Every line of g has length w. */
  predicate Rect(g: seq<string>, w: nat) {
    forall k :: 0 <= k < |g| ==> |g[k]| == w
  }

  /** The non-space characters of column c in lines [0, k), top to bottom. */
  function ColumnChars(g: seq<string>, w: nat, c: nat, k: nat): (s: string)
    requires Rect(g, w) && c < w && k <= |g|
    ensures ' ' !in s
  {
    if k == 0 then []
    else
      var s := ColumnChars(g, w, c, k - 1);
      if g[k - 1][c] != ' ' then s + [g[k - 1][c]] else s
  }

  /** The number written in column c above the operator line. */
  function ColumnNumber(g: seq<string>, w: nat, c: nat): Option<int>
    requires Rect(g, w) && c < w && |g| > 0
  {
    ParseInt(ColumnChars(g, w, c, |g| - 1))
  }

  /** The number of every column, left to right. */
  function ColumnNumbersOf(g: seq<string>, w: nat): (nums: seq<Option<int>>)
    requires Rect(g, w) && |g| > 0
    ensures |nums| == w
  {
    seq(w, c requires 0 <= c < w => ColumnNumber(g, w, c))
  }

  /** The last line, which holds the operators. */
  function OpLine(g: seq<string>): string
    requires |g| > 0
  {
    g[|g| - 1]
  }

  /**
   * The columns c down to next + 2 form one problem: ns holds their numbers
   * in that order, the operator sits under column next + 2, and the
   * operator line is blank under the others.
   */
  predicate GroupShape(opLine: string, nums: seq<Option<int>>, c: int, ns: seq<int>, op: char, next: int)
    requires |nums| == |opLine| && c < |opLine|
  {
    && -2 <= next <= c - 2 && |ns| == c - next - 1
    && op == opLine[next + 2] && op != ' '
    && (forall j :: next + 2 < j <= c ==> opLine[j] == ' ')
    && (forall j :: 0 <= j < |ns| ==> nums[c - j] == Some(ns[j]))
  }

  function Prepend(ns: seq<int>, r: Option<(seq<int>, char, int)>): Option<(seq<int>, char, int)> {
    match r
    case None => None
    case Some((ms, op, next)) => Some((ns + ms, op, next))
  }

  /**
   * The do-while of solveGold from column c: the numbers of columns c, c-1,
   * ... down to the first column whose operator-line character is not a
   * space, that character, and the column after the separator. None when a
   * column is not a number or the scan runs past column 0.
   */
  function ReadGroup(opLine: string, nums: seq<Option<int>>, c: int): (r: Option<(seq<int>, char, int)>)
    requires |nums| == |opLine| && c < |opLine|
    ensures r.Some? ==> -2 <= r.value.2 <= c - 2 && |r.value.0| == c - r.value.2 - 1
    decreases c + 1
  {
    if c < 0 || nums[c].None? then None
    else if opLine[c] != ' ' then Some(([nums[c].value], opLine[c], c - 2))
    else Prepend([nums[c].value], ReadGroup(opLine, nums, c - 1))
  }

  /**
   * A group read from column c is the run of columns down to the first
   * operator: numbers in reading order, operator under the group's leftmost
   * column, blanks under the others.
   */
  lemma {:induction false} ReadGroupShape(opLine: string, nums: seq<Option<int>>, c: int)
    requires |nums| == |opLine| && c < |opLine|
    ensures ReadGroup(opLine, nums, c).Some? ==> GroupShape(opLine, nums, c, ReadGroup(opLine, nums, c).value.0,
      ReadGroup(opLine, nums, c).value.1, ReadGroup(opLine, nums, c).value.2)
    decreases c + 1
  {
    if c >= 0 && nums[c].Some? && opLine[c] == ' ' {
      ReadGroupShape(opLine, nums, c - 1);
      var r := ReadGroup(opLine, nums, c - 1);
      if r.Some? {
        var ms := [nums[c].value] + r.value.0;
        forall j | 0 <= j < |ms| ensures nums[c - j] == Some(ms[j]) {
          if j > 0 {
            assert ms[j] == r.value.0[j - 1];
            assert c - j == (c - 1) - (j - 1);
          }
        }
      }
    }
  }

  /**
   * Conversely, a run of columns with that shape is read as exactly that
   * group, so ReadGroup returns a group exactly when the columns have its shape.
   */
  lemma {:induction false} GroupShapeRead(opLine: string, nums: seq<Option<int>>, c: int, ns: seq<int>, op: char, next: int)
    requires |nums| == |opLine| && c < |opLine|
    requires GroupShape(opLine, nums, c, ns, op, next)
    ensures ReadGroup(opLine, nums, c) == Some((ns, op, next))
    decreases c + 1
  {
    assert nums[c] == Some(ns[0]);
    if opLine[c] == ' ' {
      assert c != next + 2;
      var rest := ns[1..];
      forall j | 0 <= j < |rest| ensures nums[(c - 1) - j] == Some(rest[j]) {
        assert nums[c - (j + 1)] == Some(ns[j + 1]);
      }
      GroupShapeRead(opLine, nums, c - 1, rest, op, next);
      assert [ns[0]] + rest == ns;
    } else {
      assert c == next + 2;
      assert ns == [ns[0]];
    }
  }

  function AddTo(x: int, r: Option<int>): Option<int> {
    if r.None? then None else Some(x + r.value)
  }

  /** The sum of the problems from column c leftwards. */
  function GoldFrom(opLine: string, nums: seq<Option<int>>, c: int): Option<int>
    requires |nums| == |opLine| && c < |opLine|
    decreases c + 2
  {
    if c < 0 then Some(0)
    else match ReadGroup(opLine, nums, c)
      case None => None
      case Some((ns, op, next)) => AddTo(Apply(ns, op), GoldFrom(opLine, nums, next))
  }

  lemma GoldFromStep(opLine: string, nums: seq<Option<int>>, c: int, result: int, v: int)
    requires |nums| == |opLine| && 0 <= c < |opLine|
    requires ReadGroup(opLine, nums, c).Some?
    requires v == Apply(ReadGroup(opLine, nums, c).value.0, ReadGroup(opLine, nums, c).value.1)
    ensures AddTo(result, GoldFrom(opLine, nums, c))
      == AddTo(result + v, GoldFrom(opLine, nums, ReadGroup(opLine, nums, c).value.2))
  {
  }

  lemma PaddedRect(input: seq<string>)
    ensures Rect(Padded(input), MaxLength(input))
  {
    PaddedShape(input);
  }

  /** Gold on the padded lines, from the rightmost column; None for no lines. */
  function Gold(input: seq<string>): Option<int> {
    if |input| == 0 then None
    else
      PaddedRect(input);
      GoldOf(Padded(input), MaxLength(input))
  }

  function GoldOf(g: seq<string>, w: nat): Option<int>
    requires Rect(g, w) && |g| > 0
  {
    GoldFrom(OpLine(g), ColumnNumbersOf(g, w), w - 1)
  }

  /** The StringBuilder loop: column c's non-space characters above the operator line. */
  method ReadColumn(g: seq<string>, w: nat, c: nat) returns (s: string)
    requires Rect(g, w) && c < w && |g| > 0
    ensures s == ColumnChars(g, w, c, |g| - 1)
  {
    s := [];
    for row := 0 to |g| - 1
      invariant s == ColumnChars(g, w, c, row)
    {
      if g[row][c] != ' ' {
        s := s + [g[row][c]];
      }
    }
  }

  /** The do-while loop of solveGold. */
  method ReadGroupLoop(g: seq<string>, w: nat, c: int) returns (r: Option<(seq<int>, char, int)>)
    requires Rect(g, w) && c < w && |g| > 0
    ensures r == ReadGroup(OpLine(g), ColumnNumbersOf(g, w), c)
  {
    ghost var nums := ColumnNumbersOf(g, w);
    ghost var opLine := OpLine(g);
    var numbers: seq<int> := [];
    var col := c;
    PrependEmpty(ReadGroup(opLine, nums, c));
    while true
      invariant col <= c
      invariant ReadGroup(opLine, nums, c) == Prepend(numbers, ReadGroup(opLine, nums, col))
      decreases col + 1
    {
      if col < 0 {
        return None;
      }
      var digits := ReadColumn(g, w, col);
      var n := ParseInt(digits);
      assert n == nums[col];
      if n.None? {
        return None;
      }
      assert numbers + [n.value] + [] == numbers + [n.value];
      numbers := numbers + [n.value];
      col := col - 1;
      if g[|g| - 1][col + 1] != ' ' {
        return Some((numbers, g[|g| - 1][col + 1], col - 1));
      }
      PrependTwice(numbers[..|numbers| - 1], n.value, ReadGroup(opLine, nums, col));
      assert numbers[..|numbers| - 1] + [n.value] == numbers;
    }
  }

  lemma PrependEmpty(r: Option<(seq<int>, char, int)>)
    ensures Prepend([], r) == r
  {
    if r.Some? {
      assert [] + r.value.0 == r.value.0;
    }
  }

  lemma PrependTwice(ns: seq<int>, n: int, r: Option<(seq<int>, char, int)>)
    ensures Prepend(ns, Prepend([n], r)) == Prepend(ns + [n], r)
  {
    if r.Some? {
      assert ns + ([n] + r.value.0) == ns + [n] + r.value.0;
    }
  }

  method SolveGold(input: seq<string>) returns (r: Option<int>)
    ensures r == Gold(input)
  {
    if |input| == 0 {
      return None;
    }
    var g := PadLines(input);
    PaddedRect(input);
    r := SolveGrid(g, MaxLength(input));
  }

  /** The outer loop of solveGold over the padded lines. */
  method SolveGrid(g: seq<string>, w: nat) returns (r: Option<int>)
    requires Rect(g, w) && |g| > 0
    ensures r == GoldOf(g, w)
  {
    ghost var nums := ColumnNumbersOf(g, w);
    var columns := |g[0]| - 1;
    var result := 0;
    while columns >= 0
      invariant -2 <= columns < w
      invariant GoldOf(g, w) == AddTo(result, GoldFrom(OpLine(g), nums, columns))
      decreases columns + 2
    {
      var group := ReadGroupLoop(g, w, columns);
      if group.None? {
        return None;
      }
      var (numbers, op, next) := group.value;
      var v := ApplyOperator(numbers, op);
      GoldFromStep(OpLine(g), nums, columns, result, v);
      result := result + v;
      columns := next;
    }
    r := Some(result);
  }
}
