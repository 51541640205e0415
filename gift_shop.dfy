/**
 * Day 02, the gift shop: the first input line lists id ranges "a-b"
 * separated by commas. An id is invalid when its decimal form is some digit
 * string written twice; Silver sums the invalid ids of every range.
 */
module GiftShop {
  import opened Text

  /** getValues: the comma-separated pieces of a line, each trimmed. */
  function GetValues(line: string): (r: seq<string>)
    ensures |r| == |Split(line, ',')|
    ensures forall i :: 0 <= i < |r| ==> ',' !in r[i]
    ensures forall i :: 0 <= i < |r| && |r[i]| > 0 ==> !IsTrimmed(r[i][0]) && !IsTrimmed(r[i][|r[i]| - 1])
  {
    var parts := Split(line, ',');
    seq(|parts|, i requires 0 <= i < |parts| => Trim(parts[i]))
  }

  /**
   * getValues reads back any line written as comma-separated pieces that
   * hold no comma and start and end with no blank, when the last of several
   * pieces is not empty (split drops trailing empty pieces).
   */
  lemma GetValuesRoundTrip(ws: seq<string>)
    requires |ws| >= 1
    requires forall i :: 0 <= i < |ws| ==> ',' !in ws[i]
    requires forall i :: 0 <= i < |ws| && |ws[i]| > 0 ==> !IsTrimmed(ws[i][0]) && !IsTrimmed(ws[i][|ws[i]| - 1])
    requires |ws| > 1 ==> ws[|ws| - 1] != ""
    ensures GetValues(Join(ws, ',')) == ws
  {
    var r := GetValues(Join(ws, ','));
    SplitJoin(ws, ',');
    forall i | 0 <= i < |ws|
      ensures r[i] == ws[i]
    {
      TrimKeeps(ws[i]);
    }
  }

  /** isRepeatedSequence on a decimal string: even length, first half equal to the second. */
  predicate IsRepeated(s: string) {
    |s| % 2 == 0 && s[..|s| / 2] == s[|s| / 2..]
  }

  predicate IsRepeatedSequence(n: int) {
    IsRepeated(ToDecimal(n))
  }

  /** A string is repeated exactly when it is some string written twice. */
  lemma RepeatedIffDoubled(s: string)
    ensures IsRepeated(s) <==> exists t :: s == t + t
  {
    if IsRepeated(s) {
      var t := s[..|s| / 2];
      assert s == t + s[|s| / 2..];
    }
    if exists t :: s == t + t {
      var t :| s == t + t;
      assert s[..|s| / 2] == t && s[|s| / 2..] == t;
    }
  }

  /**
   * The invalid ids are exactly the numbers written as a digit string without
   * a leading zero, twice: any such string gives an invalid id, and every
   * invalid id is one.
   */
  lemma InvalidIds(t: string)
    requires |t| > 0 && AllDigits(t) && t[0] != '0'
    ensures AllDigits(t + t) && IsRepeatedSequence(DigitsValue(t + t))
  {
    DecimalOfDigits(t + t);
    RepeatedIffDoubled(t + t);
  }

  lemma InvalidIdsAreDoubled(n: int)
    requires IsRepeatedSequence(n)
    ensures n > 0
    ensures exists t :: |t| > 0 && AllDigits(t) && t[0] != '0' && ToDecimal(n) == t + t
  {
    var s := ToDecimal(n);
    var t := s[..|s| / 2];
    assert s == t + t;
    assert t[0] == s[0];
    assert |s| > 1;
    if n == 0 {
      assert false;
    }
  }

  /** The sum of the invalid ids in start..end, both included. */
  function RangeSum(start: int, end: int): int
    decreases end - start
  {
    if end < start then 0 else RangeSum(start, end - 1) + (if IsRepeatedSequence(end) then end else 0)
  }

  /** Consecutive ranges add up. */
  lemma {:induction false} RangeSumSplit(a: int, b: int, c: int)
    requires a - 1 <= b <= c
    ensures RangeSum(a, c) == RangeSum(a, b) + RangeSum(b + 1, c)
    decreases c - b
  {
    if b < c {
      RangeSumSplit(a, b, c - 1);
    }
  }

  /** The bounds of a range "a-b"; None where Java fails (fewer than two pieces, or a piece that is not a number). */
  function ParseRange(range: string): (r: Option<(int, int)>)
    ensures r.Some? ==> |Split(range, '-')| >= 2
  {
    var bounds := Split(range, '-');
    if |bounds| < 2 then None
    else
      match (ParseInt(bounds[0]), ParseInt(bounds[1]))
      case (Some(a), Some(b)) => Some((a, b))
      case _ => None
  }

  /** A range printed from its bounds is read back. */
  lemma ParseRangeRoundTrip(a: nat, b: nat)
    ensures ParseRange(ToDecimal(a) + "-" + ToDecimal(b)) == Some((a, b))
  {
    var s := ToDecimal(a) + "-" + ToDecimal(b);
    var fa, fb := ToDecimal(a), ToDecimal(b);
    assert '-' !in fa && '-' !in fb by {
      assert AllDigits(fa) && AllDigits(fb);
    }
    assert s[|fa|] == '-';
    FieldsJoin([fa, fb], '-');
    assert Join([fa, fb], '-') == s;
    ParseToDecimal(a);
    ParseToDecimal(b);
  }

  /**
   * The sum over the ranges of the invalid ids between the bounds that parse
   * reads from each; None as soon as one range does not read. Silver reads
   * with ParseRange; the lemmas below hold for any reader.
   */
  function SumRanges(ranges: seq<string>, parse: string -> Option<(int, int)>): Option<int> {
    if |ranges| == 0 then Some(0)
    else
      match SumRanges(ranges[..|ranges| - 1], parse)
      case None => None
      case Some(sum) =>
        match parse(ranges[|ranges| - 1])
        case None => None
        case Some(bounds) => Some(sum + RangeSum(bounds.0, bounds.1))
  }

  lemma {:induction false} SumRangesStayFailed(ranges: seq<string>, j: nat, parse: string -> Option<(int, int)>)
    requires j <= |ranges| && SumRanges(ranges[..j], parse).None?
    ensures SumRanges(ranges, parse).None?
    decreases |ranges| - j
  {
    if j < |ranges| {
      assert ranges[..j + 1][..j] == ranges[..j];
      SumRangesStayFailed(ranges, j + 1, parse);
    } else {
      assert ranges[..j] == ranges;
    }
  }

  lemma SumRangesStep(ranges: seq<string>, i: nat, sum: int, a: int, b: int, parse: string -> Option<(int, int)>)
    requires i < |ranges| && SumRanges(ranges[..i], parse) == Some(sum) && parse(ranges[i]) == Some((a, b))
    ensures SumRanges(ranges[..i + 1], parse) == Some(sum + RangeSum(a, b))
  {
    var t := ranges[..i + 1];
    assert t[..|t| - 1] == ranges[..i] && t[|t| - 1] == ranges[i];
  }

  lemma SumRangesFailStep(ranges: seq<string>, i: nat, sum: int, parse: string -> Option<(int, int)>)
    requires i < |ranges| && SumRanges(ranges[..i], parse) == Some(sum) && parse(ranges[i]).None?
    ensures SumRanges(ranges[..i + 1], parse).None?
  {
    var t := ranges[..i + 1];
    assert t[..|t| - 1] == ranges[..i] && t[|t| - 1] == ranges[i];
  }

  /** The invalid-id sums of the given ranges, added up. */
  function TotalOf(bs: seq<(int, int)>): int {
    if |bs| == 0 then 0 else TotalOf(bs[..|bs| - 1]) + RangeSum(bs[|bs| - 1].0, bs[|bs| - 1].1)
  }

  /** Ranges that all read, to the given bounds, add up to the total of those bounds. */
  lemma {:induction false} SumRangesRead(ranges: seq<string>, bs: seq<(int, int)>, parse: string -> Option<(int, int)>)
    requires |ranges| == |bs| && forall i :: 0 <= i < |bs| ==> parse(ranges[i]) == Some(bs[i])
    ensures SumRanges(ranges, parse) == Some(TotalOf(bs))
  {
    if |bs| > 0 {
      var n := |bs| - 1;
      var init := ranges[..n];
      SumRangesRead(init, bs[..n], parse);
      assert ranges[..n] == init;
      assert TotalOf(bs) == TotalOf(bs[..n]) + RangeSum(bs[n].0, bs[n].1);
    }
  }

  /** A range "a-b" as printed from its bounds. */
  function PrintRange(b: (nat, nat)): string {
    ToDecimal(b.0) + "-" + ToDecimal(b.1)
  }

  function PrintRanges(bs: seq<(nat, nat)>): (r: seq<string>)
    ensures |r| == |bs|
  {
    seq(|bs|, i requires 0 <= i < |bs| => PrintRange(bs[i]))
  }

  /**
   * A first line that lists ranges printed from their bounds, separated by
   * commas, makes Silver the sum of the invalid ids over all the ranges.
   */
  lemma SilverOfPrintedRanges(bs: seq<(nat, nat)>, rest: seq<string>)
    requires |bs| >= 1
    ensures Silver([Join(PrintRanges(bs), ',')] + rest) == Some(TotalOf(bs))
  {
    var ws := PrintRanges(bs);
    var line := Join(ws, ',');
    assert GetValues(line) == ws by {
      PrintedRangesAreWords(bs);
      GetValuesRoundTrip(ws);
    }
    assert SumRanges(ws, ParseRange) == Some(TotalOf(bs)) by {
      PrintedRangesRead(bs);
      SumRangesRead(ws, bs, ParseRange);
    }
    assert ([line] + rest)[0] == line;
  }

  lemma PrintedRangesAreWords(bs: seq<(nat, nat)>)
    ensures var ws := PrintRanges(bs);
            forall i :: 0 <= i < |ws| ==> ',' !in ws[i] && |ws[i]| > 0 && !IsTrimmed(ws[i][0]) && !IsTrimmed(ws[i][|ws[i]| - 1])
  {
    var ws := PrintRanges(bs);
    forall i | 0 <= i < |ws|
      ensures ',' !in ws[i] && |ws[i]| > 0 && !IsTrimmed(ws[i][0]) && !IsTrimmed(ws[i][|ws[i]| - 1])
    {
      var fa, fb := ToDecimal(bs[i].0), ToDecimal(bs[i].1);
      assert AllDigits(fa) && AllDigits(fb);
      assert ws[i] == fa + "-" + fb;
    }
  }

  lemma PrintedRangesRead(bs: seq<(nat, nat)>)
    ensures forall i :: 0 <= i < |bs| ==> ParseRange(PrintRanges(bs)[i]) == Some((bs[i].0 as int, bs[i].1 as int))
  {
    forall i | 0 <= i < |bs|
      ensures ParseRange(PrintRanges(bs)[i]) == Some((bs[i].0 as int, bs[i].1 as int))
    {
      assert PrintRanges(bs)[i] == PrintRange(bs[i]);
      ParseRangeRoundTrip(bs[i].0, bs[i].1);
    }
  }

  /** Silver: only the first line is read; None when there is none or a range is malformed. */
  function Silver(input: seq<string>): Option<int> {
    if |input| == 0 then None else SumRanges(GetValues(input[0]), ParseRange)
  }

  method SolveSilver(input: seq<string>) returns (r: Option<int>)
    ensures r == Silver(input)
  {
    if |input| == 0 {
      return None;
    }
    var ranges := GetValues(input[0]);
    r := SumAllRanges(ranges);
  }

  /** The outer loop of solveSilver, over the ranges of the first line. */
  method SumAllRanges(ranges: seq<string>) returns (r: Option<int>)
    ensures r == SumRanges(ranges, ParseRange)
  {
    var sum := 0;
    assert SumRanges(ranges[..0], ParseRange) == Some(0) by {
      assert ranges[..0] == [];
    }
    for i := 0 to |ranges|
      invariant SumRanges(ranges[..i], ParseRange) == Some(sum)
    {
      var next := AddRange(ranges, i, sum);
      if next.None? {
        SumRangesStayFailed(ranges, i + 1, ParseRange);
        return None;
      }
      sum := next.value;
    }
    assert ranges[..|ranges|] == ranges;
    return Some(sum);
  }

  /** One pass of the outer loop: read range i and add its invalid ids to sum. */
  method AddRange(ranges: seq<string>, i: nat, sum: int) returns (next: Option<int>)
    requires i < |ranges| && SumRanges(ranges[..i], ParseRange) == Some(sum)
    ensures next == SumRanges(ranges[..i + 1], ParseRange)
  {
    var bounds := ReadRange(ranges[i]);
    if bounds.None? {
      SumRangesFailStep(ranges, i, sum, ParseRange);
      return None;
    }
    var rangeSum := SumRange(bounds.value.0, bounds.value.1);
    SumRangesStep(ranges, i, sum, bounds.value.0, bounds.value.1, ParseRange);
    return Some(sum + rangeSum);
  }

  /** The bounds of one range, as solveSilver reads them. */
  method ReadRange(range: string) returns (r: Option<(int, int)>)
    ensures r == ParseRange(range)
  {
    var bounds := Split(range, '-');
    if |bounds| < 2 {
      return None;
    }
    var start := ParseInt(bounds[0]);
    var end := ParseInt(bounds[1]);
    if start.None? || end.None? {
      return None;
    }
    return Some((start.value, end.value));
  }

  /** The inner loop of solveSilver: the invalid ids of one range, added up. */
  method SumRange(start: int, end: int) returns (sum: int)
    ensures sum == RangeSum(start, end)
  {
    sum := 0;
    var id := start;
    while id <= end
      invariant id == start || start < id <= end + 1
      invariant sum == RangeSum(start, id - 1)
      decreases end - id
    {
      if IsRepeatedSequence(id) {
        sum := sum + id;
      }
      id := id + 1;
    }
  }

  /** solveGold is not implemented: it always answers 0. */
  function SolveGold(input: seq<string>): (r: int)
    ensures r == 0
  {
    0
  }
}
