/**
 * The tree-farm solver (day 12): reads the shape blocks and the region lines,
 * then counts the regions whose pieces can be packed into them.
 */
module TreeFarm {
  import opened Text
  import opened Sorting
  import opened TreeFarmShapes
  import opened TreeFarmOrientations
  import opened TreeFarmPlacements
  import opened TreeFarmPacker
  import opened TreeFarmRegions

  /** The state of solveSilver's reading loop. */
  datatype Reader = Reader(shapes: seq<Shape>, regionLines: seq<string>, buffer: seq<string>, readingShapes: bool)

  /** Ends the current shape block, if one is open. */
  function Flush(r: Reader): Reader {
    if |r.buffer| == 0 then r else r.(shapes := r.shapes + [Trimmed(Glyphs(r.buffer))], buffer := [])
  }

  /** One pass of the reading loop over an input line. */
  function Feed(r: Reader, raw: string): Reader {
    var line := Strip(raw);
    if |line| == 0 then Flush(r)
    else if MatchRegion(line).Some? then Flush(r).(readingShapes := false, regionLines := r.regionLines + [line])
    else if r.readingShapes then (if IsMarker(line) then Flush(r) else r.(buffer := r.buffer + [line]))
    else r.(regionLines := r.regionLines + [line])
  }

  function ReadLines(input: seq<string>): Reader {
    if |input| == 0 then Reader([], [], [], true) else Feed(ReadLines(input[..|input| - 1]), input[|input| - 1])
  }

  /** The shapes and region lines once the whole input is read and the last block is closed. */
  function Parsed(input: seq<string>): Reader {
    Flush(ReadLines(input))
  }

  /** Every shape read is a rectangle: tight around its cells, or the single empty row of a blank block. */
  ghost predicate ShapesTrimmed(shapes: seq<Shape>) {
    forall i :: 0 <= i < |shapes| ==> IsRect(shapes[i]) && (shapes[i] == [[]] || IsTight(shapes[i]))
  }

  lemma FlushTrimmed(r: Reader)
    requires ShapesTrimmed(r.shapes)
    ensures ShapesTrimmed(Flush(r).shapes) && Flush(r).buffer == []
  {
    if |r.buffer| > 0 {
      TrimmedShape(Glyphs(r.buffer));
    }
  }

  /**
   * What reading keeps true: the shapes are trimmed, buffered shape lines are
   * non-empty, and once a region header is seen no line is buffered again.
   */
  lemma {:induction false} ReadLinesFacts(input: seq<string>)
    ensures ShapesTrimmed(ReadLines(input).shapes)
    ensures forall k :: 0 <= k < |ReadLines(input).buffer| ==> |ReadLines(input).buffer[k]| > 0
    ensures !ReadLines(input).readingShapes ==> ReadLines(input).buffer == []
  {
    if |input| > 0 {
      var r := ReadLines(input[..|input| - 1]);
      ReadLinesFacts(input[..|input| - 1]);
      FlushTrimmed(r);
    }
  }

  lemma ParsedFacts(input: seq<string>)
    ensures ShapesTrimmed(Parsed(input).shapes)
  {
    ReadLinesFacts(input);
    FlushTrimmed(ReadLines(input));
  }

  /** A block reads as the blank shape exactly when none of its cells, within the first row's width, is '#'. */
  lemma BlankBlock(buffer: seq<string>)
    requires |buffer| > 0
    ensures Trimmed(Glyphs(buffer)) == [[]] <==>
      forall y, x :: 0 <= y < |buffer| && 0 <= x < |buffer[0]| && x < |buffer[y]| ==> buffer[y][x] != '#'
  {
    TrimmedShape(Glyphs(buffer));
    GlyphCells(buffer);
    if Trimmed(Glyphs(buffer)) == [[]] {
      forall y, x | 0 <= y < |buffer| && 0 <= x < |buffer[0]| && x < |buffer[y]| ensures buffer[y][x] != '#' {
        assert Cell(x, y) !in Cells(Glyphs(buffer));
      }
    } else {
      var c :| c in Cells(Glyphs(buffer));
      assert buffer[c.y][c.x] == '#';
    }
  }

  /** A closed block: its shape is added and the buffer emptied. */
  method EndShape(shapes: seq<Shape>, buffer: seq<string>) returns (shapes': seq<Shape>, buffer': seq<string>)
    ensures Reader(shapes', [], buffer', true) == Flush(Reader(shapes, [], buffer, true))
  {
    shapes', buffer' := shapes, buffer;
    if |buffer| > 0 {
      var shape := BufferToShape(buffer);
      shapes' := shapes + [shape];
      buffer' := [];
    }
  }

  /** The reading loop of solveSilver. */
  method ParseInput(input: seq<string>) returns (shapes: seq<Shape>, regionLines: seq<string>)
    ensures shapes == Parsed(input).shapes && regionLines == Parsed(input).regionLines
  {
    shapes, regionLines := [], [];
    var readingShapes := true;
    var buffer: seq<string> := [];
    for n := 0 to |input|
      invariant Reader(shapes, regionLines, buffer, readingShapes) == ReadLines(input[..n])
    {
      assert input[..n + 1][..n] == input[..n];
      var line := Strip(input[n]);
      if |line| == 0 {
        shapes, buffer := EndShape(shapes, buffer);
        continue;
      }
      if MatchRegion(line).Some? {
        shapes, buffer := EndShape(shapes, buffer);
        readingShapes := false;
        regionLines := regionLines + [line];
      } else if readingShapes {
        if IsMarker(line) {
          shapes, buffer := EndShape(shapes, buffer);
        } else {
          buffer := buffer + [line];
        }
      } else {
        regionLines := regionLines + [line];
      }
    }
    assert input[..|input|] == input;
    shapes, buffer := EndShape(shapes, buffer);
  }

  /** What a region line yields: not a region header, a count that is not an integer, or a region. */
  datatype RegionLine = NotRegion | BadCount | Region(w: nat, h: nat, counts: seq<int>)

  function ReadRegion(line: string, n: nat): (r: RegionLine)
    ensures r.Region? ==> |r.counts| == n
  {
    match MatchRegion(line)
    case None => NotRegion
    case Some(hd) =>
      match ParseCounts(SplitSpaces(Trim(hd.counts)), n)
      case None => BadCount
      case Some(c) => Region(hd.w, hd.h, c)
  }

  /** The header match of the region loop. */
  method ReadRegionLine(line: string, n: nat) returns (region: RegionLine)
    ensures region == ReadRegion(line, n)
  {
    var m := MatchRegion(line);
    if m.None? {
      return NotRegion;
    }
    var counts := ReadCounts(SplitSpaces(Trim(m.value.counts)), n);
    if counts.None? {
      return BadCount;
    }
    return Region(m.value.w, m.value.h, counts.value);
  }

  /** The counts array: one parsed token per shape while tokens last, 0 after that. */
  method ReadCounts(toks: seq<string>, n: nat) returns (r: Option<seq<int>>)
    ensures r == ParseCounts(toks, n)
  {
    var counts := new int[n](_ => 0);
    var i := 0;
    while i < n && i < |toks|
      invariant 0 <= i <= n
      invariant forall k :: 0 <= k < i ==> k < |toks| && ParseInt(toks[k]).Some? && counts[k] == ParseInt(toks[k]).value
      invariant forall k :: i <= k < n ==> counts[k] == 0
    {
      var v := ParseInt(toks[i]);
      if v.None? {
        return None;
      }
      counts[i] := v.value;
      i := i + 1;
    }
    assert ParseCounts(toks, n).Some?;
    assert ParseCounts(toks, n).value == counts[..];
    return Some(counts[..]);
  }

  /**
   * The answer: the number of region lines whose pieces fit, or None when the
   * source fails: a count token that is not an integer.
   */
  ghost function FitCount(shapes: seq<Shape>, lines: seq<string>): Option<nat>
    requires Usable(shapes)
  {
    if |lines| == 0 then Some(0) else CountStep(shapes, FitCount(shapes, lines[..|lines| - 1]), lines[|lines| - 1])
  }

  /** One pass of the region loop: a fitting region adds one, a bad count fails. */
  ghost function CountStep(shapes: seq<Shape>, prev: Option<nat>, line: string): Option<nat>
    requires Usable(shapes)
  {
    Tally(shapes, prev, ReadRegion(line, |shapes|))
  }

  ghost function Tally(shapes: seq<Shape>, prev: Option<nat>, region: RegionLine): Option<nat>
    requires Usable(shapes)
  {
    if prev.None? then None
    else
      match region
      case NotRegion => prev
      case BadCount => None
      case Region(w, h, counts) => Some(if Fits(shapes, w, h, counts) then prev.value + 1 else prev.value)
  }

  /** Whether some line of lines[..n] is a region header with a bad count token. */
  predicate SomeBadCount(lines: seq<string>, n: nat, k: nat)
    requires k <= |lines|
  {
    exists j :: 0 <= j < k && ReadRegion(lines[j], n).BadCount?
  }

  /**
   * solveSilver's result, None when it fails: a blank shape block (its
   * orientations cannot be generated) or a count token that is not an integer.
   */
  ghost function Silver(input: seq<string>): Option<nat> {
    var p := Parsed(input);
    if Usable(p.shapes) then FitCount(p.shapes, p.regionLines) else None
  }

  lemma {:induction false} FitCountFails(shapes: seq<Shape>, lines: seq<string>, k: nat)
    requires Usable(shapes) && k <= |lines|
    ensures FitCount(shapes, lines[..k]).None? <==> SomeBadCount(lines, |shapes|, k)
  {
    if k > 0 {
      FitCountFails(shapes, lines, k - 1);
      assert lines[..k][..k - 1] == lines[..k - 1];
      var prev := FitCount(shapes, lines[..k - 1]);
      assert FitCount(shapes, lines[..k]) == CountStep(shapes, prev, lines[k - 1]);
      if SomeBadCount(lines, |shapes|, k) && !SomeBadCount(lines, |shapes|, k - 1) {
        var j :| 0 <= j < k && ReadRegion(lines[j], |shapes|).BadCount?;
        assert j == k - 1;
      }
    }
  }

  /**
   * solveSilver fails exactly when some shape block holds no '#' or some
   * region header carries a count token that is not an integer.
   */
  lemma SilverFails(input: seq<string>)
    ensures var p := Parsed(input);
      Silver(input).None? <==>
        (exists i :: 0 <= i < |p.shapes| && p.shapes[i] == [[]]) ||
        (exists j :: 0 <= j < |p.regionLines| && ReadRegion(p.regionLines[j], |p.shapes|).BadCount?)
  {
    var p := Parsed(input);
    ParsedFacts(input);
    if Usable(p.shapes) {
      FitCountFails(p.shapes, p.regionLines, |p.regionLines|);
      assert p.regionLines[..|p.regionLines|] == p.regionLines;
      forall i | 0 <= i < |p.shapes| ensures p.shapes[i] != [[]] {
        assert |p.shapes[i][0]| > 0;
      }
    } else {
      var i :| 0 <= i < |p.shapes| && !(IsRect(p.shapes[i]) && |p.shapes[i][0]| > 0);
      assert p.shapes[i] == [[]];
    }
  }

  lemma {:induction false} FitCountStaysFailed(shapes: seq<Shape>, lines: seq<string>, j: nat)
    requires Usable(shapes) && j <= |lines|
    requires FitCount(shapes, lines[..j]).None?
    ensures FitCount(shapes, lines).None?
    decreases |lines| - j
  {
    if j < |lines| {
      assert lines[..j + 1][..j] == lines[..j];
      FitCountStaysFailed(shapes, lines, j + 1);
    } else {
      assert lines[..j] == lines;
    }
  }

  /** The pieces list of the region loop: shape si added counts[si] times. */
  method BuildPieces(counts: seq<int>) returns (pieces: seq<nat>)
    ensures pieces == Pieces(counts)
  {
    pieces := [];
    for si := 0 to |counts|
      invariant pieces == Pieces(counts[..si])
    {
      var c := 0;
      while c < counts[si]
        invariant 0 <= c && (c <= counts[si] || c == 0)
        invariant pieces == Pieces(counts[..si]) + Repeat(si, c)
      {
        pieces := pieces + [si];
        c := c + 1;
      }
      assert counts[..si + 1][..si] == counts[..si];
      assert Repeat(si, c) == Repeat(si, counts[si]);
    }
    assert counts[..|counts|] == counts;
  }

  /** placementsByShape: the placement list of every shape the region asks for (count other than 0). */
  method BuildLists(oris: seq<seq<Orientation>>, w: int, h: int, counts: seq<int>) returns (pl: map<nat, seq<seq<int>>>)
    requires |counts| == |oris|
    ensures forall si: nat :: si in pl <==> si < |counts| && counts[si] != 0
    ensures forall si: nat :: si in pl ==> pl[si] == Placements(oris[si], w, h)
  {
    pl := map[];
    for si := 0 to |counts|
      invariant forall k: nat :: k in pl <==> k < si && counts[k] != 0
      invariant forall k: nat :: k in pl ==> pl[k] == Placements(oris[k], w, h)
    {
      if counts[si] == 0 {
        continue;
      }
      var list := ComputePlacementsForShape(oris[si], w, h);
      pl := pl[si := list];
    }
  }

  lemma PiecesHaveLists(shapes: seq<Shape>, oris: seq<seq<Orientation>>, w: int, h: int, counts: seq<int>,
                        pl: map<nat, seq<seq<int>>>)
    requires |oris| == |shapes| && |counts| == |shapes|
    requires forall si: nat :: si in pl <==> si < |counts| && counts[si] != 0
    requires forall si: nat :: si in pl ==> pl[si] == Placements(oris[si], w, h)
    ensures ListsFor(shapes, oris, w, h, Pieces(counts), pl)
  {
    var pieces := Pieces(counts);
    forall t | 0 <= t < |pieces| ensures pieces[t] in pl {
      PiecesCount(counts, pieces[t]);
      assert pieces[t] in multiset(pieces);
    }
  }

  /** The shapes' areas. */
  ghost function Areas(shapes: seq<Shape>): (a: seq<nat>)
    requires forall i :: 0 <= i < |shapes| ==> IsRect(shapes[i])
    ensures |a| == |shapes| && forall i :: 0 <= i < |shapes| ==> a[i] == |Cells(shapes[i])|
  {
    seq(|shapes|, i requires 0 <= i < |shapes| => |Cells(shapes[i])|)
  }

  /** totalCells of the region loop. */
  method TotalCells(shapes: seq<Shape>, counts: seq<int>) returns (totalCells: int)
    requires forall i :: 0 <= i < |shapes| ==> IsRect(shapes[i])
    requires |counts| == |shapes|
    ensures totalCells == TotalArea(Areas(shapes), counts)
  {
    ghost var areas := Areas(shapes);
    totalCells := 0;
    for si := 0 to |shapes|
      invariant totalCells == TotalArea(areas[..si], counts[..si])
    {
      var shapeArea := ShapeArea(shapes[si]);
      totalCells := totalCells + shapeArea * counts[si];
      assert areas[..si + 1][..si] == areas[..si];
      assert counts[..si + 1][..si] == counts[..si];
    }
    assert areas[..|shapes|] == areas && counts[..|shapes|] == counts;
  }

  /** The body of the region loop for a region line that reads as a region. */
  method FitRegion(shapes: seq<Shape>, oris: seq<seq<Orientation>>, w: nat, h: nat, counts: seq<int>)
    returns (fit: bool)
    requires Usable(shapes) && OrientationsOf(shapes, oris) && |counts| == |shapes|
    ensures fit == Fits(shapes, w, h, counts)
  {
    var totalCells := TotalCells(shapes, counts);
    if totalCells > w * h {
      if Fits(shapes, w, h, counts) {
        AreaBound(shapes, Areas(shapes), w, h, counts);
      }
      return false;
    }
    var pieces := BuildPieces(counts);
    if |pieces| == 0 {
      assert IsFitting(shapes, w, h, pieces, []);
      return true;
    }
    fit := Search(shapes, oris, w, h, counts, pieces);
  }

  /** Sorting the pieces most constrained first and backtracking over the empty grid. */
  method Search(shapes: seq<Shape>, oris: seq<seq<Orientation>>, w: nat, h: nat, counts: seq<int>, pieces: seq<nat>)
    returns (fit: bool)
    requires Usable(shapes) && OrientationsOf(shapes, oris) && |counts| == |shapes|
    requires pieces == Pieces(counts)
    ensures fit == Fits(shapes, w, h, counts)
  {
    var pl := BuildLists(oris, w, h, counts);
    PiecesHaveLists(shapes, oris, w, h, counts, pl);
    var pieceOrder := OrderPieces(pieces, pl);
    var grid := new bool[w * h](_ => false);
    assert grid[..] == Blank(w * h);
    SearchDecidesFit(shapes, oris, w, h, counts, pl, pieceOrder);
    fit := BacktrackPlace(0, pieceOrder, pl, grid);
  }

  /** The size of a shape's placement list; 0 for a shape without one. */
  function ListSize(pl: map<nat, seq<seq<int>>>, a: nat): int {
    if a in pl then |pl[a]| else 0
  }

  /** pieceOrder: the pieces sorted by how many placements their shape has, fewest first. */
  method OrderPieces(pieces: seq<nat>, pl: map<nat, seq<seq<int>>>) returns (order: seq<nat>)
    ensures multiset(order) == multiset(pieces)
    ensures forall i, j :: 0 <= i < j < |order| ==> ListSize(pl, order[i]) <= ListSize(pl, order[j])
  {
    var pieceOrder := new nat[|pieces|](i requires 0 <= i < |pieces| => pieces[i]);
    assert pieceOrder[..] == pieces;
    SortByKey(pieceOrder, (a: nat) => ListSize(pl, a));
    order := pieceOrder[..];
  }

  /** The orientation lists of all shapes; None when a blank shape makes generateOrientations fail. */
  method AllOrientations(shapes: seq<Shape>) returns (oris: Option<seq<seq<Orientation>>>)
    requires forall i :: 0 <= i < |shapes| ==> IsRect(shapes[i])
    ensures oris.None? <==> !Usable(shapes)
    ensures oris.Some? ==> OrientationsOf(shapes, oris.value)
  {
    var list: seq<seq<Orientation>> := [];
    for i := 0 to |shapes|
      invariant Usable(shapes[..i]) && OrientationsOf(shapes[..i], list)
    {
      if |shapes[i][0]| == 0 {
        return None;
      }
      var o := GenerateOrientations(shapes[i]);
      OrientationsSnoc(shapes, i, list, o);
      list := list + [o];
    }
    assert shapes[..|shapes|] == shapes;
    return Some(list);
  }

  lemma OrientationsSnoc(shapes: seq<Shape>, i: nat, list: seq<seq<Orientation>>, o: seq<Orientation>)
    requires i < |shapes| && IsRect(shapes[i]) && |shapes[i][0]| > 0
    requires Usable(shapes[..i]) && OrientationsOf(shapes[..i], list)
    requires forall x :: x in o <==> x in Candidates(shapes[i])
    ensures Usable(shapes[..i + 1]) && OrientationsOf(shapes[..i + 1], list + [o])
  {
    assert shapes[..i + 1] == shapes[..i] + [shapes[i]];
  }

  /** One pass of the region loop, on the line as read. */
  method CountRegion(shapes: seq<Shape>, oris: seq<seq<Orientation>>, fitCount: nat, region: RegionLine)
    returns (next: Option<nat>)
    requires Usable(shapes) && OrientationsOf(shapes, oris)
    requires region.Region? ==> |region.counts| == |shapes|
    ensures next == Tally(shapes, Some(fitCount), region)
  {
    match region {
      case NotRegion =>
        next := Some(fitCount);
      case BadCount =>
        next := None;
      case Region(w, h, counts) =>
        var fit := FitRegion(shapes, oris, w, h, counts);
        next := Some(if fit then fitCount + 1 else fitCount);
    }
  }

  /** The region loop: counts the region lines whose pieces fit. */
  method CountFits(shapes: seq<Shape>, oris: seq<seq<Orientation>>, regionLines: seq<string>) returns (r: Option<nat>)
    requires Usable(shapes) && OrientationsOf(shapes, oris)
    ensures r == FitCount(shapes, regionLines)
  {
    var fitCount := 0;
    for j := 0 to |regionLines|
      invariant FitCount(shapes, regionLines[..j]) == Some(fitCount)
    {
      var next := RegionStep(shapes, oris, regionLines, j, fitCount);
      if next.None? {
        FitCountStaysFailed(shapes, regionLines, j + 1);
        return None;
      }
      fitCount := next.value;
    }
    assert regionLines[..|regionLines|] == regionLines;
    return Some(fitCount);
  }

  /** One pass of the region loop over line j. */
  method RegionStep(shapes: seq<Shape>, oris: seq<seq<Orientation>>, regionLines: seq<string>, j: nat, fitCount: nat)
    returns (next: Option<nat>)
    requires Usable(shapes) && OrientationsOf(shapes, oris) && j < |regionLines|
    requires FitCount(shapes, regionLines[..j]) == Some(fitCount)
    ensures next == FitCount(shapes, regionLines[..j + 1])
  {
    assert regionLines[..j + 1][..j] == regionLines[..j];
    var region := ReadRegionLine(regionLines[j], |shapes|);
    next := CountRegion(shapes, oris, fitCount, region);
  }

  method SolveSilver(input: seq<string>) returns (r: Option<nat>)
    ensures r == Silver(input)
  {
    var shapes, regionLines := ParseInput(input);
    ParsedFacts(input);
    var oris := AllOrientations(shapes);
    if oris.None? {
      return None;
    }
    r := CountFits(shapes, oris.value, regionLines);
  }

  /** solveGold: the puzzle has no second part; the answer is always 0. */
  function SolveGold(input: seq<string>): (r: int)
    ensures r == 0
  {
    0
  }
}
