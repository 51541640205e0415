/**
 * The safe dial of day 01: a dial numbered 0..99 starts at 50 and is turned
 * left (L) or right (anything else) by a number of clicks per instruction.
 * Silver counts the instructions that leave the dial at 0; Gold counts every
 * click at which the dial passes 0.
 */
module SecretEntrance {
  import opened Text

  /** One instruction: direction -1 (left) or +1 (right), and the number of clicks. */
  datatype Move = Move(direction: int, value: int)

  predicate IsTurn(m: Move) { m.direction == -1 || m.direction == 1 }

  /** First character 'L' turns left, anything else right; the rest of the line is the click count. */
  function ParseMove(line: string): (r: Option<Move>)
    ensures r.Some? ==> |line| > 0 && IsTurn(r.value)
    ensures r.Some? ==> (r.value.direction == -1 <==> line[0] == 'L')
  {
    if |line| == 0 then None
    else
      match ParseInt(line[1..])
      case None => None
      case Some(v) => Some(Move(if line[0] == 'L' then -1 else 1, v))
  }

  /** An instruction written as a letter and a number is read back. */
  lemma ParseMoveRoundTrip(letter: char, v: int)
    ensures ParseMove([letter] + ToDecimal(v)) == Some(Move(if letter == 'L' then -1 else 1, v))
  {
    ParseToDecimal(v);
    assert ([letter] + ToDecimal(v))[1..] == ToDecimal(v);
  }

  /** The instructions of all lines; None when a line is empty or its count is not an integer. */
  function Moves(lines: seq<string>): (r: Option<seq<Move>>)
    ensures r.Some? ==> |r.value| == |lines| && forall k :: 0 <= k < |lines| ==> IsTurn(r.value[k])
  {
    if |lines| == 0 then Some([])
    else
      match Moves(lines[..|lines| - 1])
      case None => None
      case Some(ms) =>
        match ParseMove(lines[|lines| - 1])
        case None => None
        case Some(m) => Some(ms + [m])
  }

  lemma {:induction false} MovesStayFailed(lines: seq<string>, j: nat)
    requires j <= |lines| && Moves(lines[..j]).None?
    ensures Moves(lines).None?
    decreases |lines| - j
  {
    if j < |lines| {
      assert lines[..j + 1][..j] == lines[..j];
      MovesStayFailed(lines, j + 1);
    } else {
      assert lines[..j] == lines;
    }
  }

  /** Math.floorMod(dial + direction * value, 100). */
  function Turn(dial: int, m: Move): (r: int)
    ensures 0 <= r < 100
  {
    (dial + m.direction * m.value) % 100
  }

  /** The dial after the moves, starting from 50. */
  function DialAfter(ms: seq<Move>): (r: int)
    ensures 0 <= r < 100
  {
    if |ms| == 0 then 50 else Turn(DialAfter(ms[..|ms| - 1]), ms[|ms| - 1])
  }

  /** countZerosP2: the moves after which the dial shows 0. */
  function Landings(ms: seq<Move>): (r: nat)
    ensures r <= |ms|
  {
    if |ms| == 0 then 0 else Landings(ms[..|ms| - 1]) + (if DialAfter(ms) == 0 then 1 else 0)
  }

  /** The number of clicks until the dial first shows 0 when turning from start. */
  function FirstZero(start: int, direction: int): (r: int)
    ensures 1 <= r <= 100
  {
    var raw := (-start * direction) % 100;
    if raw == 0 then 100 else raw
  }

  /** crosses: the zero passes of one move, in closed form. */
  function Crosses(start: int, m: Move): int {
    var first := FirstZero(start, m.direction);
    if first <= m.value then 1 + (m.value - first) / 100 else 0
  }

  /** countZerosP1: the zero passes of all moves. */
  function Crossings(ms: seq<Move>): int {
    if |ms| == 0 then 0 else Crossings(ms[..|ms| - 1]) + Crosses(DialAfter(ms[..|ms| - 1]), ms[|ms| - 1])
  }

  /** Reference count: the clicks t in 1..n after which the dial, turned from start, shows 0. */
  function Hits(start: int, direction: int, n: int): nat
    decreases if n < 0 then 0 else n
  {
    if n <= 0 then 0 else Hits(start, direction, n - 1) + (if (start + direction * n) % 100 == 0 then 1 else 0)
  }

  /** Reference count over all moves: every click that leaves the dial at 0. */
  function Clicks(ms: seq<Move>): nat {
    if |ms| == 0 then 0 else Clicks(ms[..|ms| - 1]) + Hits(DialAfter(ms[..|ms| - 1]), ms[|ms| - 1].direction, ms[|ms| - 1].value)
  }

  /** The clicks t in 1..n with t = first modulo 100. */
  function Matches(first: int, n: int): nat
    decreases if n < 0 then 0 else n
  {
    if n <= 0 then 0 else Matches(first, n - 1) + (if (n - first) % 100 == 0 then 1 else 0)
  }

  lemma NegatedMultiple(x: int)
    ensures x % 100 == 0 <==> (-x) % 100 == 0
  {
    if x % 100 == 0 {
      assert -x == 100 * (-(x / 100));
    }
    if (-x) % 100 == 0 {
      assert x == 100 * (-((-x) / 100));
    }
  }

  /** A click lands on 0 exactly when it is the first zero click plus a multiple of 100. */
  lemma HitAt(start: int, direction: int, n: int)
    requires 0 <= start < 100 && (direction == -1 || direction == 1)
    ensures (start + direction * n) % 100 == 0 <==> (n - FirstZero(start, direction)) % 100 == 0
  {
    var first := FirstZero(start, direction);
    if direction == 1 {
      if start == 0 {
        assert first == 100;
        assert n - first == n + 100 * (-1);
      } else {
        assert (-start) % 100 == 100 - start;
        assert n - first == (start + n) + 100 * (-1);
      }
    } else {
      if start == 0 {
        assert first == 100;
        NegatedMultiple(n);
        assert n - first == n + 100 * (-1);
      } else {
        assert first == start;
        NegatedMultiple(n - start);
      }
    }
  }

  /** Between consecutive multiples of 100 the quotient steps by one exactly at a multiple. */
  lemma QuotientStep(a: int)
    requires a >= 1
    ensures a / 100 - (a - 1) / 100 == if a % 100 == 0 then 1 else 0
  {
    var q, r := a / 100, a % 100;
    assert a == 100 * q + r;
    if r == 0 {
      assert a - 1 == 100 * (q - 1) + 99;
    } else {
      assert a - 1 == 100 * q + (r - 1);
    }
  }

  /** The closed form counts the clicks first, first + 100, first + 200, ... up to n. */
  lemma {:induction false} ClosedFormMatches(first: int, n: int)
    requires 1 <= first <= 100
    ensures (if first <= n then 1 + (n - first) / 100 else 0) == Matches(first, n)
    decreases if n < 0 then 0 else n
  {
    if n > 0 {
      ClosedFormMatches(first, n - 1);
      if n < first {
        assert 0 < first - n < 100;
        assert (n - first) % 100 != 0;
      } else if n == first {
      } else {
        QuotientStep(n - first);
      }
    }
  }

  lemma {:induction false} HitsMatch(start: int, direction: int, n: int)
    requires 0 <= start < 100 && (direction == -1 || direction == 1)
    ensures Hits(start, direction, n) == Matches(FirstZero(start, direction), n)
    decreases if n < 0 then 0 else n
  {
    if n > 0 {
      HitsMatch(start, direction, n - 1);
      HitAt(start, direction, n);
      var first := FirstZero(start, direction);
      assert Hits(start, direction, n) == Hits(start, direction, n - 1) + (if (start + direction * n) % 100 == 0 then 1 else 0);
      assert Matches(first, n) == Matches(first, n - 1) + (if (n - first) % 100 == 0 then 1 else 0);
    }
  }

  /** The closed form of one move counts exactly the clicks that leave the dial at 0. */
  lemma CrossesCountsHits(start: int, m: Move)
    requires 0 <= start < 100 && IsTurn(m)
    ensures Crosses(start, m) == Hits(start, m.direction, m.value)
  {
    HitsMatch(start, m.direction, m.value);
    ClosedFormMatches(FirstZero(start, m.direction), m.value);
  }

  /** Gold's count is the number of clicks, over all moves, that leave the dial at 0. */
  lemma {:induction false} CrossingsAreClicks(ms: seq<Move>)
    requires forall k :: 0 <= k < |ms| ==> IsTurn(ms[k])
    ensures Crossings(ms) == Clicks(ms)
  {
    if |ms| > 0 {
      CrossingsAreClicks(ms[..|ms| - 1]);
      CrossesCountsHits(DialAfter(ms[..|ms| - 1]), ms[|ms| - 1]);
    }
  }

  /** With every move at least one click long, each landing on 0 is also a click on 0. */
  lemma {:induction false} LandingsAreClicks(ms: seq<Move>)
    requires forall k :: 0 <= k < |ms| ==> IsTurn(ms[k]) && ms[k].value >= 1
    ensures Landings(ms) <= Clicks(ms)
  {
    if |ms| > 0 {
      var init, m := ms[..|ms| - 1], ms[|ms| - 1];
      LandingsAreClicks(init);
      if DialAfter(ms) == 0 {
        LastClickHits(DialAfter(init), m.direction, m.value);
      }
    }
  }

  lemma LastClickHits(start: int, direction: int, n: int)
    requires n >= 1 && (start + direction * n) % 100 == 0
    ensures Hits(start, direction, n) >= 1
  {
  }

  /** The body of find_password's loop: the dial after the move and the zero passes on the way. */
  method TurnDial(start: int, direction: int, value: int) returns (dial: int, crosses: int)
    ensures dial == Turn(start, Move(direction, value))
    ensures crosses == Crosses(start, Move(direction, value))
  {
    var delta := direction * value;
    var end := start + delta;
    var raw := (-start * direction) % 100;
    var firstT := if raw == 0 then 100 else raw;
    crosses := 0;
    if firstT <= value {
      crosses := 1 + (value - firstT) / 100;
    }
    dial := end % 100;
  }

  /** A line that reads as a move extends the moves read so far; the dial and both counts take one step. */
  lemma MovesSnoc(lines: seq<string>, i: nat, m: Move)
    requires i < |lines| && Moves(lines[..i]).Some? && ParseMove(lines[i]) == Some(m)
    ensures var ms := Moves(lines[..i]).value;
      && Moves(lines[..i + 1]) == Some(ms + [m])
      && DialAfter(ms + [m]) == Turn(DialAfter(ms), m)
      && Crossings(ms + [m]) == Crossings(ms) + Crosses(DialAfter(ms), m)
      && Landings(ms + [m]) == Landings(ms) + (if Turn(DialAfter(ms), m) == 0 then 1 else 0)
  {
    var ms := Moves(lines[..i]).value;
    MovesExtend(lines, i, m);
    assert (ms + [m])[..|ms|] == ms;
  }

  lemma MovesExtend(lines: seq<string>, i: nat, m: Move)
    requires i < |lines| && Moves(lines[..i]).Some? && ParseMove(lines[i]) == Some(m)
    ensures Moves(lines[..i + 1]) == Some(Moves(lines[..i]).value + [m])
  {
    assert lines[..i + 1][..i] == lines[..i];
  }

  /** find_password: Gold (method_0x) returns the zero passes, Silver the landings on 0. */
  function Password(method0x: bool, lines: seq<string>): Option<int> {
    match Moves(lines)
    case None => None
    case Some(ms) => Some(if method0x then Crossings(ms) else Landings(ms))
  }

  method FindPassword(method0x: bool, lines: seq<string>) returns (r: Option<int>)
    ensures r == Password(method0x, lines)
  {
    var dial := 50;
    var countZerosP1 := 0;
    var countZerosP2 := 0;
    for i := 0 to |lines|
      invariant Moves(lines[..i]).Some?
      invariant dial == DialAfter(Moves(lines[..i]).value)
      invariant countZerosP1 == Crossings(Moves(lines[..i]).value)
      invariant countZerosP2 == Landings(Moves(lines[..i]).value)
    {
      assert lines[..i + 1][..i] == lines[..i];
      var line := lines[i];
      if |line| == 0 {
        MovesStayFailed(lines, i + 1);
        return None;
      }
      var dirChar := line[0];
      var direction := if dirChar == 'L' then -1 else 1;
      var parsed := ParseInt(line[1..]);
      if parsed.None? {
        MovesStayFailed(lines, i + 1);
        return None;
      }
      var value := parsed.value;
      MovesSnoc(lines, i, Move(direction, value));
      var crosses;
      dial, crosses := TurnDial(dial, direction, value);
      countZerosP1 := countZerosP1 + crosses;
      if dial == 0 {
        countZerosP2 := countZerosP2 + 1;
      }
    }
    assert lines[..|lines|] == lines;
    return Some(if method0x then countZerosP1 else countZerosP2);
  }

  /** Silver: how many instructions leave the dial at 0. */
  method SolveSilver(lines: seq<string>) returns (r: Option<int>)
    ensures r.Some? <==> Moves(lines).Some?
    ensures r.Some? ==> r.value == Landings(Moves(lines).value) && 0 <= r.value <= |lines|
  {
    r := FindPassword(false, lines);
  }

  /** Gold: how many clicks, over all instructions, leave the dial at 0. */
  method SolveGold(lines: seq<string>) returns (r: Option<int>)
    ensures r.Some? <==> Moves(lines).Some?
    ensures r.Some? ==> r.value == Clicks(Moves(lines).value)
  {
    r := FindPassword(true, lines);
    if r.Some? {
      CrossingsAreClicks(Moves(lines).value);
    }
  }
}
