/**
 * The first version of the day 01 dial (src/SecretEntrance.java): the dial is
 * advanced with Java's truncating remainder, (dial + move + 100) % 100, so a
 * long left turn can leave it negative. Its count of landings on 0 still
 * agrees with the day 01 solver's Silver answer.
 */
module SecretEntranceLegacy {
  import opened Text
  import SecretEntrance

  /** Java's a % 100 on int: the sign follows the dividend. */
  function JavaRem(a: int): (r: int)
    ensures -100 < r < 100
    ensures a >= 0 ==> r >= 0
    ensures a <= 0 ==> r <= 0
  {
    if a >= 0 then a % 100 else -((-a) % 100)
  }

  /** The truncated remainder differs from its dividend by a multiple of 100. */
  lemma JavaRemCongruent(a: int)
    ensures (a - JavaRem(a)) % 100 == 0
  {
    if a >= 0 {
      assert a - a % 100 == 100 * (a / 100);
    } else {
      assert a - JavaRem(a) == -(100 * ((-a) / 100));
    }
  }

  /** A truncated remainder is 0 exactly when the Euclidean one is. */
  lemma JavaRemZero(a: int)
    ensures JavaRem(a) == 0 <==> a % 100 == 0
  {
    if a < 0 {
      SecretEntrance.NegatedMultiple(a);
    }
  }

  /** The dial after one move, as the loop body writes it. */
  function Step(dial: int, m: SecretEntrance.Move): (r: int)
    ensures -100 < r < 100
  {
    JavaRem(dial + m.direction * m.value + 100)
  }

  /** The dial after the moves, starting from 50. */
  function Dial(ms: seq<SecretEntrance.Move>): (r: int)
    ensures -100 < r < 100
  {
    if |ms| == 0 then 50 else Step(Dial(ms[..|ms| - 1]), ms[|ms| - 1])
  }

  /** countZeros: the moves after which the dial is 0. */
  function ZeroCount(ms: seq<SecretEntrance.Move>): (r: nat)
    ensures r <= |ms|
  {
    if |ms| == 0 then 0 else ZeroCount(ms[..|ms| - 1]) + (if Dial(ms) == 0 then 1 else 0)
  }

  lemma DialSnoc(ms: seq<SecretEntrance.Move>, m: SecretEntrance.Move)
    ensures Dial(ms + [m]) == Step(Dial(ms), m)
    ensures ZeroCount(ms + [m]) == ZeroCount(ms) + (if Step(Dial(ms), m) == 0 then 1 else 0)
  {
    assert (ms + [m])[..|ms|] == ms;
  }

  /** The legacy dial always agrees with the day 01 dial modulo 100. */
  lemma {:induction false} DialCongruent(ms: seq<SecretEntrance.Move>)
    ensures Dial(ms) % 100 == SecretEntrance.DialAfter(ms)
  {
    if |ms| > 0 {
      var init, m := ms[..|ms| - 1], ms[|ms| - 1];
      DialCongruent(init);
      var a := Dial(init) + m.direction * m.value + 100;
      var b := SecretEntrance.DialAfter(init) + m.direction * m.value;
      var r := JavaRem(a);
      JavaRemCongruent(a);
      Congruent(r, a, b, Dial(init), SecretEntrance.DialAfter(init));
    }
  }

  lemma Congruent(r: int, a: int, b: int, d: int, e: int)
    requires (a - r) % 100 == 0 && d % 100 == e
    requires a - d - 100 == b - e
    ensures r % 100 == b % 100
  {
    var k := (a - r) / 100;
    assert a - r == 100 * k;
    var q := d / 100;
    assert d == 100 * q + e;
    assert r == b + 100 * (q + 1 - k);
  }

  /** A left turn past 0 leaves the legacy dial negative: L200 from 50 gives -50. */
  lemma NegativeDial()
    ensures Dial([SecretEntrance.Move(-1, 200)]) == -50
  {
    var ms := [SecretEntrance.Move(-1, 200)];
    assert ms[..0] == [];
  }

  /** The legacy count is the day 01 Silver count, whatever the moves. */
  lemma {:induction false} ZeroCountIsLandings(ms: seq<SecretEntrance.Move>)
    ensures ZeroCount(ms) == SecretEntrance.Landings(ms)
  {
    if |ms| > 0 {
      ZeroCountIsLandings(ms[..|ms| - 1]);
      DialCongruent(ms);
      var init, m := ms[..|ms| - 1], ms[|ms| - 1];
      JavaRemZero(Dial(init) + m.direction * m.value + 100);
    }
  }

  method FindPassword(lines: seq<string>) returns (r: Option<int>)
    ensures r.Some? <==> SecretEntrance.Moves(lines).Some?
    ensures r.Some? ==> r.value == ZeroCount(SecretEntrance.Moves(lines).value)
  {
    var dial := 50;
    var countZeros := 0;
    for i := 0 to |lines|
      invariant SecretEntrance.Moves(lines[..i]).Some?
      invariant dial == Dial(SecretEntrance.Moves(lines[..i]).value)
      invariant countZeros == ZeroCount(SecretEntrance.Moves(lines[..i]).value)
    {
      assert lines[..i + 1][..i] == lines[..i];
      var line := lines[i];
      if |line| == 0 {
        SecretEntrance.MovesStayFailed(lines, i + 1);
        return None;
      }
      var parsed := ParseInt(line[1..]);
      if parsed.None? {
        SecretEntrance.MovesStayFailed(lines, i + 1);
        return None;
      }
      var value := parsed.value;
      var direction := if line[0] == 'L' then -1 else 1;
      ghost var ms := SecretEntrance.Moves(lines[..i]).value;
      var m := SecretEntrance.Move(direction, value);
      SecretEntrance.MovesExtend(lines, i, m);
      DialSnoc(ms, m);
      dial := Step(dial, m);
      if dial == 0 {
        countZeros := countZeros + 1;
      }
    }
    assert lines[..|lines|] == lines;
    return Some(countZeros);
  }
}
