/**
 * The parts of the Java string library the solvers lean on, with the
 * semantics the solvers observe: splitting on a character or on runs of
 * whitespace (with Java's removal of trailing empty fields), trimming, and
 * decimal conversion in both directions. Integer overflow is not modelled.
 */
module Text {

  datatype Option<T> = None | Some(value: T)

  predicate IsDigit(c: char) { '0' <= c <= '9' }

  predicate AllDigits(s: string) { forall i :: 0 <= i < |s| ==> IsDigit(s[i]) }

  function DigitValue(c: char): (d: nat)
    requires IsDigit(c)
    ensures d < 10
  {
    c as int - '0' as int
  }

  function DigitChar(d: nat): (c: char)
    requires d < 10
    ensures IsDigit(c) && DigitValue(c) == d
  {
    ('0' as int + d) as char
  }

  /** Value of a string of decimal digits, most significant digit first. */
  function DigitsValue(s: string): nat
    requires AllDigits(s)
  {
    if |s| == 0 then 0 else DigitsValue(s[..|s| - 1]) * 10 + DigitValue(s[|s| - 1])
  }

  /** Integer.parseInt / Long.parseLong: an optional sign followed by at least one digit. */
  function ParseInt(s: string): (r: Option<int>)
    ensures r.Some? <==> (|s| > 0 && AllDigits(s)) || (|s| > 1 && (s[0] == '-' || s[0] == '+') && AllDigits(s[1..]))
  {
    if |s| > 0 && AllDigits(s) then Some(DigitsValue(s))
    else if |s| > 1 && s[0] == '-' && AllDigits(s[1..]) then Some(0 - DigitsValue(s[1..]))
    else if |s| > 1 && s[0] == '+' && AllDigits(s[1..]) then Some(DigitsValue(s[1..]))
    else None
  }

  /** Long.toString for a non-negative value: no leading zeros, "0" for zero. */
  function NatToDecimal(n: nat): (s: string)
    ensures |s| > 0 && AllDigits(s)
    ensures |s| > 1 ==> s[0] != '0'
  {
    if n < 10 then [DigitChar(n)] else NatToDecimal(n / 10) + [DigitChar(n % 10)]
  }

  /** Long.toString: a minus sign in front of negative values. */
  function ToDecimal(n: int): (s: string)
    ensures |s| > 0
  {
    if n < 0 then "-" + NatToDecimal(-n) else NatToDecimal(n)
  }

  lemma {:induction false} NatToDecimalValue(n: nat)
    ensures DigitsValue(NatToDecimal(n)) == n
  {
    if n >= 10 {
      NatToDecimalValue(n / 10);
      var s := NatToDecimal(n);
      assert s[..|s| - 1] == NatToDecimal(n / 10);
    }
  }

  /** A digit string without a leading zero has a positive value. */
  lemma {:induction false} LeadingDigitPositive(s: string)
    requires |s| > 0 && AllDigits(s) && s[0] != '0'
    ensures DigitsValue(s) >= 1
  {
    if |s| > 1 {
      LeadingDigitPositive(s[..|s| - 1]);
    }
  }

  /** Printing the value of a digit string without a leading zero gives the string back. */
  lemma {:induction false} DecimalOfDigits(s: string)
    requires |s| > 0 && AllDigits(s) && (|s| > 1 ==> s[0] != '0')
    ensures NatToDecimal(DigitsValue(s)) == s
  {
    if |s| > 1 {
      var p := s[..|s| - 1];
      LeadingDigitPositive(p);
      DecimalOfDigits(p);
      var c := s[|s| - 1];
      assert DigitChar(DigitValue(c)) == c;
      assert s == p + [c];
    } else {
      assert DigitChar(DigitValue(s[0])) == s[0];
    }
  }

  /** Parsing the printed form of any integer gives the integer back. */
  lemma ParseToDecimal(n: int)
    ensures ParseInt(ToDecimal(n)) == Some(n)
  {
    if n < 0 {
      NatToDecimalValue(-n);
      assert ToDecimal(n)[1..] == NatToDecimal(-n);
    } else {
      NatToDecimalValue(n);
    }
  }

  /** The whitespace class \s of java.util.regex: [ \t\n\x0B\f\r]. */
  predicate IsSpace(c: char) {
    c == ' ' || c == '\t' || c == '\n' || c == '\U{B}' || c == '\U{C}' || c == '\r'
  }

  /** Characters String.trim() removes: every code point up to U+0020. */
  predicate IsTrimmed(c: char) { c <= ' ' }

  /**
   * Characters String.strip() removes, Character.isWhitespace: the controls
   * U+0009 to U+000D and U+001C to U+001F, and the space, line and paragraph
   * separators other than the non-breaking U+00A0, U+2007 and U+202F.
   */
  predicate IsStripped(c: char) {
    || IsSpace(c) || ('\U{1C}' <= c <= '\U{1F}')
    || c == '\U{1680}' || ('\U{2000}' <= c <= '\U{2006}') || ('\U{2008}' <= c <= '\U{200A}')
    || c == '\U{2028}' || c == '\U{2029}' || c == '\U{205F}' || c == '\U{3000}'
  }

  /** The number of leading characters of s that satisfy p. */
  function LeadingCount(s: string, p: char -> bool): (k: nat)
    ensures k <= |s|
    ensures forall i :: 0 <= i < k ==> p(s[i])
    ensures k < |s| ==> !p(s[k])
  {
    if |s| > 0 && p(s[0]) then 1 + LeadingCount(s[1..], p) else 0
  }

  /** The number of trailing characters of s that satisfy p. */
  function TrailingCount(s: string, p: char -> bool): (k: nat)
    ensures k <= |s|
    ensures forall i :: |s| - k <= i < |s| ==> p(s[i])
    ensures k < |s| ==> !p(s[|s| - k - 1])
  {
    if |s| > 0 && p(s[|s| - 1]) then 1 + TrailingCount(s[..|s| - 1], p) else 0
  }

  function TrimLeftBy(s: string, p: char -> bool): string { s[LeadingCount(s, p)..] }

  function TrimRightBy(s: string, p: char -> bool): string { s[..|s| - TrailingCount(s, p)] }

  /** String.trim(): no character up to U+0020 is left at either end, and nothing else is added or dropped. */
  function Trim(s: string): (r: string)
    ensures |r| > 0 ==> !IsTrimmed(r[0]) && !IsTrimmed(r[|r| - 1])
    ensures |r| <= |s|
  {
    TrimRightBy(s[LeadingCount(s, IsTrimmed)..], IsTrimmed)
  }

  /** trim() only drops characters up to U+0020 from the ends: it adds nothing and keeps every other character. */
  lemma TrimChars(s: string)
    ensures forall c :: c in Trim(s) ==> c in s
    ensures forall i :: 0 <= i < |s| && !IsTrimmed(s[i]) ==> s[i] in Trim(s)
  {
    var a := LeadingCount(s, IsTrimmed);
    var r := Trim(s);
    assert r == s[a..a + |r|];
  }

  /** trim() leaves a string alone when neither end is a trimmed character. */
  lemma TrimKeeps(s: string)
    requires |s| > 0 ==> !IsTrimmed(s[0]) && !IsTrimmed(s[|s| - 1])
    ensures Trim(s) == s
  {
    assert LeadingCount(s, IsTrimmed) == 0;
    assert s[0..] == s;
    assert TrailingCount(s, IsTrimmed) == 0;
  }

  /** String.strip(). */
  function Strip(s: string): string { TrimRightBy(TrimLeftBy(s, IsStripped), IsStripped) }

  /** The pieces of s between occurrences of sep, empty pieces included. */
  function Fields(s: string, sep: char): (r: seq<string>)
    ensures |r| >= 1
    ensures forall i :: 0 <= i < |r| ==> sep !in r[i]
  {
    if |s| == 0 then [""]
    else if s[0] == sep then [""] + Fields(s[1..], sep)
    else var rest := Fields(s[1..], sep); [[s[0]] + rest[0]] + rest[1..]
  }

  function Join(parts: seq<string>, sep: char): string
    requires |parts| >= 1
  {
    if |parts| == 1 then parts[0] else parts[0] + [sep] + Join(parts[1..], sep)
  }

  /** Splitting on a character loses nothing: joining the pieces back gives the input. */
  lemma {:induction false} JoinFields(s: string, sep: char)
    ensures Join(Fields(s, sep), sep) == s
  {
    if |s| > 0 {
      JoinFields(s[1..], sep);
      var rest := Fields(s[1..], sep);
      if s[0] != sep && |rest| > 1 {
        assert ([[s[0]] + rest[0]] + rest[1..])[1..] == rest[1..];
      }
    }
  }

  /** A string without the separator is a single piece. */
  lemma {:induction false} FieldsOne(w: string, sep: char)
    requires sep !in w
    ensures Fields(w, sep) == [w]
  {
    if |w| > 0 {
      FieldsOne(w[1..], sep);
      assert [w[0]] + w[1..] == w;
    }
  }

  /** A separator-free piece followed by the separator splits off as the first piece. */
  lemma {:induction false} FieldsCons(x: string, y: string, sep: char)
    requires sep !in x
    ensures Fields(x + [sep] + y, sep) == [x] + Fields(y, sep)
  {
    var s := x + [sep] + y;
    if |x| == 0 {
      assert s[1..] == y;
    } else {
      FieldsCons(x[1..], y, sep);
      assert s[1..] == x[1..] + [sep] + y;
      assert [x[0]] + x[1..] == x;
    }
  }

  /** Joining separator-free pieces and splitting again gives the pieces back. */
  lemma {:induction false} FieldsJoin(ws: seq<string>, sep: char)
    requires |ws| >= 1 && forall i :: 0 <= i < |ws| ==> sep !in ws[i]
    ensures Fields(Join(ws, sep), sep) == ws
  {
    if |ws| == 1 {
      FieldsOne(ws[0], sep);
    } else {
      FieldsJoin(ws[1..], sep);
      FieldsCons(ws[0], Join(ws[1..], sep), sep);
      assert [ws[0]] + ws[1..] == ws;
    }
  }

  /**
   * split(sep) of separator-free pieces joined by sep gives the pieces back,
   * unless several were joined and the last is empty (split drops it).
   */
  lemma SplitJoin(ws: seq<string>, sep: char)
    requires |ws| >= 1 && forall i :: 0 <= i < |ws| ==> sep !in ws[i]
    requires |ws| > 1 ==> ws[|ws| - 1] != ""
    ensures Split(Join(ws, sep), sep) == ws
  {
    var s := Join(ws, sep);
    if |ws| > 1 {
      assert s[|ws[0]|] == sep by {
        assert s == ws[0] + [sep] + Join(ws[1..], sep);
      }
      FieldsJoin(ws, sep);
      DropKeeps(ws);
    }
  }

  /** The pieces of s between maximal runs of whitespace (\s+). */
  function SpaceFields(s: string): (r: seq<string>)
    ensures |r| >= 1
    ensures forall i, j :: 0 <= i < |r| && 0 <= j < |r[i]| ==> !IsSpace(r[i][j])
  {
    if |s| == 0 then [""]
    else if IsSpace(s[0]) then [""] + SpaceFields(TrimLeftBy(s, IsSpace))
    else var rest := SpaceFields(s[1..]); [[s[0]] + rest[0]] + rest[1..]
  }

  function DropTrailingEmpty(parts: seq<string>): (r: seq<string>)
    ensures |r| <= |parts| && r == parts[..|r|]
    ensures |r| > 0 ==> r[|r| - 1] != ""
    ensures forall i :: |r| <= i < |parts| ==> parts[i] == ""
  {
    if |parts| > 0 && parts[|parts| - 1] == "" then DropTrailingEmpty(parts[..|parts| - 1]) else parts
  }

  /**
   * String.split(String.valueOf(sep)): with no separator the input itself is
   * the only piece; otherwise trailing empty pieces are dropped.
   */
  function Split(s: string, sep: char): (r: seq<string>)
    ensures forall i :: 0 <= i < |r| ==> sep !in r[i]
  {
    if sep !in s then [s] else DropTrailingEmpty(Fields(s, sep))
  }

  /** String.split("\\s+"). */
  function SplitSpaces(s: string): seq<string>
  {
    if forall i :: 0 <= i < |s| ==> !IsSpace(s[i]) then [s] else DropTrailingEmpty(SpaceFields(s))
  }

  /** A non-empty token free of the characters trim() removes (and so of whitespace). */
  predicate Word(t: string) {
    |t| > 0 && forall i :: 0 <= i < |t| ==> !IsTrimmed(t[i])
  }

  /** Every token is a word. */
  predicate Words(ts: seq<string>) {
    forall k :: 0 <= k < |ts| ==> |ts[k]| > 0 && forall i :: 0 <= i < |ts[k]| ==> !IsTrimmed(ts[k][i])
  }

  /** Joining words: the first character is the first word's, the last the last word's. */
  lemma {:induction false} JoinEnds(ts: seq<string>, sep: char)
    requires |ts| > 0 && Words(ts)
    ensures |Join(ts, sep)| > 0 && Join(ts, sep)[0] == ts[0][0]
    ensures Join(ts, sep)[|Join(ts, sep)| - 1] == ts[|ts| - 1][|ts[|ts| - 1]| - 1]
  {
    if |ts| > 1 {
      JoinEnds(ts[1..], sep);
    }
  }

  lemma {:induction false} SpaceFieldsWord(t: string, s: string)
    requires forall i :: 0 <= i < |t| ==> !IsSpace(t[i])
    ensures SpaceFields(t + s) == [t + SpaceFields(s)[0]] + SpaceFields(s)[1..]
  {
    if |t| > 0 {
      assert (t + s)[1..] == t[1..] + s;
      SpaceFieldsWord(t[1..], s);
      assert [t[0]] + (t[1..] + SpaceFields(s)[0]) == t + SpaceFields(s)[0];
    } else {
      assert t + s == s && t + SpaceFields(s)[0] == SpaceFields(s)[0];
      assert [SpaceFields(s)[0]] + SpaceFields(s)[1..] == SpaceFields(s);
    }
  }

  lemma SpaceFieldsAfterSpace(rest: string)
    requires |rest| > 0 && !IsSpace(rest[0])
    ensures SpaceFields([' '] + rest) == [""] + SpaceFields(rest)
  {
    var s := [' '] + rest;
    assert s[1..] == rest;
    assert LeadingCount(s, IsSpace) == 1;
  }

  /** Splitting words joined by single spaces on \\s+ gives the words back. */
  lemma {:induction false} SpaceFieldsJoin(ts: seq<string>)
    requires |ts| > 0 && Words(ts)
    ensures SpaceFields(Join(ts, ' ')) == ts
  {
    if |ts| == 1 {
      SpaceFieldsWord(ts[0], "");
      assert ts[0] + "" == ts[0];
    } else {
      var w, tail := ts[0], ts[1..];
      var rest := Join(tail, ' ');
      WordsTail(ts);
      assert SpaceFields(rest) == tail by {
        SpaceFieldsJoin(tail);
      }
      assert |rest| > 0 && !IsSpace(rest[0]) by {
        JoinEnds(tail, ' ');
      }
      assert forall i :: 0 <= i < |w| ==> !IsSpace(w[i]);
      SpaceFieldsCons(w, rest, tail);
      assert Join(ts, ' ') == w + ([' '] + rest);
      assert [w] + tail == ts;
    }
  }

  lemma WordsTail(ts: seq<string>)
    requires |ts| > 0 && Words(ts)
    ensures Words(ts[1..])
  {
  }

  lemma SpaceFieldsCons(w: string, rest: string, tail: seq<string>)
    requires forall i :: 0 <= i < |w| ==> !IsSpace(w[i])
    requires |rest| > 0 && !IsSpace(rest[0]) && SpaceFields(rest) == tail
    ensures SpaceFields(w + ([' '] + rest)) == [w] + tail
  {
    SpaceFieldsAfterSpace(rest);
    SpaceFieldsWord(w, [' '] + rest);
    assert w + "" == w;
  }

  /**
   * line.trim().split("\\s+") of words joined by single spaces gives the
   * words back.
   */
  lemma SplitJoinedWords(ts: seq<string>)
    requires |ts| > 0 && Words(ts)
    ensures SplitSpaces(Trim(Join(ts, ' '))) == ts
  {
    var s := Join(ts, ' ');
    JoinEnds(ts, ' ');
    TrimKeeps(s);
    if |ts| == 1 {
      SplitOneWord(ts);
    } else {
      JoinHasSpace(ts);
      SpaceFieldsJoin(ts);
      DropKeeps(ts);
    }
  }

  lemma SplitOneWord(ts: seq<string>)
    requires |ts| == 1 && Words(ts)
    ensures SplitSpaces(Join(ts, ' ')) == ts
  {
    assert Join(ts, ' ') == ts[0];
    assert forall i :: 0 <= i < |ts[0]| ==> !IsSpace(ts[0][i]);
  }

  lemma DropKeeps(ts: seq<string>)
    requires |ts| > 0 && ts[|ts| - 1] != ""
    ensures DropTrailingEmpty(ts) == ts
  {
  }

  lemma JoinHasSpace(ts: seq<string>)
    requires |ts| > 1 && Words(ts)
    ensures SplitSpaces(Join(ts, ' ')) == DropTrailingEmpty(SpaceFields(Join(ts, ' ')))
  {
    var s := Join(ts, ' ');
    assert s == ts[0] + [' '] + Join(ts[1..], ' ');
    assert IsSpace(s[|ts[0]|]);
  }

  /** The printed form of a natural number is a word. */
  lemma DecimalIsWord(n: nat)
    ensures Word(ToDecimal(n))
  {
  }

  /** String.indexOf(c, from): the first index at or after from holding c, or -1. */
  function IndexOf(s: string, c: char, from: nat): (r: int)
    ensures r == -1 || from <= r < |s|
    ensures r >= 0 ==> s[r] == c
    decreases |s| - from
  {
    if from >= |s| then -1 else if s[from] == c then from else IndexOf(s, c, from + 1)
  }

  /** IndexOf finds the first c at or after from, and -1 means there is none. */
  lemma {:induction false} IndexOfFirst(s: string, c: char, from: nat)
    ensures IndexOf(s, c, from) == -1 ==> forall i :: from <= i < |s| ==> s[i] != c
    ensures IndexOf(s, c, from) >= 0 ==> forall i :: from <= i < IndexOf(s, c, from) ==> s[i] != c
    decreases |s| - from
  {
    if from < |s| && s[from] != c {
      IndexOfFirst(s, c, from + 1);
    }
  }
}
