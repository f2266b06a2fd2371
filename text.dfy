/**
 * The pieces of Python's string handling that the modelled code relies on:
 * `str.split(sep)` with a one-character separator, `sep.join(pieces)`,
 * and ASCII decimal digits.
 */
module Text {

  /** `s.split(sep)`: the maximal separator-free pieces of `s`, always at least one. */
  function Split(s: string, sep: char): (r: seq<string>)
    ensures |r| >= 1
    ensures forall i :: 0 <= i < |r| ==> sep !in r[i]
  {
    if s == [] then [""]
    else
      var rest := Split(s[1..], sep);
      if s[0] == sep then [""] + rest
      else [[s[0]] + rest[0]] + rest[1..]
  }

  /** `sep.join(pieces)`. */
  function Join(pieces: seq<string>, sep: char): string
  {
    if pieces == [] then ""
    else if |pieces| == 1 then pieces[0]
    else pieces[0] + [sep] + Join(pieces[1..], sep)
  }

  /** Joining the pieces of a split gives back the original string. */
  lemma {:induction false} JoinSplit(s: string, sep: char)
    ensures Join(Split(s, sep), sep) == s
  {
    if s != [] {
      JoinSplit(s[1..], sep);
      if s[0] == sep {
        JoinSplitAtSep(s, sep);
      } else {
        JoinSplitAtChar(s, sep);
      }
    }
  }

  /** The step of `JoinSplit` for a string that starts with the separator. */
  lemma JoinSplitAtSep(s: string, sep: char)
    requires s != [] && s[0] == sep
    requires Join(Split(s[1..], sep), sep) == s[1..]
    ensures Join(Split(s, sep), sep) == s
  {
    var rest := Split(s[1..], sep);
    assert Split(s, sep) == [""] + rest;
    assert Join([""] + rest, sep) == "" + [sep] + Join(rest, sep);
    assert s == [sep] + s[1..];
  }

  /** The step of `JoinSplit` for a string that starts with another character. */
  lemma JoinSplitAtChar(s: string, sep: char)
    requires s != [] && s[0] != sep
    requires Join(Split(s[1..], sep), sep) == s[1..]
    ensures Join(Split(s, sep), sep) == s
  {
    var rest := Split(s[1..], sep);
    var head := [s[0]] + rest[0];
    var t := rest[1..];
    assert Split(s, sep) == [head] + t;
    if t == [] {
      assert [head] + t == [head];
      assert rest == [rest[0]];
    } else {
      var pieces := [head] + t;
      var j := Join(t, sep);
      assert pieces[0] == head && pieces[1..] == t;
      assert Join(pieces, sep) == head + [sep] + j;
      assert Join(rest, sep) == rest[0] + [sep] + j;
      calc {
        [s[0]] + (rest[0] + [sep] + j);
        { Concat3([s[0]], rest[0] + [sep], j); }
        [s[0]] + (rest[0] + [sep]) + j;
        { Concat3([s[0]], rest[0], [sep]); }
        head + [sep] + j;
      }
    }
    assert s == [s[0]] + s[1..];
  }

  /** A separator-free string splits into itself alone. */
  lemma {:induction false} SplitSingle(p: string, sep: char)
    requires sep !in p
    ensures Split(p, sep) == [p]
  {
    if p != [] {
      SplitSingle(p[1..], sep);
      assert p == [p[0]] + p[1..];
    }
  }

  /** Splitting stops at the first separator. */
  lemma {:induction false} SplitAtFirst(p: string, sep: char, t: string)
    requires sep !in p
    ensures Split(p + [sep] + t, sep) == [p] + Split(t, sep)
  {
    var s := p + [sep] + t;
    if p == [] {
      assert s[0] == sep && s[1..] == t;
    } else {
      assert s[0] == p[0];
      assert s[1..] == p[1..] + [sep] + t;
      SplitAtFirst(p[1..], sep, t);
      assert [p[0]] + p[1..] == p;
    }
  }

  /** A separator splits a string into the pieces before it followed by the pieces after it. */
  lemma {:induction false} SplitConcat(a: string, sep: char, b: string)
    ensures Split(a + [sep] + b, sep) == Split(a, sep) + Split(b, sep)
  {
    var s := a + [sep] + b;
    if a == [] {
      assert s[0] == sep && s[1..] == b;
    } else {
      assert s[0] == a[0];
      assert s[1..] == a[1..] + [sep] + b;
      SplitConcat(a[1..], sep, b);
    }
  }

  /** Splitting a join of separator-free pieces gives back the pieces. */
  lemma {:induction false} SplitJoin(pieces: seq<string>, sep: char)
    requires |pieces| >= 1
    requires forall i :: 0 <= i < |pieces| ==> sep !in pieces[i]
    ensures Split(Join(pieces, sep), sep) == pieces
  {
    if |pieces| == 1 {
      SplitSingle(pieces[0], sep);
    } else {
      SplitJoin(pieces[1..], sep);
      SplitAtFirst(pieces[0], sep, Join(pieces[1..], sep));
      assert [pieces[0]] + pieces[1..] == pieces;
    }
  }

  /** Concatenation is associative. */
  lemma Concat3(a: string, b: string, c: string)
    ensures a + (b + c) == a + b + c
  {
  }

  /** Joining three pieces puts one separator between neighbours. */
  lemma JoinThree(pieces: seq<string>, sep: char)
    requires |pieces| == 3
    ensures Join(pieces, sep) == pieces[0] + [sep] + pieces[1] + [sep] + pieces[2]
  {
    var tail := pieces[1..];
    assert tail[0] == pieces[1] && tail[1..] == pieces[2..] && pieces[2..] == [pieces[2]];
    assert Join(tail, sep) == pieces[1] + [sep] + pieces[2];
  }

  /** Joining two pieces puts one separator between them. */
  lemma JoinTwo(pieces: seq<string>, sep: char)
    requires |pieces| == 2
    ensures Join(pieces, sep) == pieces[0] + [sep] + pieces[1]
  {
    assert pieces[1..] == [pieces[1]];
  }

  predicate IsDigit(c: char)
  {
    '0' <= c <= '9'
  }

  predicate AllDigits(s: string)
  {
    forall i :: 0 <= i < |s| ==> IsDigit(s[i])
  }

  /** The number an ASCII decimal numeral denotes, as Python's `int` reads it. */
  function DigitsValue(s: string): (n: nat)
    requires AllDigits(s)
  {
    if s == [] then 0
    else DigitsValue(s[..|s| - 1]) * 10 + (s[|s| - 1] as int - '0' as int) as nat
  }

  /** The value of a two-digit numeral. */
  lemma DigitsValue2(s: string)
    requires |s| == 2 && AllDigits(s)
    ensures DigitsValue(s) == 10 * (s[0] as int - '0' as int) + (s[1] as int - '0' as int)
  {
    var init := s[..1];
    assert init[..0] == [] && init[0] == s[0];
    assert DigitsValue(init) == s[0] as int - '0' as int;
  }

  /** The value of a four-digit numeral. */
  lemma DigitsValue4(s: string)
    requires |s| == 4 && AllDigits(s)
    ensures DigitsValue(s) ==
      1000 * (s[0] as int - '0' as int) + 100 * (s[1] as int - '0' as int) + 10 * (s[2] as int - '0' as int) + (s[3] as int - '0' as int)
  {
    DigitsValue2(s[..2]);
    assert s[..3][..2] == s[..2];
  }

  /** A numeral denotes zero exactly when all its digits are `0`. */
  lemma {:induction false} DigitsValueZero(s: string)
    requires AllDigits(s)
    ensures DigitsValue(s) == 0 <==> forall i :: 0 <= i < |s| ==> s[i] == '0'
  {
    if s != [] {
      var init := s[..|s| - 1];
      DigitsValueZero(init);
      assert forall i :: 0 <= i < |init| ==> init[i] == s[i];
    }
  }
}
