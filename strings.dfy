/**
 * The pieces of Python's string handling the roster program relies on:
 * `str.split(sep)` with a one-character separator, `str.split()` with no
 * argument, `int()` on a decimal digit string and `str()` / `format` of a
 * non-negative integer.
 */
module Strings {

  /** True when no character of `s` is one of `seps`. */
  predicate Free(s: string, seps: set<char>)
  {
    forall j :: 0 <= j < |s| ==> s[j] !in seps
  }

  /**
   * Python's `s.split(sep)`, generalised to a set of separator characters:
   * the pieces between separators, empty pieces kept, so there is always at
   * least one piece.
   */
  function SplitOn(s: string, seps: set<char>): (pieces: seq<string>)
    ensures |pieces| >= 1
    decreases |s|
  {
    if s == [] then [""]
    else
      var rest := SplitOn(s[1..], seps);
      if s[0] in seps then [""] + rest else [[s[0]] + rest[0]] + rest[1..]
  }

  /** How many characters of `s` are separators. */
  function Occurrences(s: string, seps: set<char>): nat
  {
    if s == [] then 0 else (if s[0] in seps then 1 else 0) + Occurrences(s[1..], seps)
  }

  /** Python's `sep.join(pieces)`, the inverse of `SplitOn` for one separator. */
  function Join(pieces: seq<string>, sep: char): string
    requires |pieces| >= 1
  {
    if |pieces| == 1 then pieces[0] else pieces[0] + [sep] + Join(pieces[1..], sep)
  }

  /** Splitting yields one more piece than there are separators. */
  lemma {:induction false} SplitCount(s: string, seps: set<char>)
    ensures |SplitOn(s, seps)| == Occurrences(s, seps) + 1
    decreases |s|
  {
    if s != [] {
      SplitCount(s[1..], seps);
    }
  }

  /** No piece of a split contains a separator. */
  lemma {:induction false} SplitPiecesFree(s: string, seps: set<char>)
    ensures forall p :: p in SplitOn(s, seps) ==> Free(p, seps)
    decreases |s|
  {
    if s != [] {
      SplitPiecesFree(s[1..], seps);
      var rest := SplitOn(s[1..], seps);
      if s[0] !in seps {
        assert Free(rest[0], seps);
        assert Free([s[0]] + rest[0], seps);
      }
    }
  }

  /** A string without separators splits into itself alone. */
  lemma {:induction false} SplitFree(s: string, seps: set<char>)
    requires Free(s, seps)
    ensures SplitOn(s, seps) == [s]
    decreases |s|
  {
    if s != [] {
      SplitFree(s[1..], seps);
      assert [s[0]] + s[1..] == s;
    }
  }

  /** Splitting at a separator splits the two sides independently. */
  lemma {:induction false} SplitAppend(a: string, c: char, b: string, seps: set<char>)
    requires c in seps
    ensures SplitOn(a + [c] + b, seps) == SplitOn(a, seps) + SplitOn(b, seps)
    decreases |a|
  {
    if a == [] {
      assert a + [c] + b == [c] + b;
      assert ([c] + b)[1..] == b;
    } else {
      assert (a + [c] + b)[0] == a[0];
      assert (a + [c] + b)[1..] == a[1..] + [c] + b;
      SplitAppend(a[1..], c, b, seps);
    }
  }

  /** Joining the pieces of a split gives back the string. */
  lemma {:induction false} JoinSplit(s: string, sep: char)
    ensures Join(SplitOn(s, {sep}), sep) == s
    decreases |s|
  {
    if s != [] {
      JoinSplit(s[1..], sep);
      var rest := SplitOn(s[1..], {sep});
      if s[0] != sep && |rest| > 1 {
        assert Join(rest, sep) == rest[0] + [sep] + Join(rest[1..], sep);
        assert ([s[0]] + rest[0]) + [sep] + Join(rest[1..], sep) == [s[0]] + Join(rest, sep);
      }
      assert [s[0]] + s[1..] == s;
    }
  }

  /** Splitting the join of separator-free pieces gives back the pieces. */
  lemma {:induction false} SplitJoin(pieces: seq<string>, sep: char)
    requires |pieces| >= 1
    requires forall p :: p in pieces ==> Free(p, {sep})
    ensures SplitOn(Join(pieces, sep), {sep}) == pieces
    decreases |pieces|
  {
    SplitFree(pieces[0], {sep});
    if |pieces| > 1 {
      SplitJoin(pieces[1..], sep);
      SplitAppend(pieces[0], sep, Join(pieces[1..], sep), {sep});
      assert [pieces[0]] + pieces[1..] == pieces;
    }
  }

  /**
   * The characters Python's `str.split()` treats as whitespace
   * (`str.isspace()`): the ASCII controls tab to carriage return, the four
   * separator controls, space, next line, no-break space and the Unicode
   * space separators.
   */
  const Whitespace: set<char> := {
    '\t', '\n', '\U{000B}', '\U{000C}', '\r', '\U{001C}', '\U{001D}', '\U{001E}', '\U{001F}', ' ',
    '\U{0085}', '\U{00A0}', '\U{1680}', '\U{2000}', '\U{2001}', '\U{2002}', '\U{2003}', '\U{2004}',
    '\U{2005}', '\U{2006}', '\U{2007}', '\U{2008}', '\U{2009}', '\U{200A}', '\U{2028}', '\U{2029}',
    '\U{202F}', '\U{205F}', '\U{3000}'
  }

  /** The pieces that are not empty, in order. */
  function NonEmpty(pieces: seq<string>): (words: seq<string>)
    ensures forall w :: w in words ==> w != [] && w in pieces
  {
    if pieces == [] then []
    else (if pieces[0] == [] then [] else [pieces[0]]) + NonEmpty(pieces[1..])
  }

  lemma {:induction false} NonEmptyAppend(a: seq<string>, b: seq<string>)
    ensures NonEmpty(a + b) == NonEmpty(a) + NonEmpty(b)
    decreases |a|
  {
    if a == [] {
      assert a + b == b;
    } else {
      assert (a + b)[0] == a[0];
      assert (a + b)[1..] == a[1..] + b;
      NonEmptyAppend(a[1..], b);
    }
  }

  /**
   * Python's `s.split()`: the maximal runs of non-whitespace characters,
   * with no empty words.
   */
  function WordSplit(s: string): (words: seq<string>)
    ensures forall w :: w in words ==> w != [] && Free(w, Whitespace)
  {
    SplitPiecesFree(s, Whitespace);
    NonEmpty(SplitOn(s, Whitespace))
  }

  /** Joining with a space splits word-wise into the words of each side. */
  lemma WordSplitSpace(a: string, b: string)
    ensures WordSplit(a + " " + b) == WordSplit(a) + WordSplit(b)
  {
    assert a + " " + b == a + [' '] + b;
    SplitAppend(a, ' ', b, Whitespace);
    NonEmptyAppend(SplitOn(a, Whitespace), SplitOn(b, Whitespace));
  }

  /** A non-empty string without whitespace is a single word. */
  lemma WordSplitWord(w: string)
    requires w != [] && Free(w, Whitespace)
    ensures WordSplit(w) == [w]
  {
    SplitFree(w, Whitespace);
    assert NonEmpty([w]) == [w] + NonEmpty([]);
  }

  predicate IsDigit(c: char)
  {
    '0' <= c <= '9'
  }

  predicate IsDigits(s: string)
  {
    forall j :: 0 <= j < |s| ==> IsDigit(s[j])
  }

  function DigitValue(c: char): (d: nat)
    requires IsDigit(c)
    ensures d < 10
  {
    c as int - '0' as int
  }

  function DigitChar(d: nat): (c: char)
    requires d < 10
    ensures IsDigit(c) && DigitValue(c) == d
  {
    ('0' as int + d) as char
  }

  /**
   * The value of a decimal digit string, as `int()` reads it; it is zero
   * exactly when every digit is zero.
   */
  function DigitsValue(s: string): (v: nat)
    requires IsDigits(s)
    ensures v == 0 <==> forall j :: 0 <= j < |s| ==> s[j] == '0'
    decreases |s|
  {
    if s == [] then 0
    else
      var front := s[..|s| - 1];
      assert forall j :: 0 <= j < |front| ==> front[j] == s[j];
      DigitsValue(front) * 10 + DigitValue(s[|s| - 1])
  }

  /**
   * The decimal text of `n`, as `str(n)` and `"{}".format(n)` write it:
   * digits only, never empty, and no leading zero.
   */
  function ShowNat(n: nat): (s: string)
    ensures s != [] && IsDigits(s)
    ensures s[0] == '0' ==> n == 0 && s == "0"
  {
    if n < 10 then [DigitChar(n)] else ShowNat(n / 10) + [DigitChar(n % 10)]
  }

  /** Reading back the decimal text of `n` gives `n`. */
  lemma {:induction false} ShowNatValue(n: nat)
    ensures DigitsValue(ShowNat(n)) == n
  {
    if n >= 10 {
      ShowNatValue(n / 10);
      var s := ShowNat(n);
      assert s[..|s| - 1] == ShowNat(n / 10);
    }
  }

  /** Writing out the value of a digit string without leading zeros gives that string back. */
  lemma {:induction false} DigitsValueShowNat(s: string)
    requires s != [] && IsDigits(s)
    requires s[0] != '0' || |s| == 1
    ensures ShowNat(DigitsValue(s)) == s
    decreases |s|
  {
    var d := DigitValue(s[|s| - 1]);
    assert DigitChar(d) == s[|s| - 1];
    if |s| > 1 {
      var front := s[..|s| - 1];
      DigitsValueShowNat(front);
      var v := DigitsValue(front);
      assert front[0] == s[0];
      assert v != 0;
      assert (v * 10 + d) / 10 == v && (v * 10 + d) % 10 == d;
      assert front + [s[|s| - 1]] == s;
    }
  }

  /** A digit string contains no separator from a set that holds no digit. */
  lemma DigitsFree(s: string, seps: set<char>)
    requires IsDigits(s)
    requires forall c :: c in seps ==> !IsDigit(c)
    ensures Free(s, seps)
  {
  }

  lemma FreeAppend(a: string, b: string, seps: set<char>)
    requires Free(a, seps) && Free(b, seps)
    ensures Free(a + b, seps)
  {
    forall j | 0 <= j < |a + b|
      ensures (a + b)[j] !in seps
    {
      if j >= |a| {
        assert (a + b)[j] == b[j - |a|];
      }
    }
  }
}
