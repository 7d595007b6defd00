/**
  * `SyntaxTreeTraverser.addLineNumbers`: the decoded value is split into lines with Java's
  * `String.split("\n")`, and each line is written as `String.format("%3d: %s\n", i + 1, line)`.
  */
module LineNumbers {

  const Newline: char := '\n'

  // ---------------------------------------------------------------------------------------
  // Decimal numbers, as `%d` writes them

  function DigitChar(d: nat): (c: char)
    requires d < 10
    ensures '0' <= c <= '9'
  {
    ['0', '1', '2', '3', '4', '5', '6', '7', '8', '9'][d]
  }

  predicate IsDigit(c: char)
  {
    '0' <= c <= '9'
  }

  /** The decimal digits of `n`, most significant first, without leading zeros. */
  function Digits(n: nat): (r: string)
    ensures 1 <= |r|
    ensures forall i :: 0 <= i < |r| ==> IsDigit(r[i])
    ensures n < 10 <==> |r| == 1
    ensures n < 100 ==> |r| <= 2
    ensures n < 1000 ==> |r| <= 3
    ensures n > 0 ==> r[0] != '0'
  {
    if n < 10 then [DigitChar(n)] else Digits(n / 10) + [DigitChar(n % 10)]
  }

  /** The number a string of decimal digits denotes. */
  function DigitsValue(s: string): nat
    requires forall i :: 0 <= i < |s| ==> IsDigit(s[i])
  {
    if s == [] then 0
    else
      assert IsDigit(s[|s| - 1]);
      var d := s[|s| - 1] as int - '0' as int;
      assert 0 <= d;
      DigitsValue(s[..|s| - 1]) * 10 + d
  }

  /** `Digits` writes `n` and nothing else: reading the digits back gives `n`. */
  lemma {:induction false} DigitsRoundTrip(n: nat)
    ensures DigitsValue(Digits(n)) == n
  {
    var r := Digits(n);
    if n < 10 {
      assert r[..0] == [];
    } else {
      DigitsRoundTrip(n / 10);
      assert r[..|r| - 1] == Digits(n / 10);
    }
  }

  function Spaces(k: nat): (r: string)
    ensures |r| == k && forall i :: 0 <= i < k ==> r[i] == ' '
  {
    if k == 0 then [] else [' '] + Spaces(k - 1)
  }

  /** `%3d`: the number right-aligned in a field of width three, never truncated. */
  function Pad3(n: nat): (r: string)
    ensures 3 <= |r|
    ensures Newline !in r
  {
    var d := Digits(n);
    var r := Spaces(if |d| < 3 then 3 - |d| else 0) + d;
    assert forall i :: 0 <= i < |r| ==> r[i] == ' ' || IsDigit(r[i]);
    r
  }

  /**
    * `Pad3(n)` is the decimal writing of `n` preceded by just enough spaces to fill three
    * columns: exactly three characters below 1000, the bare digits from 1000 on.
    */
  lemma Pad3Aligned(n: nat)
    ensures |Pad3(n)| == if |Digits(n)| < 3 then 3 else |Digits(n)|
    ensures n < 1000 ==> |Pad3(n)| == 3
    ensures Pad3(n)[|Pad3(n)| - |Digits(n)|..] == Digits(n)
    ensures forall i :: 0 <= i < |Pad3(n)| - |Digits(n)| ==> Pad3(n)[i] == ' '
  {
  }

  // ---------------------------------------------------------------------------------------
  // Java's String.split("\n")

  /** Every piece between newlines, empty pieces included: one more piece than newlines. */
  function RawSplit(s: string): (r: seq<string>)
    ensures |r| >= 1
    ensures forall k :: 0 <= k < |r| ==> Newline !in r[k]
  {
    if s == [] then [[]]
    else if s[0] == Newline then [[]] + RawSplit(s[1..])
    else
      var rest := RawSplit(s[1..]);
      [[s[0]] + rest[0]] + rest[1..]
  }

  /** The pieces glued back together with a newline between each two. */
  function Join(pieces: seq<string>): string
  {
    if pieces == [] then []
    else if |pieces| == 1 then pieces[0]
    else pieces[0] + [Newline] + Join(pieces[1..])
  }

  lemma {:induction false} RawSplitJoin(s: string)
    ensures Join(RawSplit(s)) == s
  {
    if s != [] {
      RawSplitJoin(s[1..]);
      var rest := RawSplit(s[1..]);
      if s[0] == Newline {
        assert [[]] + rest == [[]] + rest;
        assert ([[]] + rest)[1..] == rest;
      } else {
        var r := [[s[0]] + rest[0]] + rest[1..];
        if |rest| == 1 {
          assert r == [[s[0]] + rest[0]];
        } else {
          assert r[1..] == rest[1..];
          assert Join(rest) == rest[0] + [Newline] + Join(rest[1..]);
        }
      }
    }
  }

  /** A piece without newline followed by a newline ends the first piece of the split. */
  lemma {:induction false} RawSplitLine(q: string, rest: string)
    requires Newline !in q
    ensures RawSplit(q + [Newline] + rest) == [q] + RawSplit(rest)
  {
    if q == [] {
      assert ([] + [Newline] + rest)[1..] == rest;
    } else {
      var s := q + [Newline] + rest;
      assert s[1..] == q[1..] + [Newline] + rest;
      RawSplitLine(q[1..], rest);
      assert [q[0]] + q[1..] == q;
    }
  }

  /** Java's `split` with limit 0 drops every trailing empty piece. */
  function DropTrailingEmpty(pieces: seq<string>): (r: seq<string>)
    ensures |r| <= |pieces| && r == pieces[..|r|]
    ensures r != [] ==> r[|r| - 1] != []
    ensures (forall k :: 0 <= k < |pieces| ==> pieces[k] == []) <==> r == []
    ensures forall k :: |r| <= k < |pieces| ==> pieces[k] == []
  {
    if pieces == [] then []
    else if pieces[|pieces| - 1] == [] then
      var init := pieces[..|pieces| - 1];
      assert forall k :: 0 <= k < |init| ==> init[k] == pieces[k];
      DropTrailingEmpty(init)
    else pieces
  }

  /**
    * `s.split("\n")`: a string without newline is its own single piece (the empty string
    * included); otherwise the pieces between newlines, trailing empty pieces dropped.
    */
  function SplitLines(s: string): (r: seq<string>)
    ensures forall k :: 0 <= k < |r| ==> Newline !in r[k]
  {
    if Newline !in s then [s] else DropTrailingEmpty(RawSplit(s))
  }

  function StripTrailingNewlines(s: string): string
  {
    if s != [] && s[|s| - 1] == Newline then StripTrailingNewlines(s[..|s| - 1]) else s
  }

  lemma {:induction false} JoinSnoc(pieces: seq<string>, last: string)
    requires pieces != []
    ensures Join(pieces + [last]) == Join(pieces) + [Newline] + last
  {
    if |pieces| == 1 {
      assert (pieces + [last])[1..] == [last];
    } else {
      assert (pieces + [last])[1..] == pieces[1..] + [last];
      JoinSnoc(pieces[1..], last);
    }
  }

  lemma {:induction false} JoinEndsWithLast(pieces: seq<string>)
    requires pieces != []
    requires pieces[|pieces| - 1] != []
    ensures Join(pieces) != []
    ensures Join(pieces)[|Join(pieces)| - 1] == pieces[|pieces| - 1][|pieces[|pieces| - 1]| - 1]
  {
    if |pieces| > 1 {
      var init := pieces[..|pieces| - 1];
      assert init + [pieces[|pieces| - 1]] == pieces;
      JoinSnoc(init, pieces[|pieces| - 1]);
    }
  }

  lemma {:induction false} DropTrailingEmptyJoin(pieces: seq<string>)
    requires forall k :: 0 <= k < |pieces| ==> Newline !in pieces[k]
    ensures Join(DropTrailingEmpty(pieces)) == StripTrailingNewlines(Join(pieces))
  {
    if pieces == [] {
    } else if pieces[|pieces| - 1] == [] {
      var init := pieces[..|pieces| - 1];
      if init == [] {
        assert Join(pieces) == [];
      } else {
        assert init + [[]] == pieces;
        JoinSnoc(init, []);
        var j := Join(init) + [Newline];
        assert Join(pieces) == j;
        assert j[..|j| - 1] == Join(init);
        assert StripTrailingNewlines(j) == StripTrailingNewlines(Join(init));
        assert DropTrailingEmpty(pieces) == DropTrailingEmpty(init);
        DropTrailingEmptyJoin(init);
      }
    } else {
      JoinEndsWithLast(pieces);
      var last := pieces[|pieces| - 1];
      assert Newline !in last;
      assert last[|last| - 1] in last;
      var j := Join(pieces);
      assert j[|j| - 1] != Newline;
      assert StripTrailingNewlines(j) == j;
    }
  }

  /**
    * What `split` keeps: gluing its pieces back with newlines gives the input without its
    * trailing newlines, and no piece contains a newline.
    */
  lemma SplitLinesJoin(s: string)
    ensures Join(SplitLines(s)) == StripTrailingNewlines(s)
    ensures forall k :: 0 <= k < |SplitLines(s)| ==> Newline !in SplitLines(s)[k]
  {
    if Newline !in s {
      if s != [] {
        assert s[|s| - 1] in s;
      }
    } else {
      RawSplitJoin(s);
      DropTrailingEmptyJoin(RawSplit(s));
    }
  }

  predicate OnlyNewlines(s: string)
  {
    forall i :: 0 <= i < |s| ==> s[i] == Newline
  }

  lemma {:induction false} StripEmpty(s: string)
    ensures StripTrailingNewlines(s) == [] <==> OnlyNewlines(s)
  {
    if s != [] && s[|s| - 1] == Newline {
      StripEmpty(s[..|s| - 1]);
      assert OnlyNewlines(s[..|s| - 1]) <==> OnlyNewlines(s);
    } else if s != [] {
      assert !OnlyNewlines(s);
    }
  }

  /** The one case in which `split` yields no piece at all: a non-empty run of newlines. */
  lemma SplitLinesEmpty(s: string)
    ensures SplitLines(s) == [] <==> s != [] && OnlyNewlines(s)
    ensures s == [] ==> SplitLines(s) == [[]]
  {
    SplitLinesJoin(s);
    StripEmpty(s);
    if s != [] && OnlyNewlines(s) {
      assert s[0] == Newline;
      var r := SplitLines(s);
      if r != [] {
        assert r[|r| - 1] != [];
        JoinEndsWithLast(r);
      }
    }
  }

  // ---------------------------------------------------------------------------------------
  // addLineNumbers

  /**
    * `String.format("%3d: %s\n", n, piece)`: one output line, ended by its only newline when
    * the piece has none, and at least six characters longer than the piece.
    */
  function NumberedLine(n: nat, piece: string): (r: string)
    ensures |piece| + 6 <= |r| && r[|r| - 1] == Newline
    ensures Newline !in piece ==> Newline !in r[..|r| - 1]
  {
    assert Newline !in Pad3(n);
    Pad3(n) + ": " + piece + [Newline]
  }

  /** The pieces, numbered from `first` on, joined with no separator (`Collectors.joining()`). */
  function Numbered(pieces: seq<string>, first: nat): string
  {
    if pieces == [] then [] else NumberedLine(first, pieces[0]) + Numbered(pieces[1..], first + 1)
  }

  /**
    * `addLineNumbers(s)`. The output is empty exactly when the input is a non-empty run of
    * newlines, and otherwise ends in a newline.
    */
  function AddLineNumbers(s: string): (r: string)
    ensures r == [] <==> s != [] && OnlyNewlines(s)
    ensures r != [] ==> r[|r| - 1] == Newline
  {
    SplitLinesEmpty(s);
    NumberedEnd(SplitLines(s), 1);
    Numbered(SplitLines(s), 1)
  }

  /** Numbered lines are empty only for no pieces, and otherwise end in a newline. */
  lemma {:induction false} NumberedEnd(pieces: seq<string>, first: nat)
    ensures Numbered(pieces, first) == [] <==> pieces == []
    ensures pieces != [] ==> Numbered(pieces, first)[|Numbered(pieces, first)| - 1] == Newline
  {
    if pieces != [] {
      NumberedEnd(pieces[1..], first + 1);
      var line, rest := NumberedLine(first, pieces[0]), Numbered(pieces[1..], first + 1);
      assert Numbered(pieces, first) == line + rest;
      if rest == [] {
        assert line + rest == line;
      } else {
        assert (line + rest)[|line + rest| - 1] == rest[|rest| - 1];
      }
    }
  }

  /** The text of line `k` (counted from 0) of the output: its number, a colon, the piece. */
  function Label(pieces: seq<string>, first: nat, k: nat): string
    requires k < |pieces|
  {
    Pad3(first + k) + ": " + pieces[k]
  }

  lemma {:induction false} NumberedSplit(pieces: seq<string>, first: nat)
    requires forall k :: 0 <= k < |pieces| ==> Newline !in pieces[k]
    ensures |RawSplit(Numbered(pieces, first))| == |pieces| + 1
    ensures forall k :: 0 <= k < |pieces| ==> RawSplit(Numbered(pieces, first))[k] == Label(pieces, first, k)
    ensures RawSplit(Numbered(pieces, first))[|pieces|] == []
  {
    if pieces != [] {
      var q := Pad3(first) + ": " + pieces[0];
      assert Newline !in q;
      var rest := Numbered(pieces[1..], first + 1);
      assert Numbered(pieces, first) == q + [Newline] + rest;
      RawSplitLine(q, rest);
      NumberedSplit(pieces[1..], first + 1);
      forall k | 1 <= k < |pieces|
        ensures RawSplit(Numbered(pieces, first))[k] == Label(pieces, first, k)
      {
        LabelShift(pieces, first, k);
      }
    }
  }

  /** Line `k` of a numbering is line `k - 1` of the numbering of the remaining pieces. */
  lemma LabelShift(pieces: seq<string>, first: nat, k: nat)
    requires 1 <= k < |pieces|
    ensures Label(pieces[1..], first + 1, k - 1) == Label(pieces, first, k)
  {
    assert pieces[1..][k - 1] == pieces[k];
  }

  /**
    * The output, cut at its newlines, is exactly the numbered input lines: line `k` is the
    * number `k + 1` right-aligned to width 3, `": "`, and the `k`-th piece of the split; every
    * line ends in a newline and nothing follows the last one.
    */
  lemma AddLineNumbersLines(s: string)
    ensures |RawSplit(AddLineNumbers(s))| == |SplitLines(s)| + 1
    ensures forall k :: 0 <= k < |SplitLines(s)| ==>
              RawSplit(AddLineNumbers(s))[k] == Pad3(k + 1) + ": " + SplitLines(s)[k]
    ensures RawSplit(AddLineNumbers(s))[|SplitLines(s)|] == []
  {
    NumberedSplit(SplitLines(s), 1);
  }

  /** Occurrences of the newline character. */
  function NewlineCount(s: string): nat
  {
    if s == [] then 0 else (if s[0] == Newline then 1 else 0) + NewlineCount(s[1..])
  }

  lemma {:induction false} RawSplitLength(s: string)
    ensures |RawSplit(s)| == NewlineCount(s) + 1
  {
    if s != [] {
      RawSplitLength(s[1..]);
    }
  }

  /** One newline per line of the input. */
  lemma AddLineNumbersNewlines(s: string)
    ensures NewlineCount(AddLineNumbers(s)) == |SplitLines(s)|
  {
    AddLineNumbersLines(s);
    RawSplitLength(AddLineNumbers(s));
  }

  /** An empty value still gets one numbered, empty line. */
  lemma AddLineNumbersOfEmpty()
    ensures AddLineNumbers([]) == "  1: \n"
  {
    SplitLinesEmpty([]);
    assert Digits(1) == "1";
    assert Pad3(1) == "  1";
  }
}
