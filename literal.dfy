/**
  * The literal decoder `SyntaxProcessor.unescapeLiteral`: the initializer's source text
  * loses its first and last character (the quotes), then every backslash-`n` pair becomes a
  * newline and, in a second pass, every backslash-quote pair becomes a quote. No other
  * escape is translated.
  */
module Literal {
  import opened Wrappers

  const Backslash: char := '\\'

  /** There is a backslash at `i` immediately followed by `second`. */
  predicate EscapeAt(s: string, i: int, second: char)
  {
    0 <= i && i + 1 < |s| && s[i] == Backslash && s[i + 1] == second
  }

  /**
    * `s.replaceAll("\\\\" + second, replacement)` for a fixed two-character pattern: a
    * left-to-right scan that replaces each non-overlapping backslash-`second` pair.
    */
  function ReplaceEscape(s: string, second: char, replacement: char): (r: string)
    ensures |r| <= |s|
  {
    if |s| < 2 then s
    else if s[0] == Backslash && s[1] == second then [replacement] + ReplaceEscape(s[2..], second, replacement)
    else [s[0]] + ReplaceEscape(s[1..], second, replacement)
  }

  /** A pass over a string without a backslash-`second` pair leaves it unchanged. */
  lemma {:induction false} ReplaceEscapeUnchanged(s: string, second: char, replacement: char)
    ensures (forall i :: !EscapeAt(s, i, second)) ==> ReplaceEscape(s, second, replacement) == s
  {
    if |s| >= 2 && forall i :: !EscapeAt(s, i, second) {
      assert !EscapeAt(s, 0, second);
      assert forall i :: EscapeAt(s[1..], i, second) ==> EscapeAt(s, i + 1, second);
      ReplaceEscapeUnchanged(s[1..], second, replacement);
      assert s == [s[0]] + s[1..];
    }
  }

  /**
    * `unescapeLiteral(token)`. `None` stands for the `StringIndexOutOfBoundsException` that
    * `substring(1, length() - 1)` throws on a token shorter than two characters.
    */
  function Unescape(token: string): (r: Option<string>)
    ensures r.None? <==> |token| < 2
    ensures r.Some? ==> |r.value| <= |token| - 2
    ensures r.Some? && Backslash !in token ==> r.value == token[1..|token| - 1]
  {
    if |token| < 2 then None
    else
      var inner := token[1..|token| - 1];
      assert Backslash !in token ==> Backslash !in inner;
      ReplaceEscapeUnchanged(inner, 'n', '\n');
      ReplaceEscapeUnchanged(ReplaceEscape(inner, 'n', '\n'), '"', '"');
      Some(ReplaceEscape(ReplaceEscape(inner, 'n', '\n'), '"', '"'))
  }

  /** Printable ASCII, from space to tilde. */
  predicate IsPrintableAscii(c: char)
  {
    ' ' <= c <= '~'
  }

  /** A lower-case hexadecimal digit. */
  function HexDigit(d: nat): (c: char)
    requires d < 16
    ensures IsPrintableAscii(c) && c != Backslash
  {
    ['0', '1', '2', '3', '4', '5', '6', '7', '8', '9', 'a', 'b', 'c', 'd', 'e', 'f'][d]
  }

  /** `String.format("\\u%04x", u)` for one UTF-16 code unit `u`. */
  function UnicodeEscape(u: nat): (r: string)
    requires u < 0x1_0000
    ensures |r| == 6 && r[0] == Backslash && r[1] == 'u'
    ensures forall i :: 1 <= i < 6 ==> r[i] != Backslash
  {
    [Backslash, 'u', HexDigit(u / 0x1000), HexDigit(u / 0x100 % 16), HexDigit(u / 0x10 % 16), HexDigit(u % 16)]
  }

  /** The UTF-16 code units of `c`: one unit, or a surrogate pair above 0xFFFF. */
  function Utf16(c: char): (r: seq<nat>)
    ensures 1 <= |r| <= 2
    ensures forall i :: 0 <= i < |r| ==> r[i] < 0x1_0000
  {
    var v := c as int;
    if v < 0x1_0000 then [v]
    else [0xD800 + (v - 0x1_0000) / 0x400, 0xDC00 + (v - 0x1_0000) % 0x400]
  }

  /**
    * How javac prints one character of a string constant inside its literal token: the
    * eight characters with a short escape get it, other printable ASCII stays as it is, and
    * every other UTF-16 code unit becomes a `\\u` escape with four lower-case hex digits.
    */
  function QuoteChar(c: char): string
  {
    if c == '\U{8}' then [Backslash, 'b']
    else if c == '\U{C}' then [Backslash, 'f']
    else if c == '\n' then [Backslash, 'n']
    else if c == '\r' then [Backslash, 'r']
    else if c == '\t' then [Backslash, 't']
    else if c == '\'' then [Backslash, '\'']
    else if c == '"' then [Backslash, '"']
    else if c == Backslash then [Backslash, Backslash]
    else if IsPrintableAscii(c) then [c]
    else
      var units := Utf16(c);
      UnicodeEscape(units[0]) + if |units| == 2 then UnicodeEscape(units[1]) else []
  }

  /** The body of the literal token javac prints for the value `v`, without the quotes. */
  function QuoteChars(v: string): string
  {
    if v == [] then [] else QuoteChar(v[0]) + QuoteChars(v[1..])
  }

  /**
    * The literal token the compiler prints for a string constant `v` (javac's
    * `Convert.quote` between two quotes): an assumption about the compiler, which is not
    * part of this repository.
    */
  function Quote(v: string): (r: string)
    ensures 2 <= |r| && r[0] == '"' && r[|r| - 1] == '"'
  {
    ['"'] + QuoteChars(v) + ['"']
  }

  /**
    * The characters the decoder gives back: a newline, and printable ASCII other than the
    * backslash and the apostrophe (whose escapes it leaves alone).
    */
  predicate Restored(c: char)
  {
    c == '\n' || (IsPrintableAscii(c) && c != Backslash && c != '\'')
  }

  /** `v` with every quote written as backslash-quote: what remains after the first pass. */
  function EscapeQuotes(v: string): string
  {
    if v == [] then []
    else (if v[0] == '"' then [Backslash, '"'] else [v[0]]) + EscapeQuotes(v[1..])
  }

  /** How javac prints a `Restored` character: a newline or a quote escaped, the rest as it is. */
  lemma QuoteRestored(c: char)
    requires Restored(c)
    ensures QuoteChar(c) == if c == '\n' then [Backslash, 'n'] else if c == '"' then [Backslash, '"'] else [c]
  {
  }

  /** The first pass (backslash-`n`) turns the printed token body back into `EscapeQuotes(v)`. */
  lemma {:induction false} NewlinePassInvertsQuote(v: string)
    requires forall i :: 0 <= i < |v| ==> Restored(v[i])
    ensures ReplaceEscape(QuoteChars(v), 'n', '\n') == EscapeQuotes(v)
  {
    if v != [] {
      var c, tail := v[0], v[1..];
      var rest := QuoteChars(tail);
      assert forall i :: 0 <= i < |tail| ==> tail[i] == v[i + 1];
      NewlinePassInvertsQuote(tail);
      assert Restored(c);
      QuoteRestored(c);
      assert QuoteChars(v) == QuoteChar(c) + rest;
      assert EscapeQuotes(v) == (if c == '"' then [Backslash, '"'] else [c]) + EscapeQuotes(tail);
      if c == '\n' {
        PairStep(rest, 'n', '\n');
      } else if c == '"' {
        EscapedQuoteStep(rest);
      } else {
        CopyStep(c, rest, 'n', '\n');
      }
    }
  }

  /** A pass turns a leading backslash-`second` pair into `replacement`. */
  lemma PairStep(rest: string, second: char, replacement: char)
    ensures ReplaceEscape([Backslash, second] + rest, second, replacement)
            == [replacement] + ReplaceEscape(rest, second, replacement)
  {
    var s := [Backslash, second] + rest;
    assert s[2..] == rest;
  }

  /** The first pass keeps a leading backslash-quote. */
  lemma EscapedQuoteStep(rest: string)
    ensures ReplaceEscape([Backslash, '"'] + rest, 'n', '\n') == [Backslash, '"'] + ReplaceEscape(rest, 'n', '\n')
  {
    var s := [Backslash, '"'] + rest;
    assert s[1..] == ['"'] + rest;
    CopyStep('"', rest, 'n', '\n');
  }

  /** A pass copies a leading character that is not a backslash. */
  lemma CopyStep(c: char, rest: string, second: char, replacement: char)
    requires c != Backslash
    ensures ReplaceEscape([c] + rest, second, replacement) == [c] + ReplaceEscape(rest, second, replacement)
  {
    if rest != [] {
      assert ([c] + rest)[1..] == rest;
    }
  }

  /** The second pass (backslash-quote) turns `EscapeQuotes(v)` back into `v`. */
  lemma {:induction false} QuotePassInvertsEscape(v: string)
    requires Backslash !in v
    ensures ReplaceEscape(EscapeQuotes(v), '"', '"') == v
  {
    if v != [] {
      var c, rest := v[0], EscapeQuotes(v[1..]);
      assert Backslash !in v[1..];
      QuotePassInvertsEscape(v[1..]);
      if c == '"' {
        assert ([Backslash, '"'] + rest)[2..] == rest;
      } else {
        assert c != Backslash;
        CopyStep(c, rest, '"', '"');
      }
      assert v == [c] + v[1..];
    }
  }

  /**
    * Decoding inverts the compiler's printing for every value made of newlines and printable
    * ASCII other than backslash and apostrophe: the validator then sees exactly the string
    * the programmer wrote.
    */
  lemma {:induction false} UnescapeQuoteRoundTrip(v: string)
    requires forall i :: 0 <= i < |v| ==> Restored(v[i])
    ensures Unescape(Quote(v)) == Some(v)
  {
    var token := Quote(v);
    assert token[1..|token| - 1] == QuoteChars(v);
    NewlinePassInvertsQuote(v);
    assert Backslash !in v by {
      forall i | 0 <= i < |v| ensures v[i] != Backslash {
        assert Restored(v[i]);
      }
    }
    QuotePassInvertsEscape(v);
  }

  /**
    * The known limitation: the value backslash-`n` (written `"\\n"` in Java) is printed with
    * an escaped backslash, and the decoder turns its second backslash and the `n` into a
    * newline, so the validator sees a backslash followed by a newline.
    */
  lemma EscapedBackslashIsMisdecoded()
    ensures Quote([Backslash, 'n']) == ['"', Backslash, Backslash, 'n', '"']
    ensures Unescape(Quote([Backslash, 'n'])) == Some([Backslash, '\n'])
  {
    var token := Quote([Backslash, 'n']);
    assert QuoteChars([Backslash, 'n']) == [Backslash, Backslash] + QuoteChars(['n']);
    assert QuoteChars(['n']) == ['n'] + QuoteChars([]);
    var inner := token[1..|token| - 1];
    assert inner == [Backslash, Backslash, 'n'];
    assert inner[1..] == [Backslash, 'n'];
    assert ReplaceEscape(inner, 'n', '\n') == [Backslash, '\n'];
    assert ReplaceEscape([Backslash, '\n'], '"', '"') == [Backslash] + ReplaceEscape(['\n'], '"', '"');
  }

  /**
    * Each `replaceAll` pass does replace: the first backslash-`second` pair, after a prefix
    * without backslashes, becomes `replacement`, and the pass goes on after the pair.
    */
  lemma {:induction false} ReplaceEscapeReplaces(a: string, second: char, replacement: char, b: string)
    requires Backslash !in a
    ensures ReplaceEscape(a + [Backslash, second] + b, second, replacement)
            == a + [replacement] + ReplaceEscape(b, second, replacement)
  {
    if a == [] {
      var s := [Backslash, second] + b;
      assert a + [Backslash, second] + b == s;
      assert s[2..] == b;
    } else {
      var rest := a[1..] + [Backslash, second] + b;
      assert a + [Backslash, second] + b == [a[0]] + rest;
      assert a[0] in a;
      assert Backslash !in a[1..];
      CopyStep(a[0], rest, second, Backslash);
      CopyStep(a[0], rest, second, replacement);
      ReplaceEscapeReplaces(a[1..], second, replacement, b);
      assert a == [a[0]] + a[1..];
    }
  }

  /**
    * What the decoder makes of a one-character value: a newline or a quote comes back, and
    * every other escape javac prints (backspace, form feed, carriage return, tab,
    * apostrophe, backslash, `\\u` escapes) passes through as it was printed. Exactly the
    * `Restored` characters round-trip.
    */
  lemma SingleCharacterDecoding(c: char)
    ensures Unescape(Quote([c])) == Some(if c == '\n' || c == '"' then [c] else QuoteChar(c))
    ensures Unescape(Quote([c])) == Some([c]) <==> Restored(c)
  {
    var body := QuoteChar(c);
    assert QuoteChars([c]) == body + QuoteChars([]);
    var token := Quote([c]);
    assert token[1..|token| - 1] == body;
    if c == '\n' {
      assert body == [Backslash, 'n'];
      assert body[2..] == [];
      assert ReplaceEscape(body, 'n', '\n') == ['\n'] + ReplaceEscape([], 'n', '\n');
      assert ReplaceEscape([], 'n', '\n') == [];
      assert ReplaceEscape(body, 'n', '\n') == ['\n'];
      assert ReplaceEscape(['\n'], '"', '"') == ['\n'];
    } else if c == '"' {
      assert body == [Backslash, '"'] && body[1..] == ['"'];
      assert ReplaceEscape(body, 'n', '\n') == [Backslash] + ReplaceEscape(['"'], 'n', '\n');
      assert ReplaceEscape(body, 'n', '\n') == body;
      assert body[2..] == [];
      assert ReplaceEscape(body, '"', '"') == ['"'] + ReplaceEscape([], '"', '"');
      assert ReplaceEscape(body, '"', '"') == ['"'];
    } else {
      assert forall i :: !EscapeAt(body, i, 'n') && !EscapeAt(body, i, '"') by {
        if !IsPrintableAscii(c) && c != '\U{8}' && c != '\U{C}' && c != '\r' && c != '\t' {
          var units := Utf16(c);
          var first := UnicodeEscape(units[0]);
          assert body[..6] == first;
          forall i | 0 <= i < |body| && body[i] == Backslash
            ensures i + 1 < |body| && body[i + 1] == 'u'
          {
            if i >= 6 {
              assert |units| == 2;
              var second := UnicodeEscape(units[1]);
              assert body[6..] == second;
              assert body[i] == second[i - 6];
            } else {
              assert body[i] == first[i];
            }
          }
        }
      }
      ReplaceEscapeUnchanged(body, 'n', '\n');
      ReplaceEscapeUnchanged(body, '"', '"');
      assert ReplaceEscape(ReplaceEscape(body, 'n', '\n'), '"', '"') == body;
      if Restored(c) {
        assert body == [c];
      } else {
        assert |body| >= 2;
      }
    }
  }

  /** A tab, printed as backslash-`t`, reaches the validator as backslash-`t`. */
  lemma TabIsMisdecoded()
    ensures Unescape(Quote(['\t'])) == Some([Backslash, 't'])
  {
    SingleCharacterDecoding('\t');
  }

  /** A non-ASCII letter, printed as a `\\u` escape, reaches the validator as that escape. */
  lemma NonAsciiIsMisdecoded()
    ensures Unescape(Quote(['\U{E9}'])) == Some([Backslash, 'u', '0', '0', 'e', '9'])
  {
    var c := '\U{E9}';
    assert Utf16(c) == [0xE9];
    var body := UnicodeEscape(0xE9);
    assert body == [Backslash, 'u', '0', '0', 'e', '9'];
    assert QuoteChar(c) == body + [];
    assert QuoteChars([c]) == body + QuoteChars([]);
    var token := Quote([c]);
    assert token[1..|token| - 1] == body;
    assert forall i :: !EscapeAt(body, i, 'n') && !EscapeAt(body, i, '"');
    ReplaceEscapeUnchanged(body, 'n', '\n');
    ReplaceEscapeUnchanged(body, '"', '"');
  }

  /**
    * What the decoder makes of one character `c` of a backslash-free value: a newline or a
    * quote comes back as itself, every other character as javac printed it.
    */
  function DecodedChar(c: char): string
  {
    if c == '\n' || c == '"' then [c] else QuoteChar(c)
  }

  /** What the decoder makes of a backslash-free value, character by character. */
  function DecodedChars(v: string): string
  {
    if v == [] then [] else DecodedChar(v[0]) + DecodedChars(v[1..])
  }

  /** What remains of one printed character after the first pass. */
  function NewlinePassChar(c: char): string
  {
    if c == '\n' then ['\n'] else QuoteChar(c)
  }

  /** What remains of the printed body of `v` after the first pass. */
  function NewlinePassChars(v: string): string
  {
    if v == [] then [] else NewlinePassChar(v[0]) + NewlinePassChars(v[1..])
  }

  /**
    * Where javac's printing of a character other than the backslash holds a backslash:
    * a backslash-`n` pair only for the newline, a backslash-quote pair only for the quote,
    * and never a backslash at the end.
    */
  lemma QuoteCharBackslashes(c: char)
    requires c != Backslash
    ensures QuoteChar(c) != [] && QuoteChar(c)[|QuoteChar(c)| - 1] != Backslash
    ensures forall i :: EscapeAt(QuoteChar(c), i, 'n') ==> c == '\n'
    ensures forall i :: EscapeAt(QuoteChar(c), i, '"') ==> c == '"'
  {
    var body := QuoteChar(c);
    if !IsPrintableAscii(c) && c != '\U{8}' && c != '\U{C}' && c != '\n' && c != '\r' && c != '\t' {
      var units := Utf16(c);
      var first := UnicodeEscape(units[0]);
      assert body[..6] == first;
      forall i | 0 <= i < |body| && body[i] == Backslash
        ensures i + 1 < |body| && body[i + 1] == 'u'
      {
        if i >= 6 {
          assert |units| == 2;
          var second := UnicodeEscape(units[1]);
          assert body[6..] == second;
          assert body[i] == second[i - 6];
        } else {
          assert body[i] == first[i];
        }
      }
    }
  }

  /**
    * A pass copies a leading piece that holds no backslash-`second` pair and does not end
    * in a backslash.
    */
  lemma {:induction false} PassThrough(p: string, rest: string, second: char, replacement: char)
    requires forall i :: !EscapeAt(p, i, second)
    requires p != [] ==> p[|p| - 1] != Backslash
    ensures ReplaceEscape(p + rest, second, replacement) == p + ReplaceEscape(rest, second, replacement)
  {
    if p == [] {
      assert p + rest == rest;
    } else {
      var tail := p[1..];
      PassThroughHead(p, rest, second, replacement);
      assert forall i :: EscapeAt(tail, i, second) ==> EscapeAt(p, i + 1, second);
      assert tail != [] ==> tail[|tail| - 1] == p[|p| - 1];
      PassThrough(tail, rest, second, replacement);
      assert p == [p[0]] + tail;
    }
  }

  /** A pass copies the first character of such a piece. */
  lemma PassThroughHead(p: string, rest: string, second: char, replacement: char)
    requires p != [] && !EscapeAt(p, 0, second) && p[|p| - 1] != Backslash
    ensures ReplaceEscape(p + rest, second, replacement)
            == [p[0]] + ReplaceEscape(p[1..] + rest, second, replacement)
  {
    var tail := p[1..];
    assert p + rest == [p[0]] + (tail + rest);
    if p[0] == Backslash {
      assert tail + rest == [tail[0]] + (tail[1..] + rest);
      LoneBackslashStep(tail[0], tail[1..] + rest, second, replacement);
    } else {
      CopyStep(p[0], tail + rest, second, replacement);
    }
  }

  /** A pass copies a leading backslash that is not followed by `second`. */
  lemma LoneBackslashStep(x: char, rest: string, second: char, replacement: char)
    requires x != second
    ensures ReplaceEscape([Backslash] + ([x] + rest), second, replacement)
            == [Backslash] + ReplaceEscape([x] + rest, second, replacement)
  {
    assert ([Backslash] + ([x] + rest))[1..] == [x] + rest;
  }

  /** The first pass over the printed body of a backslash-free value. */
  lemma {:induction false} NewlinePassOfQuoted(v: string)
    requires Backslash !in v
    ensures ReplaceEscape(QuoteChars(v), 'n', '\n') == NewlinePassChars(v)
  {
    if v != [] {
      var c, tail := v[0], v[1..];
      var rest := QuoteChars(tail);
      assert c in v && Backslash !in tail;
      NewlinePassOfQuoted(tail);
      if c == '\n' {
        PairStep(rest, 'n', '\n');
      } else {
        QuoteCharBackslashes(c);
        PassThrough(QuoteChar(c), rest, 'n', '\n');
      }
    }
  }

  /** The second pass over what the first pass left. */
  lemma {:induction false} QuotePassOfNewlinePass(v: string)
    requires Backslash !in v
    ensures ReplaceEscape(NewlinePassChars(v), '"', '"') == DecodedChars(v)
  {
    if v != [] {
      var c, tail := v[0], v[1..];
      var rest := NewlinePassChars(tail);
      assert c in v && Backslash !in tail;
      QuotePassOfNewlinePass(tail);
      if c == '"' {
        PairStep(rest, '"', '"');
      } else if c == '\n' {
        CopyStep(c, rest, '"', '"');
      } else {
        QuoteCharBackslashes(c);
        PassThrough(QuoteChar(c), rest, '"', '"');
      }
    }
  }

  /**
    * What the validator receives for any backslash-free value: every newline and quote is
    * restored, and every other character arrives exactly as javac printed it.
    */
  lemma QuotedValueDecoding(v: string)
    requires Backslash !in v
    ensures Unescape(Quote(v)) == Some(DecodedChars(v))
  {
    var token := Quote(v);
    assert token[1..|token| - 1] == QuoteChars(v);
    NewlinePassOfQuoted(v);
    QuotePassOfNewlinePass(v);
  }
}
