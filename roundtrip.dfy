/** `write_string` of src/writer.cpp read back by `read_string` of
    src/tokenizer.cpp: a written string token reads back as the bytes it was
    written from, unless `char` is signed and the string holds a byte 0x80..0xFF. */
module StringRoundTrip {
  import opened Bytes
  import opened Errors
  import opened Unicode
  import opened Writing
  import Lexer
  import Ast

  /** Whether byte `c` survives the trip: always for an unsigned `char`, only
      below 0x80 for a signed one. */
  predicate ByteRoundTrips(c: Byte, sign: Signedness) {
    sign == UnsignedChar || c < 0x80
  }

  predicate RoundTrips(x: seq<Byte>, sign: Signedness) {
    forall k | 0 <= k < |x| :: ByteRoundTrips(x[k], sign)
  }

  /** Whether writing `x` escapes some byte, and so puts a backslash in the text. */
  predicate Lengthens(x: seq<Byte>, sign: Signedness) {
    x != [] && (|EscapeByte(x[0], sign)| > 1 || Lengthens(x[1..], sign))
  }

  /** The bytes `u + v` at `a..b` are `u` at `a` followed by `v` up to `b`. */
  lemma SplitSlice(s: seq<Byte>, a: nat, b: nat, u: seq<Byte>, v: seq<Byte>)
    requires a <= b <= |s| && s[a..b] == u + v
    ensures a + |u| <= b && s[a..a + |u|] == u && s[a + |u|..b] == v
  {
    assert s[a..a + |u|] == s[a..b][..|u|];
    assert s[a + |u|..b] == s[a..b][|u|..];
  }

  // ---------------------------------------------------------------------------
  // Pass 1: scanning for the closing quote

  /** Pass 1 steps over the escape of one byte; it has seen a backslash exactly
      when the escape is longer than the byte. */
  lemma ScanByte(s: seq<Byte>, start: nat, a: nat, escapes: bool, c: Byte, sign: Signedness)
    requires a + |EscapeByte(c, sign)| <= |s| && s[a..a + |EscapeByte(c, sign)|] == EscapeByte(c, sign)
    ensures Lexer.Scan(s, start, a, escapes)
      == Lexer.Scan(s, start, a + |EscapeByte(c, sign)|, escapes || |EscapeByte(c, sign)| > 1)
  {
    var e := EscapeByte(c, sign);
    EscapeByteCases(c, sign);
    assert s[a] == e[0];
    if |e| == 6 {
      assert s[a + 2] == ZERO && s[a + 3] == ZERO && IsHexDigit(s[a + 4]) && IsHexDigit(s[a + 5]) by {
        assert e == UnicodeEscapeOf(c);
        assert forall k | 0 <= k < 6 :: s[a + k] == e[k];
      }
      assert Lexer.Scan(s, start, a, escapes) == Lexer.Scan(s, start, a + 2, true);
      assert Lexer.Scan(s, start, a + 2, true) == Lexer.Scan(s, start, a + 4, true);
      assert Lexer.Scan(s, start, a + 4, true) == Lexer.Scan(s, start, a + 6, true);
    } else if |e| == 2 {
      assert e == ShortEscape(c);
    }
  }

  /** Pass 1 steps over the escaped bytes `s[a..b]` of `x`; it has seen a
      backslash when some byte of `x` was escaped. */
  lemma {:induction false} ScanEscaped(s: seq<Byte>, start: nat, a: nat, b: nat, escapes: bool, x: seq<Byte>, sign: Signedness)
    requires a <= b <= |s| && s[a..b] == Escaped(x, sign)
    ensures Lexer.Scan(s, start, a, escapes) == Lexer.Scan(s, start, b, escapes || Lengthens(x, sign))
    decreases |x|
  {
    if x != [] {
      var n := ScanFirst(s, start, a, b, escapes, x, sign);
      ScanEscaped(s, start, a + n, b, escapes || n > 1, x[1..], sign);
    }
  }

  /** The escape of the first byte of `x` at `a`, and where the rest starts. */
  lemma ScanFirst(s: seq<Byte>, start: nat, a: nat, b: nat, escapes: bool, x: seq<Byte>, sign: Signedness) returns (n: nat)
    requires x != [] && a <= b <= |s| && s[a..b] == Escaped(x, sign)
    ensures n == |EscapeByte(x[0], sign)| && a + n <= b && s[a + n..b] == Escaped(x[1..], sign)
    ensures Lexer.Scan(s, start, a, escapes) == Lexer.Scan(s, start, a + n, escapes || n > 1)
    ensures Lengthens(x, sign) == (n > 1 || Lengthens(x[1..], sign))
  {
    var e := EscapeByte(x[0], sign);
    EscapedFirst(x, sign);
    SplitSlice(s, a, b, e, Escaped(x[1..], sign));
    ScanByte(s, start, a, escapes, x[0], sign);
    n := |e|;
  }

  /** The escaped bytes of `x` start with the escape of its first byte. */
  lemma EscapedFirst(x: seq<Byte>, sign: Signedness)
    requires x != []
    ensures Escaped(x, sign) == EscapeByte(x[0], sign) + Escaped(x[1..], sign)
  {
  }

  // ---------------------------------------------------------------------------
  // Pass 2: unescaping

  /** Pass 2 turns the escape of a byte that survives back into that byte. */
  lemma UnescapeByte(s: seq<Byte>, a: nat, close: nat, c: Byte, sign: Signedness)
    requires ByteRoundTrips(c, sign)
    requires a + |EscapeByte(c, sign)| <= close < |s| && s[a..a + |EscapeByte(c, sign)|] == EscapeByte(c, sign)
    ensures Lexer.Unescape(s, a, close) == Lexer.Prepend([c], Lexer.Unescape(s, a + |EscapeByte(c, sign)|, close))
  {
    var e := EscapeByte(c, sign);
    EscapeByteCases(c, sign);
    assert s[a] == e[0];
    if |e| == 6 {
      UnescapeUnicode(s, a, close, c, sign);
    } else if |e| == 2 {
      assert e == ShortEscape(c);
      assert s[a + 1] == e[1];
      assert Lexer.EscapeAt(s, a, close) == Ok(Lexer.Piece([c], a + 2));
    }
  }

  /** The `\u00XX` case of `UnescapeByte`, where `c` is a control byte. */
  lemma UnescapeUnicode(s: seq<Byte>, a: nat, close: nat, c: Byte, sign: Signedness)
    requires ByteRoundTrips(c, sign) && |EscapeByte(c, sign)| == 6
    requires a + 6 <= close < |s| && s[a..a + 6] == EscapeByte(c, sign)
    ensures Lexer.Unescape(s, a, close) == Lexer.Prepend([c], Lexer.Unescape(s, a + 6, close))
  {
    EscapeByteCases(c, sign);
    assert c < 0x20;
    UnicodeEscapeReadsBack(s, a, close, c);
    assert EncodeUtf8(c) == [c];
  }

  /** Pass 2 reads `\u00XX` as the code point XX, encoded as UTF-8. */
  lemma UnicodeEscapeReadsBack(s: seq<Byte>, a: nat, close: nat, c: Byte)
    requires a + 6 <= close < |s| && s[a..a + 6] == UnicodeEscapeOf(c)
    ensures Lexer.Unescape(s, a, close) == Lexer.Prepend(EncodeUtf8(c), Lexer.Unescape(s, a + 6, close))
  {
    var e := UnicodeEscapeOf(c);
    assert s[a] == BACKSLASH && s[a + 1] == 'u' as int by {
      assert s[a] == e[0] && s[a + 1] == e[1];
    }
    assert s[a + 2..a + 6] == e[2..6];
    assert HexQuad(s[a + 2..a + 6]) == c;
    assert Lexer.EscapedCodepoint(s, a + 2) == Ok((c, a + 5));
    assert Lexer.EscapeAt(s, a, close) == Ok(Lexer.Piece(EncodeUtf8(c), a + 6));
  }

  /** Putting `p` and then `q` in front is putting `p + q` in front. */
  lemma PrependTwice(p: seq<Byte>, q: seq<Byte>, res: Result<seq<Byte>>)
    ensures Lexer.Prepend(p, Lexer.Prepend(q, res)) == Lexer.Prepend(p + q, res)
  {
    if res.Ok? {
      AppendAssoc(p, q, res.value);
    }
  }

  lemma PrependNothing(res: Result<seq<Byte>>)
    ensures Lexer.Prepend([], res) == res
  {
    if res.Ok? {
      assert [] + res.value == res.value;
    }
  }

  /** Pass 2 turns the escaped bytes `s[a..b]` of a string that survives back
      into it. */
  lemma {:induction false} UnescapeEscaped(s: seq<Byte>, a: nat, b: nat, close: nat, x: seq<Byte>, sign: Signedness)
    requires RoundTrips(x, sign)
    requires a <= b <= close < |s| && s[a..b] == Escaped(x, sign)
    ensures Lexer.Unescape(s, a, close) == Lexer.Prepend(x, Lexer.Unescape(s, b, close))
    decreases |x|
  {
    if x != [] {
      var n := UnescapeFirst(s, a, b, close, x, sign);
      UnescapeEscaped(s, a + n, b, close, x[1..], sign);
      PrependChain(Lexer.Unescape(s, a, close), Lexer.Unescape(s, a + n, close), Lexer.Unescape(s, b, close), x);
    } else {
      assert a == b;
      PrependNothing(Lexer.Unescape(s, a, close));
    }
  }

  /** The first byte of `x` unescaped at `a`, and where the rest starts. */
  lemma UnescapeFirst(s: seq<Byte>, a: nat, b: nat, close: nat, x: seq<Byte>, sign: Signedness) returns (n: nat)
    requires x != [] && RoundTrips(x, sign)
    requires a <= b <= close < |s| && s[a..b] == Escaped(x, sign)
    ensures a + n <= b && s[a + n..b] == Escaped(x[1..], sign) && RoundTrips(x[1..], sign)
    ensures Lexer.Unescape(s, a, close) == Lexer.Prepend([x[0]], Lexer.Unescape(s, a + n, close))
  {
    var e := EscapeByte(x[0], sign);
    EscapedFirst(x, sign);
    SplitSlice(s, a, b, e, Escaped(x[1..], sign));
    assert ByteRoundTrips(x[0], sign) && RoundTrips(x[1..], sign);
    UnescapeByte(s, a, close, x[0], sign);
    n := |e|;
  }

  /** Putting the first byte of `x` and then the rest in front is putting `x`
      in front. */
  lemma PrependChain(whole: Result<seq<Byte>>, mid: Result<seq<Byte>>, tail: Result<seq<Byte>>, x: seq<Byte>)
    requires x != [] && whole == Lexer.Prepend([x[0]], mid) && mid == Lexer.Prepend(x[1..], tail)
    ensures whole == Lexer.Prepend(x, tail)
  {
    PrependTwice([x[0]], x[1..], tail);
    assert [x[0]] + x[1..] == x;
  }

  // ---------------------------------------------------------------------------
  // The round trip

  /** Escaping changes nothing when it escapes no byte. */
  lemma {:induction false} EscapedPlain(x: seq<Byte>, sign: Signedness)
    requires !Lengthens(x, sign)
    ensures Escaped(x, sign) == x
    decreases |x|
  {
    if x != [] {
      var e := EscapeByte(x[0], sign);
      EscapedFirst(x, sign);
      EscapedPlain(x[1..], sign);
      assert [x[0]] + x[1..] == x;
    }
  }

  /** Reading back a written string, whatever follows it: one string token
      spanning the written text, whose text is `x` between quotes. Without a
      backslash in the written text the token is a zero-copy slice, otherwise
      the unescaped copy. */
  lemma WrittenStringReadsBack(x: seq<Byte>, sign: Signedness, rest: seq<Byte>)
    requires RoundTrips(x, sign)
    ensures var r := Lexer.ReadString(Quoted(x, sign) + rest, 0);
      && r.result.Ok? && r.result.value.kind == Lexer.String
      && r.pos == |Quoted(x, sign)|
      && r.result.value.text.bytes == [QUOTE] + x + [QUOTE]
  {
    var e := Escaped(x, sign);
    ScanWritten(x, sign, rest);
    if !Lengthens(x, sign) {
      EscapedPlain(x, sign);
    } else {
      UnescapeWritten(x, sign, rest);
    }
  }

  /** Pass 1 over a written string stops at its closing quote. */
  lemma ScanWritten(x: seq<Byte>, sign: Signedness, rest: seq<Byte>)
    ensures var s := Quoted(x, sign) + rest; var e := Escaped(x, sign);
      && s[0..|e| + 2] == [QUOTE] + e + [QUOTE]
      && Lexer.Scan(s, 0, 1, false) == Ok(Lexer.Scanned(1 + |e|, Lengthens(x, sign)))
  {
    var e := Escaped(x, sign);
    var s := Quoted(x, sign) + rest;
    QuotedFrame(e, rest);
    ScanEscaped(s, 0, 1, 1 + |e|, false, x, sign);
  }

  /** Pass 2 over a written string that survives gives the string back. */
  lemma UnescapeWritten(x: seq<Byte>, sign: Signedness, rest: seq<Byte>)
    requires RoundTrips(x, sign)
    ensures var s := Quoted(x, sign) + rest; var e := Escaped(x, sign);
      Lexer.Unescape(s, 1, 1 + |e|) == Ok(x)
  {
    var e := Escaped(x, sign);
    var s := Quoted(x, sign) + rest;
    QuotedFrame(e, rest);
    UnescapeEscaped(s, 1, 1 + |e|, 1 + |e|, x, sign);
    assert x + [] == x;
  }

  /** Where the parts of a quoted text followed by `rest` sit. */
  lemma QuotedFrame(e: seq<Byte>, rest: seq<Byte>)
    ensures var s := [QUOTE] + e + [QUOTE] + rest;
      && s[1..1 + |e|] == e && s[1 + |e|] == QUOTE && s[0..|e| + 2] == [QUOTE] + e + [QUOTE]
  {
    var s := [QUOTE] + e + [QUOTE] + rest;
    assert s == [QUOTE] + e + ([QUOTE] + rest);
    assert s[0..|e| + 2] == ([QUOTE] + e + [QUOTE] + rest)[..|e| + 2];
  }

  /** Every string written with an unsigned `char` reads back. */
  lemma UnsignedWriterRoundTrips(x: seq<Byte>, rest: seq<Byte>)
    ensures var r := Lexer.ReadString(Quoted(x, UnsignedChar) + rest, 0);
      r.result.Ok? && r.result.value.text.bytes == [QUOTE] + x + [QUOTE]
  {
    WrittenStringReadsBack(x, UnsignedChar, rest);
  }

  /** With a signed `char` every byte 0x80..0xFF compares below 0x20 and is
      written `\u00XX`, which reads back as the code point U+00XX encoded in two
      bytes: the lead byte 0xC3 of "é" comes back as 0xC3 0x83. */
  lemma SignedCharBreaksRoundTrip(c: Byte, rest: seq<Byte>)
    requires c >= 0x80
    ensures Quoted([c], SignedChar) == [QUOTE] + UnicodeEscapeOf(c) + [QUOTE]
    ensures var r := Lexer.ReadString(Quoted([c], SignedChar) + rest, 0);
      && r.result.Ok? && r.result.value.text.bytes == [QUOTE] + EncodeUtf8(c) + [QUOTE]
      && r.result.value.text.bytes != [QUOTE, c, QUOTE]
  {
    var e := UnicodeEscapeOf(c);
    assert Escaped([c], SignedChar) == e by {
      EscapedFirst([c], SignedChar);
      EscapeByteCases(c, SignedChar);
    }
    var s := Quoted([c], SignedChar) + rest;
    QuotedFrame(e, rest);
    ScanEscaped(s, 0, 1, 7, false, [c], SignedChar);
    assert Lexer.Scan(s, 0, 1, false) == Ok(Lexer.Scanned(7, true));
    UnicodeEscapeReadsBack(s, 1, 7, c);
    assert EncodeUtf8(c) + [] == EncodeUtf8(c);
    assert Lexer.Unescape(s, 1, 7) == Ok(EncodeUtf8(c));
  }
}
