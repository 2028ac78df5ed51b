/** The `Tokenizer` class of include/json/tokenizer.hpp. Its methods follow
    src/tokenizer.cpp (and, for `ReadRawString`, src/json/tokenizer.cpp) statement
    by statement and are proved to compute the token grammar of module Lexer. */
module Tokenizing {
  import opened Bytes
  import opened Errors
  import opened Unicode
  import opened Lexer
  import Ast
  import Arena

  /** A successful `\uXXXX` read from at or before the closing quote does not reach
      past it: the quote is not a hexadecimal digit. */
  lemma HexQuadBeforeQuote(s: seq<Byte>, d: nat, close: nat)
    requires d <= close < |s| && s[close] == QUOTE && d + 4 <= |s|
    requires HexQuad(s[d..d + 4]) >= 0
    ensures d + 4 <= close
  {
  }

  lemma PrependNil(x: Result<seq<Byte>>)
    ensures Prepend([], x) == x
  {
    if x.Ok? {
      assert [] + x.value == x.value;
    }
  }

  lemma PrependPrepend(a: seq<Byte>, b: seq<Byte>, x: Result<seq<Byte>>)
    ensures Prepend(a, Prepend(b, x)) == Prepend(a + b, x)
  {
    if x.Ok? {
      assert a + (b + x.value) == (a + b) + x.value;
    }
  }

  /** Where the `\\u` case of pass 2 left off: the write index after the UTF-8 bytes
      and the read index of the last hexadecimal digit consumed. */
  datatype Step = Step(written: nat, last: nat)

  class Tokenizer {
    const input: seq<Byte>
    /** Which implementation of the class is linked. */
    const build: Build
    /** `arena_`: where unescaped strings are written; null for a tokenizer made
        without one. */
    const arena: Arena.Arena?
    /** `pos_`: the cursor. */
    var pos: nat

    ghost predicate Valid()
      reads this, arena
    {
      pos <= |input| && (arena != null ==> arena.Valid())
    }

    /** The next token can be read without dereferencing a null `arena_`: only the
        slow path of the unescaping `read_string` uses it. */
    ghost predicate CanAdvance()
      reads this
    {
      pos <= |input| && (build == Unescaping && NeedsArena(input, WsEnd(input, pos)) ==> arena != null)
    }

    /** Both constructors: `Tokenizer(input)` passes a null arena. */
    constructor (input: seq<Byte>, build: Build, arena: Arena.Arena?)
      requires arena != null ==> arena.Valid()
      ensures Valid()
      ensures this.input == input && this.build == build && this.arena == arena && pos == 0
    {
      this.input := input;
      this.build := build;
      this.arena := arena;
      pos := 0;
    }

    /** `skip_whitespace` */
    method SkipWhitespace()
      requires pos <= |input|
      modifies this
      ensures pos == WsEnd(input, old(pos))
    {
      while pos < |input|
        invariant old(pos) <= pos <= |input|
        invariant WsEnd(input, pos) == WsEnd(input, old(pos))
        decreases |input| - pos
      {
        var c := input[pos];
        if c == SPACE || c == TAB || c == LF || c == CR {
          pos := pos + 1;
        } else {
          break;
        }
      }
    }

    /** `next()` */
    method Next() returns (r: Result<Token>)
      requires Valid() && CanAdvance()
      modifies this, arena
      ensures Valid()
      ensures Lexed(r, pos) == Lexer.Next(input, old(pos), build)
      ensures arena != null && !(build == Unescaping && NeedsArena(input, WsEnd(input, old(pos)))) ==>
        unchanged(arena)
    {
      SkipWhitespace();
      if pos >= |input| {
        return Ok(Token(End, Ast.Slice(pos, []), pos));
      }
      var start := pos;
      var c := input[pos];
      if c == LBRACE {
        pos := pos + 1;
        r := Ok(Token(LeftBrace, Ast.Slice(start, [c]), start));
      } else if c == RBRACE {
        pos := pos + 1;
        r := Ok(Token(RightBrace, Ast.Slice(start, [c]), start));
      } else if c == LBRACKET {
        pos := pos + 1;
        r := Ok(Token(LeftBracket, Ast.Slice(start, [c]), start));
      } else if c == RBRACKET {
        pos := pos + 1;
        r := Ok(Token(RightBracket, Ast.Slice(start, [c]), start));
      } else if c == COLON {
        pos := pos + 1;
        r := Ok(Token(Colon, Ast.Slice(start, [c]), start));
      } else if c == COMMA {
        pos := pos + 1;
        r := Ok(Token(Comma, Ast.Slice(start, [c]), start));
      } else if c == QUOTE {
        if build == Unescaping {
          r := ReadString();
        } else {
          r := ReadRawString();
        }
      } else if c == 't' as int {
        r := ReadKeyword(TRUE, True);
      } else if c == 'f' as int {
        r := ReadKeyword(FALSE, False);
      } else if c == 'n' as int {
        r := ReadKeyword(NULL, Null);
      } else if c == MINUS || IsDigit(c) {
        r := ReadNumber();
      } else {
        r := Fail(InvalidToken, pos);
      }
    }

    /** `read_string` of src/tokenizer.cpp: pass 1 finds the closing quote; without
        escapes the token is the input slice, otherwise pass 2 unescapes the content
        into a buffer of `4 * content + 3` bytes taken from the arena, between quotes
        and followed by a NUL. */
    method ReadString() returns (r: Result<Token>)
      requires Valid() && pos < |input| && input[pos] == QUOTE
      requires NeedsArena(input, pos) ==> arena != null
      modifies this, arena
      ensures Valid()
      ensures Lexed(r, pos) == Lexer.ReadString(input, old(pos))
      ensures arena != null && !NeedsArena(input, old(pos)) ==> unchanged(arena)
    {
      var start := pos;
      pos := pos + 1;
      var scanned := ScanString(start);
      if scanned.Err? {
        return Err(scanned.error);
      }
      var scan := scanned.value.close;
      if !scanned.value.escapes {
        var text := input[start..scan + 1];
        pos := scan + 1;
        return Ok(Token(String, Ast.Slice(start, text), start));
      }

      var content := scan - pos;
      var _ := arena.Alloc(content * 4 + 3, 1);
      var buffer := new Byte[content * 4 + 3];
      var unescaped := UnescapeInto(buffer, pos, scan);
      if unescaped.Err? {
        return Err(unescaped.error);
      }
      var w := unescaped.value;
      ghost var out := buffer[1..w];
      buffer[w] := QUOTE;
      w := w + 1;
      assert buffer[..w] == [QUOTE] + out + [QUOTE];
      ghost var text := buffer[..w];
      buffer[w] := 0;
      assert buffer[..w] == text;
      pos := scan + 1;
      r := Ok(Token(String, Ast.Owned(buffer[..w]), start));
    }

    /** Pass 1 of `read_string`, from just after the opening quote at `start`. */
    method ScanString(start: nat) returns (r: Result<Scanned>)
      requires start < |input|
      ensures r == Scan(input, start, start + 1, false)
    {
      var scan := start + 1;
      var hasEscapes := false;
      while scan < |input|
        invariant start + 1 <= scan <= |input|
        invariant Scan(input, start, start + 1, false) == Scan(input, start, scan, hasEscapes)
        decreases |input| - scan
      {
        var c := input[scan];
        if c == QUOTE {
          break;
        }
        if c == BACKSLASH {
          hasEscapes := true;
          scan := scan + 1;
          if scan >= |input| {
            return Fail(InvalidEscape, scan);
          }
          scan := scan + 1;
        } else {
          scan := scan + 1;
        }
      }
      if scan >= |input| {
        return Fail(InvalidString, start);
      }
      r := Ok(Scanned(scan, hasEscapes));
    }

    /** Pass 2 of `read_string`: writes the opening quote and the unescaped content
        `input[from..close]` into `buffer` and returns the index after the last byte
        written; the buffer always has room, since no escape is longer unescaped. */
    method UnescapeInto(buffer: array<Byte>, from: nat, close: nat) returns (r: Result<nat>)
      requires from <= close < |input| && input[close] == QUOTE
      requires buffer.Length == (close - from) * 4 + 3
      modifies buffer
      ensures r.Ok? ==> 1 <= r.value <= 1 + (close - from) && buffer[0] == QUOTE
      ensures r.Ok? ==> Unescape(input, from, close) == Ok(buffer[1..r.value])
      ensures r.Err? ==> Unescape(input, from, close) == Err(r.error)
    {
      buffer[0] := QUOTE;
      var w := 1;
      var rp := from;
      assert buffer[1..w] == [];
      PrependNil(Unescape(input, rp, close));
      while rp < close
        invariant from <= rp <= close
        invariant 1 <= w <= 1 + (rp - from)
        invariant buffer[0] == QUOTE
        invariant Unescape(input, from, close) == Prepend(buffer[1..w], Unescape(input, rp, close))
        decreases close - rp
      {
        ghost var w0, prefix := w, buffer[1..w];
        var step := UnescapeStep(buffer, w, rp, close);
        if step.Err? {
          return Err(step.error);
        }
        w, rp := step.value.written, step.value.last + 1;
        assert buffer[1..w] == prefix + buffer[w0..w];
        PrependPrepend(prefix, buffer[w0..w], Unescape(input, rp, close));
      }
      PrependNil(Ok([]));
      assert Unescape(input, rp, close) == Ok([]);
      assert buffer[1..w] + [] == buffer[1..w];
      r := Ok(w);
    }

    /** One iteration of pass 2 at read index `rp`, writing at `w`: an escape, or
        a byte copied as it is. */
    method UnescapeStep(buffer: array<Byte>, w: nat, rp: nat, close: nat) returns (r: Result<Step>)
      requires rp < close < |input| && input[close] == QUOTE
      requires 1 <= w && w + 4 <= buffer.Length
      modifies buffer
      ensures buffer[..w] == old(buffer[..w])
      ensures r.Ok? ==> var st := r.value;
        && w <= st.written <= w + (st.last + 1 - rp) && st.written <= buffer.Length
        && rp <= st.last < close
        && Unescape(input, rp, close) == Prepend(buffer[w..st.written], Unescape(input, st.last + 1, close))
      ensures r.Err? ==> Unescape(input, rp, close) == Err(r.error)
    {
      var c := input[rp];
      if c == BACKSLASH {
        r := ReadEscape(buffer, w, rp, close);
      } else {
        buffer[w] := c;
        assert buffer[w..w + 1] == [c];
        r := Ok(Step(w + 1, rp));
      }
    }

    /** The backslash case of pass 2, the backslash at `backslash`: the switch on the
        escape character, written at `at`; `last` is the read index of the escape's
        last byte. */
    method ReadEscape(buffer: array<Byte>, at: nat, backslash: nat, close: nat) returns (r: Result<Step>)
      requires backslash < close < |input| && input[close] == QUOTE && input[backslash] == BACKSLASH
      requires 1 <= at && at + 4 <= buffer.Length
      modifies buffer
      ensures buffer[..at] == old(buffer[..at])
      ensures r.Ok? ==> var st := r.value;
        && at <= st.written <= at + (st.last + 1 - backslash) && st.written <= buffer.Length
        && backslash < st.last < close
        && EscapeAt(input, backslash, close) == Ok(Piece(buffer[at..st.written], st.last + 1))
      ensures r.Err? ==> EscapeAt(input, backslash, close) == Err(r.error)
    {
      var w, rp := at, backslash + 1;
      if rp >= close {
        return Fail(InvalidEscape, rp);
      }
      var escape := input[rp];
      if escape == QUOTE {
        buffer[w] := QUOTE;
        w := w + 1;
      } else if escape == BACKSLASH {
        buffer[w] := BACKSLASH;
        w := w + 1;
      } else if escape == SLASH {
        buffer[w] := SLASH;
        w := w + 1;
      } else if escape == 'b' as int {
        buffer[w] := BS;
        w := w + 1;
      } else if escape == 'f' as int {
        buffer[w] := FF;
        w := w + 1;
      } else if escape == 'n' as int {
        buffer[w] := LF;
        w := w + 1;
      } else if escape == 'r' as int {
        buffer[w] := CR;
        w := w + 1;
      } else if escape == 't' as int {
        buffer[w] := TAB;
        w := w + 1;
      } else if escape == 'u' as int {
        var step := ReadUnicodeEscape(buffer, w, rp + 1, close);
        if step.Err? {
          return Err(step.error);
        }
        return step;
      } else {
        return Err(Error(InvalidEscape, rp, "Unknown escape sequence"));
      }
      assert buffer[at..w] == [SimpleEscape(escape)];
      r := Ok(Step(w, rp));
    }

    /** The `case 'u'` of pass 2, `d` the index after the `u`: the code point,
        encoded into `buffer` at `w` as UTF-8. */
    method ReadUnicodeEscape(buffer: array<Byte>, w: nat, d: nat, close: nat) returns (r: Result<Step>)
      requires 2 <= d <= close < |input| && input[close] == QUOTE
      requires 1 <= w && w + 4 <= buffer.Length
      modifies buffer
      ensures buffer[..w] == old(buffer[..w])
      ensures r.Ok? ==> var st := r.value;
        && w <= st.written <= w + (st.last + 1 - (d - 2)) && st.written <= buffer.Length
        && d <= st.last < close
        && UnicodeEscape(input, d) == Ok(Piece(buffer[w..st.written], st.last + 1))
      ensures r.Err? ==> UnicodeEscape(input, d) == Err(r.error)
    {
      var cp := ReadCodepoint(d, close);
      if cp.Err? {
        return Err(cp.error);
      }
      var codepoint, last := cp.value.0, cp.value.1;
      var n := EncodeUtf8Into(codepoint, buffer, w);
      if n == 0 {
        // "Invalid codepoint": encode_utf8 fails only beyond U+10FFFF, which neither
        // four digits nor a surrogate pair reach
        assert false;
      }
      r := Ok(Step(w + n, last));
    }

    /** The digits of a `\\u` escape, `d` the index after the `u`, and for a high
        surrogate the low surrogate escape after them, combined to one code point. */
    method ReadCodepoint(d: nat, close: nat) returns (r: Result<(int, nat)>)
      requires d <= close < |input| && input[close] == QUOTE
      ensures r == EscapedCodepoint(input, d)
      ensures r.Ok? ==> r.value.1 < close
    {
      var rp := d;
      if rp + 3 >= |input| {
        return Fail(InvalidEscape, rp);
      }
      var codepoint := DecodeUnicodeEscape(input, rp);
      if codepoint < 0 {
        return Err(Error(InvalidEscape, rp, "Invalid unicode escape sequence"));
      }
      HexQuadBeforeQuote(input, rp, close);
      if 0xD800 <= codepoint <= 0xDBFF {
        rp := rp + 4;
        if rp + 5 >= |input| || input[rp] != BACKSLASH || input[rp + 1] != 'u' as int {
          return Err(Error(InvalidEscape, rp, "Missing low surrogate"));
        }
        rp := rp + 2;
        var low := DecodeUnicodeEscape(input, rp);
        if low < 0xDC00 || low > 0xDFFF {
          return Err(Error(InvalidEscape, rp, "Invalid low surrogate"));
        }
        HexQuadBeforeQuote(input, rp, close);
        codepoint := 0x10000 + (codepoint - 0xD800) * 1024 + (low - 0xDC00);
        rp := rp + 3;
      } else {
        rp := rp + 3;
      }
      r := Ok((codepoint, rp));
    }

    /** `read_string` of src/json/tokenizer.cpp: the raw slice from quote to quote. */
    method ReadRawString() returns (r: Result<Token>)
      requires pos < |input| && input[pos] == QUOTE
      modifies this
      ensures Lexed(r, pos) == Lexer.ReadRawString(input, old(pos))
    {
      var start := pos;
      ghost var spec := RawScan(input, start, start + 1);
      pos := pos + 1;
      while pos < |input|
        invariant start < pos <= |input|
        invariant RawScan(input, start, pos) == spec
        decreases |input| - pos
      {
        var c := input[pos];
        if c == QUOTE {
          assert spec == Lexed(Ok(Token(String, Ast.Slice(start, input[start..pos + 1]), start)), pos + 1);
          pos := pos + 1;
          return Ok(Token(String, Ast.Slice(start, input[start..pos]), start));
        }
        if c == BACKSLASH {
          pos := pos + 1;
          if pos >= |input| {
            assert spec == Lexed(Fail(InvalidEscape, pos), pos);
            return Fail(InvalidEscape, pos);
          }
          pos := pos + 1;
        } else {
          pos := pos + 1;
        }
      }
      assert spec == Lexed(Fail(InvalidString, start), pos);
      r := Fail(InvalidString, start);
    }

    /** One of the three digit loops of `read_number`. */
    method SkipDigits()
      requires pos <= |input|
      modifies this
      ensures pos == DigitsEnd(input, old(pos))
    {
      while pos < |input| && IsDigit(input[pos])
        invariant old(pos) <= pos <= |input|
        invariant DigitsEnd(input, pos) == DigitsEnd(input, old(pos))
        decreases |input| - pos
      {
        pos := pos + 1;
      }
    }

    /** `read_number` */
    method ReadNumber() returns (r: Result<Token>)
      requires pos < |input|
      modifies this
      ensures Lexed(r, pos) == Lexer.ReadNumber(input, old(pos))
    {
      var start := pos;
      if input[pos] == MINUS {
        pos := pos + 1;
      }
      if pos >= |input| || !IsDigit(input[pos]) {
        return Fail(InvalidNumber, start);
      }
      if input[pos] == ZERO {
        pos := pos + 1;
      } else {
        SkipDigits();
      }
      r := ReadFractionPart(start);
    }

    /** The fraction part of `read_number`, the cursor at the end of the integer
        part. */
    method ReadFractionPart(start: nat) returns (r: Result<Token>)
      requires start < pos <= |input|
      modifies this
      ensures Lexed(r, pos) == ReadFraction(input, start, old(pos))
    {
      if pos < |input| && input[pos] == DOT {
        pos := pos + 1;
        if pos >= |input| || !IsDigit(input[pos]) {
          return Fail(InvalidNumber, start);
        }
        SkipDigits();
      }
      r := ReadExponentPart(start);
    }

    /** The exponent part of `read_number`, the cursor at the end of the mantissa. */
    method ReadExponentPart(start: nat) returns (r: Result<Token>)
      requires start < pos <= |input|
      modifies this
      ensures Lexed(r, pos) == ReadExponent(input, start, old(pos))
    {
      if pos < |input| && (input[pos] == 'e' as int || input[pos] == 'E' as int) {
        pos := pos + 1;
        if pos < |input| && (input[pos] == PLUS || input[pos] == MINUS) {
          pos := pos + 1;
        }
        if pos >= |input| || !IsDigit(input[pos]) {
          return Fail(InvalidNumber, start);
        }
        SkipDigits();
      }
      r := Ok(Token(Number, Ast.Slice(start, input[start..pos]), start));
    }

    /** `read_keyword` */
    method ReadKeyword(keyword: seq<Byte>, kind: TokenType) returns (r: Result<Token>)
      requires pos <= |input|
      modifies this
      ensures Lexed(r, pos) == Lexer.ReadKeyword(input, old(pos), keyword, kind)
    {
      var start := pos;
      for i := 0 to |keyword|
        invariant pos == start + i <= |input|
        invariant forall k | 0 <= k < i :: input[start + k] == keyword[k]
        invariant MatchLen(input, start, keyword, i) == MatchLen(input, start, keyword, 0)
      {
        if pos >= |input| || input[pos] != keyword[i] {
          return Fail(InvalidToken, start);
        }
        pos := pos + 1;
      }
      r := Ok(Token(kind, Ast.Slice(start, input[start..start + |keyword|]), start));
    }
  }
}
