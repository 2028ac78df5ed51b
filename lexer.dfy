/** The token grammar of include/json/tokenizer.hpp as pure functions: what one
    call of `Tokenizer::next()` computes from the input and the cursor `pos_`. The
    Tokenizer class (tokenizer.dfy) is proved to compute exactly these. Both
    string scanners are here: the two-pass unescaping one of src/tokenizer.cpp
    and the raw-slice one of src/json/tokenizer.cpp. */
module Lexer {
  import opened Bytes
  import opened Errors
  import opened Unicode
  import Ast

  datatype TokenType =
    | End | LeftBrace | RightBrace | LeftBracket | RightBracket | Colon | Comma
    | String | Number | True | False | Null

  /** A token: its type, its text, and the byte offset where it starts. The text of
      punctuation and of End is a static literal in the source; it is modelled as
      the (equal) one-byte, resp. empty, slice of the input. */
  datatype Token = Token(kind: TokenType, text: Ast.Str, offset: nat)

  /** Which of the two tokenizer implementations is linked: src/tokenizer.cpp
      unescapes strings into the arena, src/json/tokenizer.cpp returns raw slices. */
  datatype Build = Unescaping | RawSlices

  /** The outcome of one scanner call and the cursor `pos_` after it. */
  datatype Lexed = Lexed(result: Result<Token>, pos: nat)

  const TRUE: seq<Byte> := Ascii("true")
  const FALSE: seq<Byte> := Ascii("false")
  const NULL: seq<Byte> := Ascii("null")

  /** Where `skip_whitespace` stops: past every space, tab, LF and CR from `p`. */
  function WsEnd(s: seq<Byte>, p: nat): (r: nat)
    requires p <= |s|
    ensures p <= r <= |s|
    ensures forall k | p <= k < r :: IsWhitespace(s[k])
    ensures r < |s| ==> !IsWhitespace(s[r])
    decreases |s| - p
  {
    if p < |s| && IsWhitespace(s[p]) then WsEnd(s, p + 1) else p
  }

  /** The end of the run of decimal digits starting at `p`. */
  function DigitsEnd(s: seq<Byte>, p: nat): (r: nat)
    requires p <= |s|
    ensures p <= r <= |s|
    ensures forall k | p <= k < r :: IsDigit(s[k])
    ensures r < |s| ==> !IsDigit(s[r])
    decreases |s| - p
  {
    if p < |s| && IsDigit(s[p]) then DigitsEnd(s, p + 1) else p
  }

  predicate IsPunctuation(c: Byte) {
    c == LBRACE || c == RBRACE || c == LBRACKET || c == RBRACKET || c == COLON || c == COMMA
  }

  function PunctuationType(c: Byte): TokenType
    requires IsPunctuation(c)
  {
    if c == LBRACE then LeftBrace
    else if c == RBRACE then RightBrace
    else if c == LBRACKET then LeftBracket
    else if c == RBRACKET then RightBracket
    else if c == COLON then Colon
    else Comma
  }

  /** What one token with these facts looks like: it starts at the first
      non-whitespace byte, End only at the end of input, every other token at least
      one byte long with the cursor just past it. */
  predicate TokenAt(s: seq<Byte>, p: nat, t: Token, pos: nat)
    requires p <= |s|
  {
    && t.offset == WsEnd(s, p)
    && pos <= |s|
    && (t.kind == End <==> t.offset == |s|)
    && (t.kind == End ==> pos == |s|)
    && (t.kind != End ==> t.offset < pos)
  }

  /** The byte a token of this kind starts with, as `next()` dispatches on it. */
  predicate StartsKind(kind: TokenType, c: Byte) {
    match kind
    case End => false
    case String => c == QUOTE
    case Number => c == MINUS || IsDigit(c)
    case True => c == 't' as int
    case False => c == 'f' as int
    case Null => c == 'n' as int
    case _ => IsPunctuation(c) && PunctuationType(c) == kind
  }

  /** `Tokenizer::next()` from cursor `p`. A token viewing the input is the input
      from its offset to the cursor; only the unescaping build owns text, for a
      string containing an escape. */
  function Next(s: seq<Byte>, p: nat, build: Build): (r: Lexed)
    requires p <= |s|
    ensures r.pos <= |s|
    ensures r.result.Ok? ==> TokenAt(s, p, r.result.value, r.pos)
    ensures r.result.Ok? && r.result.value.kind != End ==>
      StartsKind(r.result.value.kind, s[r.result.value.offset])
    ensures r.result.Ok? && r.result.value.text.Slice? ==>
      r.result.value.text == Ast.Slice(r.result.value.offset, s[r.result.value.offset..r.pos])
    ensures r.result.Ok? && r.result.value.text.Owned? ==>
      && build == Unescaping && r.result.value.kind == String
      && StringText(s, r.result.value, r.pos)
  {
    var q := WsEnd(s, p);
    if q == |s| then Lexed(Ok(Token(End, Ast.Slice(q, []), q)), q)
    else
      var c := s[q];
      if IsPunctuation(c) then Lexed(Ok(Token(PunctuationType(c), Ast.Slice(q, [c]), q)), q + 1)
      else if c == QUOTE then
        (match build
         case Unescaping => ReadString(s, q)
         case RawSlices => ReadRawString(s, q))
      else if c == 't' as int then ReadKeyword(s, q, TRUE, True)
      else if c == 'f' as int then ReadKeyword(s, q, FALSE, False)
      else if c == 'n' as int then ReadKeyword(s, q, NULL, Null)
      else if c == MINUS || IsDigit(c) then ReadNumber(s, q)
      else Lexed(Fail(InvalidToken, q), q)
  }

  // ----- keywords -----

  /** How many leading bytes of `kw` the input matches from `start`, the first `i`
      being known to match. */
  function MatchLen(s: seq<Byte>, start: nat, kw: seq<Byte>, i: nat): (r: nat)
    requires i <= |kw| && start + i <= |s|
    requires forall k | 0 <= k < i :: s[start + k] == kw[k]
    ensures i <= r <= |kw| && start + r <= |s|
    ensures forall k | 0 <= k < r :: s[start + k] == kw[k]
    ensures r < |kw| ==> start + r == |s| || s[start + r] != kw[r]
    decreases |kw| - i
  {
    if i < |kw| && start + i < |s| && s[start + i] == kw[i] then MatchLen(s, start, kw, i + 1)
    else i
  }

  /** `read_keyword`: the exact literal, or InvalidToken at its start with the cursor
      at the first mismatch. */
  function ReadKeyword(s: seq<Byte>, start: nat, kw: seq<Byte>, kind: TokenType): (r: Lexed)
    requires start <= |s|
    ensures r.result.Ok? <==> start + |kw| <= |s| && s[start..start + |kw|] == kw
    ensures r.result.Ok? ==>
      r.result.value == Token(kind, Ast.Slice(start, kw), start) && r.pos == start + |kw|
    ensures r.result.Err? ==> r.result.error.code == InvalidToken && r.result.error.offset == start
    ensures r.pos <= |s|
  {
    var m := MatchLen(s, start, kw, 0);
    if m == |kw| then
      assert s[start..start + |kw|] == kw;
      Lexed(Ok(Token(kind, Ast.Slice(start, s[start..start + |kw|]), start)), start + |kw|)
    else
      assert start + |kw| <= |s| ==> s[start..start + |kw|][m] != kw[m];
      Lexed(Fail(InvalidToken, start), start + m)
  }

  // ----- numbers -----

  function NumberToken(s: seq<Byte>, start: nat, end: nat): Token
    requires start <= end <= |s|
  {
    Token(Number, Ast.Slice(start, s[start..end]), start)
  }

  /** `read_number`: `-?(0|[1-9][0-9]*)(\.[0-9]+)?([eE][+-]?[0-9]+)?` read greedily
      part by part; a part that starts but has no digit is InvalidNumber at the
      number's start. */
  function ReadNumber(s: seq<Byte>, start: nat): (r: Lexed)
    requires start < |s|
    ensures r.pos <= |s|
    ensures r.result.Ok? ==> start < r.pos && r.result.value == NumberToken(s, start, r.pos)
    ensures r.result.Err? ==> r.result.error == Error(InvalidNumber, start, ErrorMessage(InvalidNumber))
  {
    var p := if s[start] == MINUS then start + 1 else start;
    if p >= |s| || !IsDigit(s[p]) then Lexed(Fail(InvalidNumber, start), p)
    else
      ReadFraction(s, start, if s[p] == ZERO then p + 1 else DigitsEnd(s, p))
  }

  /** The fraction part of `read_number`, from the end `p` of the integer part. */
  function ReadFraction(s: seq<Byte>, start: nat, p: nat): (r: Lexed)
    requires start < p <= |s|
    ensures r.pos <= |s|
    ensures r.result.Ok? ==> start < r.pos && r.result.value == NumberToken(s, start, r.pos)
    ensures r.result.Err? ==> r.result.error == Error(InvalidNumber, start, ErrorMessage(InvalidNumber))
  {
    if p < |s| && s[p] == DOT then
      if p + 1 >= |s| || !IsDigit(s[p + 1]) then Lexed(Fail(InvalidNumber, start), p + 1)
      else ReadExponent(s, start, DigitsEnd(s, p + 1))
    else ReadExponent(s, start, p)
  }

  /** The exponent part of `read_number`, from the end `p` of the mantissa. */
  function ReadExponent(s: seq<Byte>, start: nat, p: nat): (r: Lexed)
    requires start < p <= |s|
    ensures r.pos <= |s|
    ensures r.result.Ok? ==> start < r.pos && r.result.value == NumberToken(s, start, r.pos)
    ensures r.result.Err? ==> r.result.error == Error(InvalidNumber, start, ErrorMessage(InvalidNumber))
  {
    if p < |s| && (s[p] == 'e' as int || s[p] == 'E' as int) then
      var p2 := if p + 1 < |s| && (s[p + 1] == PLUS || s[p + 1] == MINUS) then p + 2 else p + 1;
      if p2 >= |s| || !IsDigit(s[p2]) then Lexed(Fail(InvalidNumber, start), p2)
      else
        var e := DigitsEnd(s, p2);
        Lexed(Ok(NumberToken(s, start, e)), e)
    else Lexed(Ok(NumberToken(s, start, p)), p)
  }

  // ----- strings, src/tokenizer.cpp -----

  /** Where pass 1 of `read_string` stopped: the closing quote, and whether a
      backslash was seen. */
  datatype Scanned = Scanned(close: nat, escapes: bool)

  /** Pass 1 of `read_string` from `i`: a backslash skips the byte after it, so
      `\"` does not close the string. */
  function Scan(s: seq<Byte>, start: nat, i: nat, escapes: bool): (r: Result<Scanned>)
    requires i <= |s|
    ensures r.Ok? ==> i <= r.value.close < |s| && s[r.value.close] == QUOTE
    ensures r.Ok? && escapes ==> r.value.escapes
    ensures r.Err? ==>
      r.error == Error(InvalidString, start, ErrorMessage(InvalidString))
      || r.error == Error(InvalidEscape, |s|, ErrorMessage(InvalidEscape))
    decreases |s| - i
  {
    if i >= |s| then Fail(InvalidString, start)
    else if s[i] == QUOTE then Ok(Scanned(i, escapes))
    else if s[i] == BACKSLASH then
      if i + 1 >= |s| then Fail(InvalidEscape, i + 1)
      else Scan(s, start, i + 2, true)
    else Scan(s, start, i + 1, escapes)
  }

  /** The byte a one-character escape `\x` stands for, or -1. */
  function SimpleEscape(c: Byte): (r: int)
    ensures -1 <= r < 256
  {
    if c == QUOTE then QUOTE
    else if c == BACKSLASH then BACKSLASH
    else if c == SLASH then SLASH
    else if c == 'b' as int then BS
    else if c == 'f' as int then FF
    else if c == 'n' as int then LF
    else if c == 'r' as int then CR
    else if c == 't' as int then TAB
    else -1
  }

  /** `res` with `prefix` put in front of its bytes. */
  function Prepend(prefix: seq<Byte>, res: Result<seq<Byte>>): Result<seq<Byte>> {
    match res
    case Ok(out) => Ok(prefix + out)
    case Err(e) => Err(e)
  }

  /** The code point of a surrogate pair (section 7 of RFC 8259). */
  function CombineSurrogates(hi: int, lo: int): int {
    0x10000 + (hi - 0xD800) * 1024 + (lo - 0xDC00)
  }

  /** What one escape sequence of pass 2 unescapes to, and where reading resumes. */
  datatype Piece = Piece(bytes: seq<Byte>, next: nat)

  /** The escape sequence whose backslash is at `r`; `\\uXXXX` is read against the
      end of the whole input, not the closing quote, as the source does. */
  function EscapeAt(s: seq<Byte>, r: nat, close: nat): (res: Result<Piece>)
    requires r < close < |s|
    ensures res.Ok? ==> r < res.value.next && |res.value.bytes| <= res.value.next - r
    ensures res.Err? ==> res.error.code == InvalidEscape
  {
    var e := r + 1;
    if e >= close then Fail(InvalidEscape, e)
    else if SimpleEscape(s[e]) >= 0 then Ok(Piece([SimpleEscape(s[e])], e + 1))
    else if s[e] == 'u' as int then UnicodeEscape(s, e + 1)
    else Err(Error(InvalidEscape, e, "Unknown escape sequence"))
  }

  /** The code point a `\\u` escape denotes, `d` just after the `u`: four
      hexadecimal digits, and for a high surrogate a low surrogate escape right
      after them; `last` is the index of the escape's last digit. Neither form can
      denote more than U+10FFFF. */
  function EscapedCodepoint(s: seq<Byte>, d: nat): (res: Result<(int, nat)>)
    ensures res.Ok? ==> 0 <= res.value.0 <= 0x10FFFF && d + 3 <= res.value.1 < |s|
    ensures res.Ok? && res.value.0 > 0xFFFF ==> res.value.1 == d + 9
    ensures res.Ok? && res.value.0 <= 0xFFFF ==> res.value.1 == d + 3
    ensures res.Err? ==> res.error.code == InvalidEscape
  {
    if d + 3 >= |s| then Fail(InvalidEscape, d)
    else
      var cp := HexQuad(s[d..d + 4]);
      if cp < 0 then Err(Error(InvalidEscape, d, "Invalid unicode escape sequence"))
      else if 0xD800 <= cp <= 0xDBFF then
        var h := d + 4;
        if h + 5 >= |s| || s[h] != BACKSLASH || s[h + 1] != 'u' as int then
          Err(Error(InvalidEscape, h, "Missing low surrogate"))
        else
          var lo := HexQuad(s[h + 2..h + 6]);
          if lo < 0xDC00 || lo > 0xDFFF then Err(Error(InvalidEscape, h + 2, "Invalid low surrogate"))
          else Ok((CombineSurrogates(cp, lo), h + 5))
      else Ok((cp, d + 3))
  }

  /** The `case 'u'` of pass 2, `d` just after the `u`: the code point, encoded as
      UTF-8; `encode_utf8` refusing it would be "Invalid codepoint" at the last
      digit. */
  function UnicodeEscape(s: seq<Byte>, d: nat): (res: Result<Piece>)
    ensures res.Ok? ==> d < res.value.next && |res.value.bytes| + d <= res.value.next + 2
    ensures res.Err? ==> res.error.code == InvalidEscape
  {
    match EscapedCodepoint(s, d)
    case Err(e) => Err(e)
    case Ok((cp, last)) =>
      var enc := EncodeUtf8(cp);
      if |enc| == 0 then Err(Error(InvalidEscape, last, "Invalid codepoint"))
      else Ok(Piece(enc, last + 1))
  }

  /** Pass 2 of `read_string`: the bytes the content `s[r..close]` unescapes to. */
  function Unescape(s: seq<Byte>, r: nat, close: nat): (res: Result<seq<Byte>>)
    requires close < |s|
    ensures res.Err? ==> res.error.code == InvalidEscape
    decreases close - r
  {
    if r >= close then Ok([])
    else if s[r] != BACKSLASH then Prepend([s[r]], Unescape(s, r + 1, close))
    else
      match EscapeAt(s, r, close)
      case Err(e) => Err(e)
      case Ok(piece) => Prepend(piece.bytes, Unescape(s, piece.next, close))
  }

  /** The text of a string token read by pass 1 and 2 up to the cursor `pos`, just
      past the closing quote: when pass 1 saw no backslash, the input slice from
      quote to quote; otherwise the unescaped content between two quotes. */
  predicate StringText(s: seq<Byte>, t: Token, pos: nat)
    requires t.offset < pos <= |s|
  {
    match t.text
    case Slice(a, b) =>
      a == t.offset && b == s[a..pos] && Scan(s, a, a + 1, false) == Ok(Scanned(pos - 1, false))
    case Owned(b) =>
      && Scan(s, t.offset, t.offset + 1, false) == Ok(Scanned(pos - 1, true))
      && 2 <= |b| && b[0] == QUOTE && b[|b| - 1] == QUOTE
      && Unescape(s, t.offset + 1, pos - 1) == Ok(b[1..|b| - 1])
  }

  /** `read_string` of src/tokenizer.cpp at the opening quote `start`. Without a
      backslash the text is the input slice from quote to quote (zero-copy);
      otherwise it is the unescaped content between synthetic quotes. */
  function ReadString(s: seq<Byte>, start: nat): (r: Lexed)
    requires start < |s|
    ensures r.pos <= |s|
    ensures r.result.Ok? ==> start < r.pos && r.result.value.kind == String && r.result.value.offset == start
    ensures r.result.Ok? ==> StringText(s, r.result.value, r.pos)
    ensures r.result.Err? ==> r.result.error.code == InvalidString || r.result.error.code == InvalidEscape
  {
    match Scan(s, start, start + 1, false)
    case Err(e) => Lexed(Err(e), start + 1)
    case Ok(sc) =>
      if !sc.escapes then
        Lexed(Ok(Token(String, Ast.Slice(start, s[start..sc.close + 1]), start)), sc.close + 1)
      else
        match Unescape(s, start + 1, sc.close)
        case Err(e) => Lexed(Err(e), start + 1)
        case Ok(out) =>
          Lexed(Ok(Token(String, Ast.Owned([QUOTE] + out + [QUOTE]), start)), sc.close + 1)
  }

  /** Reading the string at `start` takes the unescaping slow path, which needs an
      arena. */
  predicate NeedsArena(s: seq<Byte>, start: nat) {
    start < |s| && s[start] == QUOTE
    && var sc := Scan(s, start, start + 1, false); sc.Ok? && sc.value.escapes
  }

  // ----- strings, src/json/tokenizer.cpp -----

  /** `read_string` of src/json/tokenizer.cpp, the cursor at `p`: the raw slice from
      quote to quote, escapes left as they are. */
  function RawScan(s: seq<Byte>, start: nat, p: nat): (r: Lexed)
    requires start < p <= |s|
    ensures start < r.pos <= |s|
    ensures r.result.Ok? ==> r.result.value == Token(String, Ast.Slice(start, s[start..r.pos]), start)
    ensures r.result.Err? ==> r.result.error.code == InvalidString || r.result.error.code == InvalidEscape
    decreases |s| - p
  {
    if p >= |s| then Lexed(Fail(InvalidString, start), p)
    else if s[p] == QUOTE then Lexed(Ok(Token(String, Ast.Slice(start, s[start..p + 1]), start)), p + 1)
    else if s[p] == BACKSLASH then
      if p + 1 >= |s| then Lexed(Fail(InvalidEscape, p + 1), p + 1)
      else RawScan(s, start, p + 2)
    else RawScan(s, start, p + 1)
  }

  function ReadRawString(s: seq<Byte>, start: nat): (r: Lexed)
    requires start < |s|
    ensures start < r.pos <= |s|
    ensures r.result.Ok? ==> r.result.value == Token(String, Ast.Slice(start, s[start..r.pos]), start)
    ensures r.result.Err? ==> r.result.error.code == InvalidString || r.result.error.code == InvalidEscape
  {
    RawScan(s, start, start + 1)
  }
}
