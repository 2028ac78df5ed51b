/** Bytes of the input buffer and of written text, with the ASCII constants the
    scanners, the parser and the writer compare against. A C++ `char` holding a
    byte is modelled as its unsigned value 0..255; where the source depends on
    the signedness of `char` the model says so explicitly (see Writer). */
module Bytes {

  type Byte = b: int | 0 <= b < 256

  const QUOTE: Byte := '"' as int
  const BACKSLASH: Byte := '\\' as int
  const SLASH: Byte := '/' as int
  const LBRACE: Byte := '{' as int
  const RBRACE: Byte := '}' as int
  const LBRACKET: Byte := '[' as int
  const RBRACKET: Byte := ']' as int
  const COLON: Byte := ':' as int
  const COMMA: Byte := ',' as int
  const MINUS: Byte := '-' as int
  const PLUS: Byte := '+' as int
  const DOT: Byte := '.' as int
  const SPACE: Byte := ' ' as int
  const TAB: Byte := 0x09
  const LF: Byte := 0x0A
  const CR: Byte := 0x0D
  const BS: Byte := 0x08
  const FF: Byte := 0x0C
  const ZERO: Byte := '0' as int

  /** The four whitespace bytes of section 2 of RFC 8259. */
  predicate IsWhitespace(c: Byte) {
    c == SPACE || c == TAB || c == LF || c == CR
  }

  /** A decimal digit '0'..'9' (std::isdigit in the "C" locale). */
  predicate IsDigit(c: Byte) {
    '0' as int <= c <= '9' as int
  }

  /** The bytes of an ASCII string literal. */
  function Ascii(s: string): (r: seq<Byte>)
    requires forall i | 0 <= i < |s| :: s[i] as int < 128
    ensures |r| == |s|
    ensures forall i | 0 <= i < |s| :: r[i] == s[i] as int
  {
    seq(|s|, i requires 0 <= i < |s| => s[i] as int)
  }

  /** `n` copies of byte `c`. */
  function Repeat(c: Byte, n: nat): (r: seq<Byte>)
    ensures |r| == n
    ensures forall i | 0 <= i < n :: r[i] == c
  {
    seq(n, _ => c)
  }
}
