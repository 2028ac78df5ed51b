/** The escape helpers of src/tokenizer.cpp: hexadecimal digits, the four-digit
    `\uXXXX` accumulator, and the UTF-8 encoder (section 3 of RFC 3629). */
module Unicode {
  import opened Bytes

  /** The hexadecimal digit bytes [0-9a-fA-F]. */
  predicate IsHexDigit(c: Byte) {
    IsDigit(c) || ('a' as int <= c <= 'f' as int) || ('A' as int <= c <= 'F' as int)
  }

  /** `hex_to_int`: the value 0..15 of a hexadecimal digit, -1 for any other byte. */
  function HexToInt(c: Byte): (r: int)
    ensures -1 <= r < 16
    ensures r >= 0 <==> IsHexDigit(c)
  {
    if '0' as int <= c <= '9' as int then c - '0' as int
    else if 'a' as int <= c <= 'f' as int then c - 'a' as int + 10
    else if 'A' as int <= c <= 'F' as int then c - 'A' as int + 10
    else -1
  }

  /** The lower-case hexadecimal digit of a value 0..15, as `{:04x}` writes it. */
  function LowerHexDigit(v: int): (c: Byte)
    requires 0 <= v < 16
    ensures IsHexDigit(c)
  {
    if v < 10 then '0' as int + v else 'a' as int + (v - 10)
  }

  /** Both cases of every digit read back as its value. */
  lemma HexDigitsRoundTrip(v: int)
    requires 0 <= v < 16
    ensures HexToInt(LowerHexDigit(v)) == v
    ensures HexToInt(if v < 10 then '0' as int + v else 'A' as int + (v - 10)) == v
  {
  }

  /** The value of four hexadecimal digits, most significant first, or -1 when one
      of them is not a hexadecimal digit. */
  function HexQuad(d: seq<Byte>): (r: int)
    requires |d| == 4
    ensures -1 <= r <= 0xFFFF
    ensures r >= 0 <==> forall k | 0 <= k < 4 :: IsHexDigit(d[k])
  {
    if IsHexDigit(d[0]) && IsHexDigit(d[1]) && IsHexDigit(d[2]) && IsHexDigit(d[3]) then
      HexToInt(d[0]) * 4096 + HexToInt(d[1]) * 256 + HexToInt(d[2]) * 16 + HexToInt(d[3])
    else -1
  }

  /** The value of the first `n` digits of `d`, most significant first. */
  ghost function HexPrefix(d: seq<Byte>, n: nat): int
    requires n <= |d|
  {
    if n == 0 then 0 else HexPrefix(d, n - 1) * 16 + HexToInt(d[n - 1])
  }

  /** `decode_unicode_escape`: accumulates the four digits at `s[at..at+4]` with
      `val = (val << 4) | h`, stopping with -1 at the first non-digit. */
  method DecodeUnicodeEscape(s: seq<Byte>, at: nat) returns (v: int)
    requires at + 4 <= |s|
    ensures v == HexQuad(s[at..at + 4])
  {
    ghost var d := s[at..at + 4];
    v := 0;
    var i := 0;
    while i < 4
      invariant 0 <= i <= 4
      invariant forall k | 0 <= k < i :: IsHexDigit(d[k])
      invariant v == HexPrefix(d, i)
      invariant 0 <= v < Pow16(i)
    {
      var h := HexToInt(s[at + i]);
      if h < 0 {
        assert d[i] == s[at + i];
        return -1;
      }
      // (val << 4) | h: the low four bits of val << 4 are zero and h < 16
      v := v * 16 + h;
      i := i + 1;
    }
    assert HexPrefix(d, 2) == HexToInt(d[0]) * 16 + HexToInt(d[1]);
    assert HexPrefix(d, 4) == (HexPrefix(d, 2) * 16 + HexToInt(d[2])) * 16 + HexToInt(d[3]);
  }

  function Pow16(n: nat): nat {
    if n == 0 then 1 else 16 * Pow16(n - 1)
  }

  /** A UTF-8 continuation byte 10xxxxxx. */
  predicate IsContinuation(b: Byte) {
    0x80 <= b < 0xC0
  }

  /** `encode_utf8`: the bytes written to `out` (their number is the return value;
      none for a value beyond 0x10FFFF). A negative value takes the first branch,
      where `static_cast<char>` keeps its low eight bits. */
  function EncodeUtf8(cp: int): (r: seq<Byte>)
    ensures |r| == (if cp < 0x80 then 1 else if cp < 0x800 then 2
                    else if cp < 0x10000 then 3 else if cp < 0x110000 then 4 else 0)
    ensures 0 <= cp < 0x80 ==> r[0] == cp
    ensures 0x80 <= cp < 0x800 ==> 0xC2 <= r[0] < 0xE0
    ensures 0x800 <= cp < 0x10000 ==> 0xE0 <= r[0] < 0xF0
    ensures 0x10000 <= cp < 0x110000 ==> 0xF0 <= r[0] <= 0xF4
    ensures forall k | 1 <= k < |r| :: IsContinuation(r[k])
  {
    if cp < 0x80 then
      [cp % 256]
    else if cp < 0x800 then
      // 0xC0 | (cp >> 6), 0x80 | (cp & 0x3F)
      [0xC0 + cp / 64, 0x80 + cp % 64]
    else if cp < 0x10000 then
      [0xE0 + cp / 4096, 0x80 + (cp / 64) % 64, 0x80 + cp % 64]
    else if cp < 0x110000 then
      [0xF0 + cp / 262144, 0x80 + (cp / 4096) % 64, 0x80 + (cp / 64) % 64, 0x80 + cp % 64]
    else
      []
  }

  /** The scalar value of one complete UTF-8 sequence (lead byte and continuation
      bytes as in section 3 of RFC 3629), decoded independently of the encoder. */
  function DecodeUtf8(b: seq<Byte>): (r: int)
    ensures r >= -1
  {
    if |b| == 1 && b[0] < 0x80 then b[0]
    else if |b| == 2 && 0xC0 <= b[0] < 0xE0 && IsContinuation(b[1]) then
      (b[0] as int - 0xC0) * 64 + (b[1] as int - 0x80)
    else if |b| == 3 && 0xE0 <= b[0] < 0xF0 && IsContinuation(b[1]) && IsContinuation(b[2]) then
      ((b[0] as int - 0xE0) * 64 + (b[1] as int - 0x80)) * 64 + (b[2] as int - 0x80)
    else if |b| == 4 && 0xF0 <= b[0] < 0xF8 && IsContinuation(b[1]) && IsContinuation(b[2])
            && IsContinuation(b[3]) then
      (((b[0] as int - 0xF0) * 64 + (b[1] as int - 0x80)) * 64 + (b[2] as int - 0x80)) * 64
        + (b[3] as int - 0x80)
    else -1
  }

  /** Decoding what `encode_utf8` wrote gives back the code point, for every value
      it accepts. */
  lemma Utf8RoundTrip(cp: int)
    requires 0 <= cp < 0x110000
    ensures DecodeUtf8(EncodeUtf8(cp)) == cp
  {
    var r := EncodeUtf8(cp);
    if cp < 0x80 {
    } else if cp < 0x800 {
      assert cp == (cp / 64) * 64 + cp % 64;
    } else if cp < 0x10000 {
      assert cp / 64 == (cp / 4096) * 64 + (cp / 64) % 64;
      assert cp == (cp / 64) * 64 + cp % 64;
    } else {
      assert cp / 4096 == (cp / 262144) * 64 + (cp / 4096) % 64;
      assert cp / 64 == (cp / 4096) * 64 + (cp / 64) % 64;
      assert cp == (cp / 64) * 64 + cp % 64;
    }
  }

  /** `encode_utf8(codepoint, out)` writing into the buffer at index `at`: the
      bytes of `EncodeUtf8(cp)` land at `out[at..]`, nothing else changes, and the
      returned length is 0 for a value beyond 0x10FFFF. */
  method EncodeUtf8Into(cp: int, out: array<Byte>, at: nat) returns (n: nat)
    requires at + 4 <= out.Length
    modifies out
    ensures n == |EncodeUtf8(cp)| && n <= 4
    ensures out[at..at + n] == EncodeUtf8(cp)
    ensures out[..at] == old(out[..at]) && out[at + n..] == old(out[at + n..])
  {
    if cp < 0x80 {
      out[at] := cp % 256;
      n := 1;
    } else if cp < 0x800 {
      out[at] := 0xC0 + cp / 64;
      out[at + 1] := 0x80 + cp % 64;
      n := 2;
    } else if cp < 0x10000 {
      out[at] := 0xE0 + cp / 4096;
      out[at + 1] := 0x80 + (cp / 64) % 64;
      out[at + 2] := 0x80 + cp % 64;
      n := 3;
    } else if cp < 0x110000 {
      out[at] := 0xF0 + cp / 262144;
      out[at + 1] := 0x80 + (cp / 4096) % 64;
      out[at + 2] := 0x80 + (cp / 64) % 64;
      out[at + 3] := 0x80 + cp % 64;
      n := 4;
    } else {
      n := 0;
    }
  }
}
