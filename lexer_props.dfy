/** Properties of the token grammar of module Lexer: the number grammar of section 6
    of RFC 8259 read exactly, the two string scanners agreeing, the bounds of pass 2
    of `read_string`, and worked examples of escapes. */
module LexerProperties {
  import opened Bytes
  import opened Errors
  import opened Unicode
  import opened Lexer
  import Ast

  // ----- dispatch on the first byte -----

  /** A byte that can start a token. */
  predicate StartsToken(c: Byte) {
    IsPunctuation(c) || c == QUOTE || c == 't' as int || c == 'f' as int || c == 'n' as int
    || c == MINUS || IsDigit(c)
  }

  /** A structural character is a one-byte token at its offset, the cursor just
      past it. */
  lemma PunctuationToken(s: seq<Byte>, p: nat, build: Build)
    requires p <= |s|
    requires WsEnd(s, p) < |s| && IsPunctuation(s[WsEnd(s, p)])
    ensures var q := WsEnd(s, p);
      && Next(s, p, build).result.Ok?
      && Next(s, p, build).result.value.kind == PunctuationType(s[q])
      && Next(s, p, build).result.value.text.bytes == [s[q]]
      && Next(s, p, build).pos == q + 1
  {
  }

  /** InvalidToken comes exactly from a byte that cannot start a token, reported
      where it stands with the cursor left there, or from a keyword mismatch. */
  lemma InvalidTokenCases(s: seq<Byte>, p: nat, build: Build)
    requires p <= |s|
    ensures var q := WsEnd(s, p);
      q < |s| && !StartsToken(s[q]) ==> Next(s, p, build) == Lexed(Fail(InvalidToken, q), q)
    ensures var q := WsEnd(s, p); var r := Next(s, p, build);
      r.result.Err? && r.result.error.code == InvalidToken ==>
        && q < |s| && r.result.error.offset == q
        && (!StartsToken(s[q]) || s[q] == 't' as int || s[q] == 'f' as int || s[q] == 'n' as int)
  {
  }

  // ----- the number grammar, independently of `read_number` -----

  predicate IsExpMark(c: Byte) {
    c == 'e' as int || c == 'E' as int
  }

  predicate DigitsBetween(s: seq<Byte>, i: nat, j: nat)
    requires i <= j <= |s|
  {
    forall m | i <= m < j :: IsDigit(s[m])
  }

  /** `s[i..j]` is `int = zero / ( digit1-9 *DIGIT )`. */
  predicate IntAt(s: seq<Byte>, i: nat, j: nat)
    requires i <= j <= |s|
  {
    i < j && (if s[i] == ZERO then j == i + 1 else IsDigit(s[i]) && DigitsBetween(s, i + 1, j))
  }

  /** `s[j..k]` is empty or `frac = decimal-point 1*DIGIT`. */
  predicate FracAt(s: seq<Byte>, j: nat, k: nat)
    requires j <= k <= |s|
  {
    k == j || (j + 2 <= k && s[j] == DOT && DigitsBetween(s, j + 1, k))
  }

  /** `s[k..b]` is empty or `exp = e [ minus / plus ] 1*DIGIT`. */
  predicate ExpAt(s: seq<Byte>, k: nat, b: nat)
    requires k <= b <= |s|
  {
    || b == k
    || (&& k + 2 <= b && IsExpMark(s[k])
        && var d := if s[k + 1] == PLUS || s[k + 1] == MINUS then k + 2 else k + 1;
           d < b && DigitsBetween(s, d, b))
  }

  /** `s[a..b]` splits at `i`, `j`, `k` into `[ minus ] int [ frac ] [ exp ]`. */
  predicate NumberParts(s: seq<Byte>, a: nat, i: nat, j: nat, k: nat, b: nat) {
    && a <= i <= j <= k <= b <= |s|
    && (i == a || (i == a + 1 && s[a] == MINUS))
    && IntAt(s, i, j) && FracAt(s, j, k) && ExpAt(s, k, b)
  }

  /** `s[a..b]` is a `number` of section 6 of RFC 8259. */
  ghost predicate IsNumberAt(s: seq<Byte>, a: nat, b: nat) {
    exists i: nat, j: nat, k: nat :: NumberParts(s, a, i, j, k, b)
  }

  /** A byte that could extend a number as `read_number` reads it. */
  predicate Extends(c: Byte) {
    IsDigit(c) || c == DOT || IsExpMark(c)
  }

  lemma {:induction false} DigitsEndExact(s: seq<Byte>, p: nat, q: nat)
    requires p <= q <= |s|
    requires DigitsBetween(s, p, q)
    requires q == |s| || !IsDigit(s[q])
    ensures DigitsEnd(s, p) == q
    decreases q - p
  {
    if p < q {
      DigitsEndExact(s, p + 1, q);
    }
  }

  lemma FractionSound(s: seq<Byte>, start: nat, p: nat) returns (q: nat)
    requires start < p <= |s|
    requires ReadFraction(s, start, p).result.Ok?
    ensures p <= q <= ReadFraction(s, start, p).pos
    ensures FracAt(s, p, q) && ExpAt(s, q, ReadFraction(s, start, p).pos)
  {
    if p < |s| && s[p] == DOT {
      q := DigitsEnd(s, p + 1);
    } else {
      q := p;
    }
  }

  /** What `read_number` accepts is a number of section 6 of RFC 8259, and its
      text is the input from the number's start to the cursor. */
  lemma ReadNumberSound(s: seq<Byte>, start: nat)
    requires start < |s|
    requires ReadNumber(s, start).result.Ok?
    ensures IsNumberAt(s, start, ReadNumber(s, start).pos)
    ensures ReadNumber(s, start).result.value.text.bytes == s[start..ReadNumber(s, start).pos]
  {
    var p := if s[start] == MINUS then start + 1 else start;
    var q := if s[p] == ZERO then p + 1 else DigitsEnd(s, p);
    var r := FractionSound(s, start, q);
    assert NumberParts(s, start, p, q, r, ReadNumber(s, start).pos);
  }

  lemma IntegerEnds(s: seq<Byte>, p: nat, j: nat, b: nat)
    requires p <= j <= b <= |s| && IntAt(s, p, j)
    requires j == b || s[j] == DOT || IsExpMark(s[j])
    requires b == |s| || !Extends(s[b])
    ensures (if s[p] == ZERO then p + 1 else DigitsEnd(s, p)) == j
  {
    if s[p] != ZERO {
      DigitsEndExact(s, p, j);
    }
  }

  lemma ExponentComplete(s: seq<Byte>, start: nat, k: nat, b: nat)
    requires start < k <= b <= |s| && ExpAt(s, k, b)
    requires b == |s| || !Extends(s[b])
    ensures ReadExponent(s, start, k) == Lexed(Ok(NumberToken(s, start, b)), b)
  {
    if k < b {
      var d := if s[k + 1] == PLUS || s[k + 1] == MINUS then k + 2 else k + 1;
      DigitsEndExact(s, d, b);
    }
  }

  lemma FractionComplete(s: seq<Byte>, start: nat, j: nat, k: nat, b: nat)
    requires start < j <= k <= b <= |s| && FracAt(s, j, k) && ExpAt(s, k, b)
    requires b == |s| || !Extends(s[b])
    ensures ReadFraction(s, start, j) == Lexed(Ok(NumberToken(s, start, b)), b)
  {
    if j < k {
      DigitsEndExact(s, j + 1, k);
    }
    ExponentComplete(s, start, k, b);
  }

  /** Maximal munch: a number at `start` not followed by a byte that could extend
      it is read whole, and the cursor stops right after it. */
  lemma ReadNumberComplete(s: seq<Byte>, start: nat, i: nat, j: nat, k: nat, end: nat)
    requires NumberParts(s, start, i, j, k, end)
    requires end == |s| || !Extends(s[end])
    ensures ReadNumber(s, start) == Lexed(Ok(NumberToken(s, start, end)), end)
  {
    IntegerEnds(s, i, j, end);
    FractionComplete(s, start, j, k, end);
  }

  /** A leading zero ends the integer part: `01` lexes as the number `0`. */
  lemma LeadingZero()
    ensures ReadNumber(Ascii("01"), 0) == Lexed(Ok(Token(Number, Ast.Slice(0, Ascii("0")), 0)), 1)
  {
    var s := Ascii("01");
    assert NumberToken(s, 0, 1).text.bytes == s[0..1] == Ascii("0");
  }

  /** A minus sign with no digit after it is InvalidNumber at the number's start. */
  lemma BareMinus()
    ensures ReadNumber(Ascii("-x"), 0).result == Fail(InvalidNumber, 0)
  {
  }

  // ----- what read_number rejects -----

  /** Where the integer part's digits start: after an optional minus sign. */
  function SignEnd(s: seq<Byte>, a: nat): nat
    requires a < |s|
  {
    if s[a] == MINUS then a + 1 else a
  }

  /** Where an exponent's digits start, the `e` or `E` being at `k`: after an
      optional sign. */
  function ExpDigitsStart(s: seq<Byte>, k: nat): nat
    requires k < |s|
  {
    if k + 1 < |s| && (s[k + 1] == PLUS || s[k + 1] == MINUS) then k + 2 else k + 1
  }

  /** No digit at `p`: the input ends there or holds something else. */
  predicate NoDigitAt(s: seq<Byte>, p: nat) {
    p >= |s| || !IsDigit(s[p])
  }

  /** A number whose part starts but has no digit: the integer part after the
      sign, the fraction after its `.`, or the exponent after its `e[+-]`. */
  ghost predicate Malformed(s: seq<Byte>, a: nat)
    requires a < |s|
  {
    var i := SignEnd(s, a);
    || NoDigitAt(s, i)
    || (exists j: nat | i <= j < |s| :: IntAt(s, i, j) && s[j] == DOT && NoDigitAt(s, j + 1))
    || (exists j: nat, k: nat | i <= j <= k < |s| ::
          IntAt(s, i, j) && FracAt(s, j, k) && IsExpMark(s[k]) && NoDigitAt(s, ExpDigitsStart(s, k)))
  }

  /** A minus sign, or nothing, with no digit after it. */
  lemma SignWithoutDigit(s: seq<Byte>, a: nat)
    requires a < |s| && NoDigitAt(s, SignEnd(s, a))
    ensures ReadNumber(s, a) == Lexed(Fail(InvalidNumber, a), SignEnd(s, a))
  {
  }

  /** The integer part of `read_number` ends where the grammar's does, at a byte
      that is not a digit. */
  lemma IntegerPartEnds(s: seq<Byte>, i: nat, j: nat)
    requires i <= j < |s| && IntAt(s, i, j) && !IsDigit(s[j])
    ensures (if s[i] == ZERO then i + 1 else DigitsEnd(s, i)) == j
  {
    if s[i] != ZERO {
      DigitsEndExact(s, i, j);
    }
  }

  /** An integer part followed by a `.` with no digit after it. */
  lemma FractionWithoutDigit(s: seq<Byte>, a: nat, j: nat)
    requires a < |s| && SignEnd(s, a) <= j < |s| && IntAt(s, SignEnd(s, a), j)
    requires s[j] == DOT && NoDigitAt(s, j + 1)
    ensures ReadNumber(s, a) == Lexed(Fail(InvalidNumber, a), j + 1)
  {
    IntegerPartEnds(s, SignEnd(s, a), j);
  }

  /** An integer part and a fraction followed by `e` or `E`, an optional sign, and
      no digit. */
  lemma ExponentWithoutDigit(s: seq<Byte>, a: nat, j: nat, k: nat)
    requires a < |s| && SignEnd(s, a) <= j <= k < |s|
    requires IntAt(s, SignEnd(s, a), j) && FracAt(s, j, k)
    requires IsExpMark(s[k]) && NoDigitAt(s, ExpDigitsStart(s, k))
    ensures ReadNumber(s, a) == Lexed(Fail(InvalidNumber, a), ExpDigitsStart(s, k))
  {
    IntegerPartEnds(s, SignEnd(s, a), j);
    assert ReadNumber(s, a) == ReadFraction(s, a, j);
    FractionReaches(s, a, j, k);
    assert ReadExponent(s, a, k) == Lexed(Fail(InvalidNumber, a), ExpDigitsStart(s, k));
  }

  /** A fraction ending before a byte that is not a digit hands over to the
      exponent part there. */
  lemma FractionReaches(s: seq<Byte>, a: nat, j: nat, k: nat)
    requires a < j <= k < |s| && FracAt(s, j, k) && !IsDigit(s[k])
    requires j == k ==> s[j] != DOT
    ensures ReadFraction(s, a, j) == ReadExponent(s, a, k)
  {
    if j < k {
      DigitsEndExact(s, j + 1, k);
    }
  }

  /** `read_number` fails exactly on a malformed number, whatever follows it. */
  lemma ReadNumberRejects(s: seq<Byte>, a: nat)
    requires a < |s|
    ensures ReadNumber(s, a).result.Err? <==> Malformed(s, a)
  {
    if Malformed(s, a) {
      MalformedRejected(s, a);
    } else if ReadNumber(s, a).result.Err? {
      RejectedMalformed(s, a);
    }
  }

  lemma MalformedRejected(s: seq<Byte>, a: nat)
    requires a < |s| && Malformed(s, a)
    ensures ReadNumber(s, a).result == Fail(InvalidNumber, a)
  {
    var i := SignEnd(s, a);
    if NoDigitAt(s, i) {
      SignWithoutDigit(s, a);
    } else if exists j: nat | i <= j < |s| :: IntAt(s, i, j) && s[j] == DOT && NoDigitAt(s, j + 1) {
      var j: nat :| i <= j < |s| && IntAt(s, i, j) && s[j] == DOT && NoDigitAt(s, j + 1);
      FractionWithoutDigit(s, a, j);
    } else {
      var j: nat, k: nat :| i <= j <= k < |s| && IntAt(s, i, j) && FracAt(s, j, k)
        && IsExpMark(s[k]) && NoDigitAt(s, ExpDigitsStart(s, k));
      ExponentWithoutDigit(s, a, j, k);
    }
  }

  lemma RejectedMalformed(s: seq<Byte>, a: nat)
    requires a < |s| && ReadNumber(s, a).result.Err?
    ensures Malformed(s, a)
  {
    var i := SignEnd(s, a);
    if !NoDigitAt(s, i) {
      var j := if s[i] == ZERO then i + 1 else DigitsEnd(s, i);
      assert IntAt(s, i, j);
      assert ReadNumber(s, a) == ReadFraction(s, a, j);
      if j < |s| && s[j] == DOT && NoDigitAt(s, j + 1) {
        assert IntAt(s, i, j) && s[j] == DOT && NoDigitAt(s, j + 1);
      } else {
        var k := if j < |s| && s[j] == DOT then DigitsEnd(s, j + 1) else j;
        assert FracAt(s, j, k);
        assert ReadFraction(s, a, j) == ReadExponent(s, a, k);
        assert k < |s| && IsExpMark(s[k]) && NoDigitAt(s, ExpDigitsStart(s, k));
        assert IntAt(s, i, j) && FracAt(s, j, k);
      }
    }
  }

  /** `1.`: a fraction needs a digit. */
  lemma TrailingDot()
    ensures ReadNumber(Ascii("1."), 0).result == Fail(InvalidNumber, 0)
  {
  }

  /** `1e+`: an exponent needs a digit after its sign. */
  lemma BareExponentSign()
    ensures ReadNumber(Ascii("1e+"), 0).result == Fail(InvalidNumber, 0)
  {
  }

  // ----- the two string scanners -----

  /** The raw scanner of src/json/tokenizer.cpp stops where pass 1 of the unescaping
      one does: the same closing quote, the same error. */
  lemma {:induction false} RawScanAgrees(s: seq<Byte>, start: nat, p: nat, escapes: bool)
    requires start < p <= |s|
    ensures Scan(s, start, p, escapes).Ok? ==>
      var close := Scan(s, start, p, escapes).value.close;
      RawScan(s, start, p) == Lexed(Ok(Token(String, Ast.Slice(start, s[start..close + 1]), start)), close + 1)
    ensures Scan(s, start, p, escapes).Err? ==> RawScan(s, start, p).result == Err(Scan(s, start, p, escapes).error)
    decreases |s| - p
  {
    if p < |s| && s[p] != QUOTE {
      if s[p] == BACKSLASH {
        if p + 1 < |s| {
          RawScanAgrees(s, start, p + 2, true);
        }
      } else {
        RawScanAgrees(s, start, p + 1, escapes);
      }
    }
  }

  /** On a string without a backslash both builds return the same token and cursor;
      with one, the raw build still ends at the same quote, or fails the same way. */
  lemma RawStringAgrees(s: seq<Byte>, start: nat)
    requires start < |s| && s[start] == QUOTE
    ensures !NeedsArena(s, start) && Scan(s, start, start + 1, false).Ok? ==>
      ReadRawString(s, start) == ReadString(s, start)
    ensures Scan(s, start, start + 1, false).Err? ==>
      ReadRawString(s, start).result == ReadString(s, start).result
    ensures ReadString(s, start).result.Ok? ==>
      ReadRawString(s, start).result.Ok? && ReadRawString(s, start).pos == ReadString(s, start).pos
  {
    RawScanAgrees(s, start, start + 1, false);
  }

  // ----- the closing quote of pass 1 -----

  /** The number of backslashes right before `k`, counting back no further than
      `i`. */
  function BackslashRun(s: seq<Byte>, i: nat, k: nat): nat
    requires i <= k <= |s|
    decreases k - i
  {
    if i < k && s[k - 1] == BACKSLASH then 1 + BackslashRun(s, i, k - 1) else 0
  }

  /** The byte at `k` is not escaped, in a string whose content starts at `i`: an
      even number of backslashes precedes it. */
  predicate Unescaped(s: seq<Byte>, i: nat, k: nat)
    requires i <= k <= |s|
  {
    BackslashRun(s, i, k) % 2 == 0
  }

  lemma {:induction false} RunPastPlain(s: seq<Byte>, i: nat, k: nat)
    requires i < k <= |s| && s[i] != BACKSLASH
    ensures BackslashRun(s, i, k) == BackslashRun(s, i + 1, k)
    decreases k - i
  {
    if i + 1 < k && s[k - 1] == BACKSLASH {
      RunPastPlain(s, i, k - 1);
    }
  }

  lemma {:induction false} RunPastEscape(s: seq<Byte>, i: nat, k: nat)
    requires i + 2 <= k <= |s| && s[i] == BACKSLASH
    ensures BackslashRun(s, i, k) % 2 == BackslashRun(s, i + 2, k) % 2
    decreases k - i
  {
    if k == i + 2 {
      assert BackslashRun(s, i, i + 1) == 1;
    } else if s[k - 1] == BACKSLASH {
      RunPastEscape(s, i, k - 1);
    }
  }

  /** Pass 1 stops at the first quote that is not escaped, and reports a backslash
      exactly when the content has one; it fails only when every quote after the
      opening one is escaped. */
  lemma {:induction false} ScanFindsUnescapedQuote(s: seq<Byte>, start: nat, i: nat, escapes: bool)
    requires i <= |s|
    ensures var r := Scan(s, start, i, escapes);
      r.Ok? ==>
        && Unescaped(s, i, r.value.close)
        && (forall k | i <= k < r.value.close && s[k] == QUOTE :: !Unescaped(s, i, k))
        && r.value.escapes == (escapes || BACKSLASH in s[i..r.value.close])
    ensures Scan(s, start, i, escapes).Err? ==>
      forall k | i <= k < |s| && s[k] == QUOTE :: !Unescaped(s, i, k)
    decreases |s| - i
  {
    if i < |s| && s[i] != QUOTE {
      if s[i] == BACKSLASH {
        if i + 1 < |s| {
          ScanFindsUnescapedQuote(s, start, i + 2, true);
          var r := Scan(s, start, i + 2, true);
          var end := if r.Ok? then r.value.close + 1 else |s|;
          forall k | i + 2 <= k < end
            ensures Unescaped(s, i, k) == Unescaped(s, i + 2, k)
          {
            RunPastEscape(s, i, k);
          }
          assert BackslashRun(s, i, i + 1) == 1;
          if r.Ok? {
            assert s[i] == BACKSLASH && s[i..r.value.close][0] == s[i];
          }
        }
      } else {
        ScanFindsUnescapedQuote(s, start, i + 1, escapes);
        var r := Scan(s, start, i + 1, escapes);
        var end := if r.Ok? then r.value.close + 1 else |s|;
        forall k | i + 1 <= k < end
          ensures Unescaped(s, i, k) == Unescaped(s, i + 1, k)
        {
          RunPastPlain(s, i, k);
        }
        if r.Ok? {
          assert s[i..r.value.close] == [s[i]] + s[i + 1..r.value.close];
        }
      }
    }
  }

  /** The zero-copy path for any input: with no backslash and no quote between the
      opening quote and the quote at `c`, the token is the input slice through `c`
      in both builds, and the cursor is just past it. */
  lemma FastPathSlice(s: seq<Byte>, start: nat, c: nat)
    requires start < c < |s| && s[c] == QUOTE
    requires forall k | start < k < c :: s[k] != QUOTE && s[k] != BACKSLASH
    ensures ReadString(s, start) == Lexed(Ok(Token(String, Ast.Slice(start, s[start..c + 1]), start)), c + 1)
    ensures ReadRawString(s, start) == ReadString(s, start)
  {
    PlainScan(s, start, c);
    RawScanAgrees(s, start, start + 1, false);
  }

  /** Pass 1 over such a string ends at `c` and sees no backslash. */
  lemma PlainScan(s: seq<Byte>, start: nat, c: nat)
    requires start < c < |s| && s[c] == QUOTE
    requires forall k | start < k < c :: s[k] != QUOTE && s[k] != BACKSLASH
    ensures Scan(s, start, start + 1, false) == Ok(Scanned(c, false))
  {
    ScanFindsUnescapedQuote(s, start, start + 1, false);
    assert BackslashRun(s, start + 1, c) == 0;
    var r := Scan(s, start, start + 1, false);
    assert r.Ok?;
    assert r.value.close == c;
    assert BACKSLASH !in s[start + 1..c];
  }

  // ----- pass 2 of read_string -----

  /** No quote lies among four hexadecimal digits. */
  lemma QuoteNotInQuad(s: seq<Byte>, d: nat, close: nat)
    requires d + 4 <= |s| && close < |s| && s[close] == QUOTE
    requires HexQuad(s[d..d + 4]) >= 0
    ensures close < d || d + 4 <= close
  {
  }

  /** The digits of a `\\u` escape (pair) that decodes, read from `d` at or before the
      closing quote, end before it. */
  lemma CodepointBeforeQuote(s: seq<Byte>, d: nat, close: nat)
    requires d <= close < |s| && s[close] == QUOTE
    requires EscapedCodepoint(s, d).Ok?
    ensures EscapedCodepoint(s, d).value.1 < close
  {
    QuoteNotInQuad(s, d, close);
    var cp := HexQuad(s[d..d + 4]);
    if 0xD800 <= cp <= 0xDBFF {
      QuoteNotInQuad(s, d + 6, close);
    }
  }

  /** An escape that unescapes ends before the closing quote found by pass 1, though
      `\\u` digits are read against the end of the whole input. */
  lemma EscapeBeforeQuote(s: seq<Byte>, r: nat, close: nat)
    requires r < close < |s| && s[close] == QUOTE
    requires EscapeAt(s, r, close).Ok?
    ensures EscapeAt(s, r, close).value.next <= close
  {
    var e := r + 1;
    if SimpleEscape(s[e]) < 0 {
      CodepointBeforeQuote(s, e + 1, close);
    }
  }

  /** The unescaped content is never longer than the escaped one, so the buffer of
      `content_size * 4 + 3` bytes always suffices. */
  lemma {:induction false} UnescapeShrinks(s: seq<Byte>, r: nat, close: nat)
    requires r <= close < |s| && s[close] == QUOTE
    requires Unescape(s, r, close).Ok?
    ensures |Unescape(s, r, close).value| <= close - r
    decreases close - r
  {
    if r < close {
      if s[r] != BACKSLASH {
        UnescapeShrinks(s, r + 1, close);
      } else {
        EscapeBeforeQuote(s, r, close);
        UnescapeShrinks(s, EscapeAt(s, r, close).value.next, close);
      }
    }
  }

  /** The "Invalid codepoint" error of `read_string` is never produced: four digits
      denote at most U+FFFF and a surrogate pair at most U+10FFFF. */
  lemma NoInvalidCodepoint(s: seq<Byte>, d: nat)
    ensures UnicodeEscape(s, d).Err? ==> UnicodeEscape(s, d).error.message != "Invalid codepoint"
  {
  }

  /** A surrogate pair combines to U+10000..U+10FFFF, section 7 of RFC 8259. */
  lemma SurrogatePairRange(hi: int, lo: int)
    requires 0xD800 <= hi <= 0xDBFF && 0xDC00 <= lo <= 0xDFFF
    ensures 0x10000 <= CombineSurrogates(hi, lo) <= 0x10FFFF
  {
  }

  /** The four outcomes of one escape sequence: a one-letter escape stands for its
      byte; `\\u` is a code point as UTF-8; any other byte is "Unknown escape
      sequence" where it stands; a backslash right before the closing quote is
      InvalidEscape just after it. */
  lemma EscapeCases(s: seq<Byte>, r: nat, close: nat)
    requires r < close < |s|
    ensures r + 1 == close ==> EscapeAt(s, r, close) == Fail(InvalidEscape, r + 1)
    ensures r + 1 < close && SimpleEscape(s[r + 1]) >= 0 ==>
      EscapeAt(s, r, close) == Ok(Piece([SimpleEscape(s[r + 1]) as Byte], r + 2))
    ensures r + 1 < close && s[r + 1] == 'u' as int ==> EscapeAt(s, r, close) == UnicodeEscape(s, r + 2)
    ensures r + 1 < close && SimpleEscape(s[r + 1]) < 0 && s[r + 1] != 'u' as int ==>
      EscapeAt(s, r, close) == Err(Error(InvalidEscape, r + 1, "Unknown escape sequence"))
  {
  }

  /** A `\\u` escape, `d` just after the `u`: four hex digits are needed; a high
      surrogate needs `\\u` and a low surrogate right after it, and the pair
      combines as section 7 of RFC 8259 says; anything else is the code point
      itself. */
  lemma CodepointCases(s: seq<Byte>, d: nat)
    ensures d + 3 >= |s| ==> EscapedCodepoint(s, d) == Fail(InvalidEscape, d)
    ensures d + 3 < |s| && HexQuad(s[d..d + 4]) < 0 ==>
      EscapedCodepoint(s, d) == Err(Error(InvalidEscape, d, "Invalid unicode escape sequence"))
    ensures d + 3 < |s| && 0 <= HexQuad(s[d..d + 4]) && !(0xD800 <= HexQuad(s[d..d + 4]) <= 0xDBFF) ==>
      EscapedCodepoint(s, d) == Ok((HexQuad(s[d..d + 4]), d + 3))
    ensures d + 3 < |s| && 0xD800 <= HexQuad(s[d..d + 4]) <= 0xDBFF ==>
      (EscapedCodepoint(s, d).Ok? <==>
         d + 9 < |s| && s[d + 4] == BACKSLASH && s[d + 5] == 'u' as int
         && 0xDC00 <= HexQuad(s[d + 6..d + 10]) <= 0xDFFF)
    ensures d + 3 < |s| && 0xD800 <= HexQuad(s[d..d + 4]) <= 0xDBFF && EscapedCodepoint(s, d).Ok? ==>
      EscapedCodepoint(s, d).value
        == (CombineSurrogates(HexQuad(s[d..d + 4]), HexQuad(s[d + 6..d + 10])), d + 9)
    ensures d + 3 < |s| && 0xD800 <= HexQuad(s[d..d + 4]) <= 0xDBFF ==>
      (d + 9 >= |s| || s[d + 4] != BACKSLASH || s[d + 5] != 'u' as int) ==>
        EscapedCodepoint(s, d) == Err(Error(InvalidEscape, d + 4, "Missing low surrogate"))
    ensures (&& d + 9 < |s| && 0xD800 <= HexQuad(s[d..d + 4]) <= 0xDBFF
             && s[d + 4] == BACKSLASH && s[d + 5] == 'u' as int
             && !(0xDC00 <= HexQuad(s[d + 6..d + 10]) <= 0xDFFF)) ==>
        EscapedCodepoint(s, d) == Err(Error(InvalidEscape, d + 6, "Invalid low surrogate"))
  {
  }

  /** The bytes a `\\u` escape is unescaped to are the UTF-8 encoding of its code
      point, and decode back to it; it fails exactly when the code point does. */
  lemma UnicodeEscapeBytes(s: seq<Byte>, d: nat)
    ensures UnicodeEscape(s, d).Ok? <==> EscapedCodepoint(s, d).Ok?
    ensures UnicodeEscape(s, d).Err? ==> UnicodeEscape(s, d).error == EscapedCodepoint(s, d).error
    ensures UnicodeEscape(s, d).Ok? ==>
      var cp := EscapedCodepoint(s, d).value.0;
      && UnicodeEscape(s, d).value == Piece(EncodeUtf8(cp), EscapedCodepoint(s, d).value.1 + 1)
      && DecodeUtf8(UnicodeEscape(s, d).value.bytes) == cp
  {
    if EscapedCodepoint(s, d).Ok? {
      Utf8RoundTrip(EscapedCodepoint(s, d).value.0);
    }
  }

  // ----- worked examples -----

  /** Content that is one escape sequence unescapes to that sequence's bytes. */
  lemma SingleEscape(s: seq<Byte>, r: nat, close: nat, out: seq<Byte>)
    requires r < close < |s| && s[r] == BACKSLASH
    requires EscapeAt(s, r, close) == Ok(Piece(out, close))
    ensures Unescape(s, r, close) == Ok(out)
  {
    assert Unescape(s, close, close) == Ok([]);
    assert out + [] == out;
  }

  /** A string whose first pass finds a backslash is its unescaped content between
      quotes, and reading resumes after the closing quote. */
  lemma SlowPathString(s: seq<Byte>, start: nat, close: nat, out: seq<Byte>)
    requires start < |s|
    requires Scan(s, start, start + 1, false) == Ok(Scanned(close, true))
    requires Unescape(s, start + 1, close) == Ok(out)
    ensures ReadString(s, start) == Lexed(Ok(Token(String, Ast.Owned([QUOTE] + out + [QUOTE]), start)), close + 1)
  {
  }

  /** The bytes of `"\uXXXX"` with the four digits `hex`, one by one. */
  predicate UnicodeSampleBytes(s: seq<Byte>, hex: seq<Byte>) {
    && |hex| == 4 && |s| == 8 && s[0] == QUOTE && s[1] == BACKSLASH && s[2] == 'u' as int
    && s[3] == hex[0] && s[4] == hex[1] && s[5] == hex[2] && s[6] == hex[3] && s[7] == QUOTE
  }

  /** The first pass over such a string finds its closing quote and a backslash. */
  lemma UnicodeSampleScan(s: seq<Byte>, hex: seq<Byte>)
    requires UnicodeSampleBytes(s, hex) && forall k | 0 <= k < 4 :: IsHexDigit(hex[k])
    ensures Scan(s, 0, 1, false) == Ok(Scanned(7, true))
    ensures s[3..7] == hex
  {
    assert s[3..7] == hex;
    assert Scan(s, 0, 7, true) == Ok(Scanned(7, true));
    assert Scan(s, 0, 6, true) == Ok(Scanned(7, true));
    assert Scan(s, 0, 5, true) == Ok(Scanned(7, true));
    assert Scan(s, 0, 4, true) == Ok(Scanned(7, true));
    assert Scan(s, 0, 3, true) == Ok(Scanned(7, true));
  }

  /** `"\u00e9"` unescapes to the two UTF-8 bytes of U+00E9. */
  lemma EscapeLatin(s: seq<Byte>)
    requires UnicodeSampleBytes(s, Ascii("00e9"))
    ensures ReadString(s, 0) == Lexed(Ok(Token(String, Ast.Owned([QUOTE, 0xC3, 0xA9, QUOTE]), 0)), 8)
  {
    UnicodeSampleScan(s, Ascii("00e9"));
    assert HexQuad(s[3..7]) == 0xE9;
    assert EncodeUtf8(0xE9) == [0xC3, 0xA9];
    assert EscapeAt(s, 1, 7) == Ok(Piece([0xC3, 0xA9], 7));
    SingleEscape(s, 1, 7, [0xC3, 0xA9]);
    SlowPathString(s, 0, 7, [0xC3, 0xA9]);
    assert [QUOTE] + [0xC3, 0xA9] + [QUOTE] == [QUOTE, 0xC3, 0xA9, QUOTE];
  }

  /** The bytes of `"\ud83d\ude00"`, a string holding one surrogate pair escape,
      one by one. */
  predicate PairSampleBytes(s: seq<Byte>) {
    && |s| == 14 && s[0] == QUOTE && s[1] == BACKSLASH && s[2] == 'u' as int
    && s[3] == 'd' as int && s[4] == '8' as int && s[5] == '3' as int && s[6] == 'd' as int
    && s[7] == BACKSLASH && s[8] == 'u' as int
    && s[9] == 'd' as int && s[10] == 'e' as int && s[11] == '0' as int && s[12] == '0' as int
    && s[13] == QUOTE
  }

  lemma PairSampleCodepoint(s: seq<Byte>)
    requires PairSampleBytes(s)
    ensures EscapedCodepoint(s, 3) == Ok((0x1F600, 12))
  {
    assert s[3..7] == Ascii("d83d");
    assert s[9..13] == Ascii("de00");
    assert HexQuad(s[3..7]) == 0xD83D;
    assert HexQuad(s[9..13]) == 0xDE00;
  }

  lemma PairSampleScan(s: seq<Byte>)
    requires PairSampleBytes(s)
    ensures Scan(s, 0, 1, false) == Ok(Scanned(13, true))
  {
    assert Scan(s, 0, 13, true) == Ok(Scanned(13, true));
    assert Scan(s, 0, 12, true) == Ok(Scanned(13, true));
    assert Scan(s, 0, 11, true) == Ok(Scanned(13, true));
    assert Scan(s, 0, 10, true) == Ok(Scanned(13, true));
    assert Scan(s, 0, 9, true) == Ok(Scanned(13, true));
    assert Scan(s, 0, 7, true) == Ok(Scanned(13, true));
    assert Scan(s, 0, 6, true) == Ok(Scanned(13, true));
    assert Scan(s, 0, 5, true) == Ok(Scanned(13, true));
    assert Scan(s, 0, 4, true) == Ok(Scanned(13, true));
    assert Scan(s, 0, 3, true) == Ok(Scanned(13, true));
  }

  lemma PairSampleUnescape(s: seq<Byte>)
    requires PairSampleBytes(s)
    ensures Unescape(s, 1, 13) == Ok([0xF0, 0x9F, 0x98, 0x80])
  {
    PairSampleCodepoint(s);
    assert EncodeUtf8(0x1F600) == [0xF0, 0x9F, 0x98, 0x80];
    assert EscapeAt(s, 1, 13) == Ok(Piece([0xF0, 0x9F, 0x98, 0x80], 13));
    SingleEscape(s, 1, 13, [0xF0, 0x9F, 0x98, 0x80]);
  }

  /** The surrogate pair unescapes to the four UTF-8 bytes of U+1F600. */
  lemma EscapeSurrogatePair(s: seq<Byte>)
    requires PairSampleBytes(s)
    ensures ReadString(s, 0)
      == Lexed(Ok(Token(String, Ast.Owned([QUOTE, 0xF0, 0x9F, 0x98, 0x80, QUOTE]), 0)), 14)
  {
    PairSampleScan(s);
    PairSampleUnescape(s);
    SlowPathString(s, 0, 13, [0xF0, 0x9F, 0x98, 0x80]);
    assert [QUOTE] + [0xF0, 0x9F, 0x98, 0x80] + [QUOTE] == [QUOTE, 0xF0, 0x9F, 0x98, 0x80, QUOTE];
  }

  /** `"\udc00"`: a low surrogate on its own is not checked and is encoded as it
      is. */
  lemma LoneLowSurrogate(s: seq<Byte>)
    requires UnicodeSampleBytes(s, Ascii("dc00"))
    ensures ReadString(s, 0) == Lexed(Ok(Token(String, Ast.Owned([QUOTE, 0xED, 0xB0, 0x80, QUOTE]), 0)), 8)
  {
    UnicodeSampleScan(s, Ascii("dc00"));
    assert HexQuad(s[3..7]) == 0xDC00;
    assert EncodeUtf8(0xDC00) == [0xED, 0xB0, 0x80];
    assert EscapeAt(s, 1, 7) == Ok(Piece([0xED, 0xB0, 0x80], 7));
    SingleEscape(s, 1, 7, [0xED, 0xB0, 0x80]);
    SlowPathString(s, 0, 7, [0xED, 0xB0, 0x80]);
    assert [QUOTE] + [0xED, 0xB0, 0x80] + [QUOTE] == [QUOTE, 0xED, 0xB0, 0x80, QUOTE];
  }

  /** `"\x"` is an unknown escape, reported at the escape character. */
  lemma UnknownEscape()
    ensures ReadString(Ascii("\"\\x\""), 0)
      == Lexed(Err(Error(InvalidEscape, 2, "Unknown escape sequence")), 1)
  {
    var s := Ascii("\"\\x\"");
    assert EscapeAt(s, 1, 3) == Err(Error(InvalidEscape, 2, "Unknown escape sequence"));
  }

  /** A high surrogate not followed by `\u` is "Missing low surrogate" just after
      its digits. */
  lemma MissingLowSurrogate()
    ensures ReadString(Ascii("\"\\ud83dxxxxxx\""), 0).result
      == Err(Error(InvalidEscape, 7, "Missing low surrogate"))
  {
    var s := Ascii("\"\\ud83dxxxxxx\"");
    assert s[3..7] == Ascii("d83d");
    assert HexQuad(s[3..7]) == 0xD83D;
    assert EscapeAt(s, 1, 13) == Err(Error(InvalidEscape, 7, "Missing low surrogate"));
  }
}
