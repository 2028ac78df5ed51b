# cpp_json core, modelled in Dafny

This project models the parse pipeline of the cpp_json library, together with its
serialiser and tree-building helpers, and proves properties of the model:

- **Byte tokenizer.** One `next()` call yields one token. Strings are read in two
  passes. A string without a backslash becomes a zero-copy slice of the input. A
  string with one is unescaped into an arena buffer, and `\uXXXX` escapes, surrogate
  pairs included, are decoded to UTF-8 (RFC 3629, section 3).
- **Arena-less tokenizer variant.** Its string tokens are raw input slices.
- **Recursive-descent parser.** It keeps one token of lookahead and a depth limit of
  256. It rejects trailing content and keeps duplicate keys.
- **Bump-pointer arena.**
- **Node tagged union and its factories.**
- **Compact and pretty writer.**
- **Array and object builders.**
- **`count_nodes`**, the tree census of the `json-reader` tool.

The number, keyword, whitespace and string grammars follow sections 2, 6 and 7 of
RFC 8259.

Modules and files:

| file | module | models |
|---|---|---|
| bytes.dfy | `Bytes` | bytes as `0..255`, character constants, `Ascii` |
| errors.dfy | `Errors` | `ErrorCode`, `Error(code, offset, message)`, `Result`, `Option` |
| unicode.dfy | `Unicode` | `hex_to_int`, `decode_unicode_escape`, `encode_utf8` |
| lexer.dfy | `Lexer` | token grammar as functions: `next`, `read_string` (both builds), `read_number`, `read_keyword` |
| tokenizer.dfy | `Tokenizing` | class `Tokenizer` (fields `input`, `pos`, arena) whose methods match `Lexer` |
| lexer_props.dfy | `LexerProperties` | number grammar, string/escape laws, worked examples |
| ast.dfy | `Ast` | `NodeType`, `Str` (input slice or arena-owned bytes), `Node`, `Pair`, `make_*`, `view()` |
| arena.dfy | `Arena` | class `Arena`: blocks as sizes, addresses as (block, offset), `alloc`, `reset` |
| grammar.dfy | `Grammar` | the parser as functions over a lookahead state `PState(pos, la)` |
| parser.dfy | `Parsing` | class `Parser` (fields `current`, `hasCurrent`, `depth`) whose methods match `Grammar` |
| grammar_props.dfy | `GrammarProperties` | depth bound and order of children for every input |
| parser_props.dfy | `ParserProperties` | step laws of the parser, nesting limit, worked examples |
| writer.dfy | `Writing` | class `Writer` (field `indent`) appending to an output; `Render` is its specification |
| writer_props.dfy | `WriterProperties` | compact layout, pretty layout, examples |
| roundtrip.dfy | `StringRoundTrip` | the writer's string output read back by the tokenizer |
| builder.dfy | `Building` | `arena_copy_string`, classes `ArrayBuilder` / `ObjectBuilder`, `build_array`, `make_*(arena)` |
| stats.dfy | `Stats` | `count_nodes` over a `Counters` object, and an independent `Census` |

About the modelling:

- **Tokenizer.** The tokenizer's `next()` reads through `Env.lex`. `Grammar.TokenizerEnv`
  instantiates it with `Lexer.Next`, so the parser's proofs hold for any token source
  that agrees with the lexer on token positions.
- **Tokenizer builds.** One `Tokenizer` class stands for both builds of the class
  (src/tokenizer.cpp and src/json/tokenizer.cpp), which cannot be linked together.
  Its constant `build` selects which one runs: `Unescaping` with an arena, or
  `RawSlices`.
- **String storage.** A string value is `Slice(start, bytes)` of the input or
  `Owned(bytes)` in the arena. The bytes are kept in both cases, so they can be
  compared without the input; `Ast.SliceOf` ties a slice to its input.

## Model

| member | source | states |
|---|---|---|
| Unicode.HexToInt | src/tokenizer.cpp:9-14 | result is in -1..15, and is non-negative exactly for `[0-9a-fA-F]` |
| Unicode.HexQuad | src/tokenizer.cpp:17-25 | four digits, most significant first, give a value in 0..0xFFFF exactly when all four are hex; otherwise -1 |
| Unicode.DecodeUnicodeEscape | src/tokenizer.cpp:17-25 | the 4-step accumulator loop computes `HexQuad` of the four bytes |
| Unicode.EncodeUtf8 | src/tokenizer.cpp:28-49 | emits 1, 2, 3 or 4 bytes for code points below 0x80, 0x800, 0x10000 and 0x110000, and none above; ASCII maps to itself |
| Unicode.Utf8RoundTrip | src/tokenizer.cpp:28-49 | decoding the bytes written gives the code point back, for every code point in range (RFC 3629 bit patterns) |
| Unicode.EncodeUtf8Into | src/tokenizer.cpp:28-49 | writes `EncodeUtf8(cp)` into the buffer at the cursor and returns its length, at most 4 |
| Unicode.LowerHexDigit | src/writer.cpp:107-110 | the digit written for a nibble is a hex digit |
| Unicode.HexDigitsRoundTrip | src/writer.cpp:107-110 | `hex_to_int` reads a lower-case or upper-case digit back to its nibble |
| Lexer.WsEnd | src/tokenizer.cpp:51-60 | skips exactly the maximal run of space, tab, LF and CR |
| Lexer.DigitsEnd | src/tokenizer.cpp:242-244 | skips exactly the maximal run of `0-9` |
| Lexer.Next | src/tokenizer.cpp:62-91 | never moves past the input; an Ok token starts at the first non-blank byte, with a kind that byte dispatches to; a slice token is exactly the input from its offset to the cursor, and only the unescaping build returns owned text, for a string with an escape (`Lexer.StringText`) |
| Lexer.MatchLen | src/tokenizer.cpp:278-291 | the length of the longest common prefix of the input at the cursor and the keyword |
| Lexer.ReadKeyword | src/tokenizer.cpp:278-291 | succeeds exactly when the keyword is at the cursor, then gives a slice token and moves the cursor by the keyword's length |
| Lexer.ReadNumber | src/tokenizer.cpp:228-276 | Ok is a number token over `input[start..pos)`; every failure is InvalidNumber at the number's start |
| Lexer.ReadFraction | src/tokenizer.cpp:247-276 | the same for the `.digits` part |
| Lexer.ReadExponent | src/tokenizer.cpp:259-276 | the same for the `e[+-]digits` part |
| Lexer.Scan | src/tokenizer.cpp:101-124 | Ok ends at a quote at or after the start, and a backslash once seen stays reported; it fails with InvalidEscape on a trailing backslash, else InvalidString at the opening quote (which quote it is: `LexerProperties.ScanFindsUnescapedQuote`) |
| Lexer.SimpleEscape | src/tokenizer.cpp:155-163 | gives the byte of a one-letter escape, or -1 |
| Lexer.EscapeAt | src/tokenizer.cpp:147-211 | one escape consumes input and writes no more bytes than it read; errors are InvalidEscape (each case: `LexerProperties.EscapeCases`) |
| Lexer.EscapedCodepoint | src/tokenizer.cpp:164-198 | a `\u` escape (pair) gives a code point in 0..0x10FFFF; a pair rather than a single escape exactly when the value is above 0xFFFF (each case: `LexerProperties.CodepointCases`) |
| Lexer.UnicodeEscape | src/tokenizer.cpp:164-206 | the UTF-8 bytes written do not exceed the escape's length plus 2; errors are InvalidEscape (the bytes are `EncodeUtf8` of the code point: `LexerProperties.UnicodeEscapeBytes`) |
| Lexer.Unescape | src/tokenizer.cpp:141-216 | the slow-path copy loop; every error is InvalidEscape |
| Lexer.ReadString | src/tokenizer.cpp:93-226 | Ok is a String token at the opening quote, the cursor just past the closing quote of pass 1; its text is the input slice through that quote when pass 1 saw no backslash, otherwise the unescaped content between two quotes; errors are InvalidString or InvalidEscape |
| Lexer.RawScan | src/json/tokenizer.cpp:48-76 | the raw scanner moves forward; Ok is the String token viewing the input from the opening quote to the quote before the cursor; errors are InvalidString or InvalidEscape |
| Lexer.ReadRawString | src/json/tokenizer.cpp:48-76 | the arena-less `read_string`: Ok is the input slice from the opening quote through the closing one |
| LexerProperties.PunctuationToken | src/tokenizer.cpp:73-78 | each of `{ } [ ] : ,` after whitespace is a one-byte token at its offset, and the cursor moves by exactly 1 |
| LexerProperties.InvalidTokenCases | src/tokenizer.cpp:87-89 | any other first byte than a structural one, `"`, `t f n`, `-` or a digit gives InvalidToken at that byte |
| LexerProperties.DigitsEndExact | src/tokenizer.cpp:242-244 | a run of digits followed by a non-digit ends exactly there |
| LexerProperties.FractionSound | src/tokenizer.cpp:247-276 | what the fraction and exponent parts read is `(\.[0-9]+)?([eE][+-]?[0-9]+)?` |
| LexerProperties.ReadNumberSound | src/tokenizer.cpp:228-276 | an accepted number matches `-?(0\|[1-9][0-9]*)(\.[0-9]+)?([eE][+-]?[0-9]+)?`, and its text is `input[start..pos)` |
| LexerProperties.IntegerEnds | src/tokenizer.cpp:238-245 | a leading zero ends the integer part; otherwise the digit run does |
| LexerProperties.ExponentComplete | src/tokenizer.cpp:259-276 | every well-formed exponent part is read up to its end |
| LexerProperties.FractionComplete | src/tokenizer.cpp:247-276 | every well-formed fraction and exponent is read up to its end |
| LexerProperties.ReadNumberComplete | src/tokenizer.cpp:228-276 | every number of the grammar that is not followed by more of it is accepted up to its end |
| LexerProperties.LeadingZero | src/tokenizer.cpp:238-240 | `01` lexes as the number `0`, ending at offset 1 |
| LexerProperties.BareMinus | src/tokenizer.cpp:231-236 | `-x` is InvalidNumber at offset 0 |
| LexerProperties.SignWithoutDigit | src/tokenizer.cpp:231-236 | a number start with no digit after the optional minus is InvalidNumber at the start, the cursor after the sign |
| LexerProperties.IntegerPartEnds | src/tokenizer.cpp:238-245 | the integer part ends at the first byte after it that is not a digit |
| LexerProperties.FractionWithoutDigit | src/tokenizer.cpp:247-253 | an integer part followed by `.` and no digit is InvalidNumber at the number's start, for every input |
| LexerProperties.FractionReaches | src/tokenizer.cpp:247-257 | a fraction ending before a non-digit hands over to the exponent part there |
| LexerProperties.ExponentWithoutDigit | src/tokenizer.cpp:259-268 | a mantissa followed by `e`/`E`, an optional sign and no digit is InvalidNumber at the number's start, for every input |
| LexerProperties.ReadNumberRejects | src/tokenizer.cpp:228-276 | `read_number` fails if and only if the integer part, a fraction after its `.`, or an exponent after its `e[+-]` has no digit |
| LexerProperties.TrailingDot | src/tokenizer.cpp:247-253 | `1.` is InvalidNumber at offset 0 |
| LexerProperties.BareExponentSign | src/tokenizer.cpp:259-268 | `1e+` is InvalidNumber at offset 0 |
| LexerProperties.RawScanAgrees | src/json/tokenizer.cpp:48-76 | the raw scanner stops at the same closing quote as the first pass of the escaping build |
| LexerProperties.RawStringAgrees | src/tokenizer.cpp:127-132 | with no backslash, both builds give the same token: the exact slice through the closing quote |
| LexerProperties.RunPastPlain | src/tokenizer.cpp:116-118 | a byte that is not a backslash ends every run of backslashes after it |
| LexerProperties.RunPastEscape | src/tokenizer.cpp:108-115 | skipping a backslash and the byte after it keeps the parity of every later run of backslashes |
| LexerProperties.ScanFindsUnescapedQuote | src/tokenizer.cpp:101-124 | for every input, pass 1 stops at the first quote preceded by an even number of backslashes, so an escaped `\"` never ends the string; it fails only when every quote is escaped; `has_escapes` is set exactly when the content holds a backslash |
| LexerProperties.FastPathSlice | src/tokenizer.cpp:126-132 | for every input with no backslash and no quote before the quote at `c`, both builds return the slice through `c`, the cursor at `c + 1` |
| LexerProperties.PlainScan | src/tokenizer.cpp:101-124 | with no backslash and no quote before the quote at `c`, pass 1 ends at `c` and reports no escape |
| LexerProperties.QuoteNotInQuad | src/tokenizer.cpp:101-124 | the closing quote cannot fall inside the four hex digits of a `\u` escape |
| LexerProperties.CodepointBeforeQuote | src/tokenizer.cpp:164-198 | the hex digits of a decoded escape or surrogate pair end before the closing quote found by the first pass |
| LexerProperties.EscapeBeforeQuote | src/tokenizer.cpp:141-211 | an escape read by the slow path ends at or before the closing quote |
| LexerProperties.UnescapeShrinks | src/tokenizer.cpp:137-216 | the unescaped content is no longer than the escaped content (RFC 3629 lengths), so the allocated `content_size*4+3` buffer is never overrun |
| LexerProperties.NoInvalidCodepoint | src/tokenizer.cpp:199-203 | the "Invalid codepoint" error never occurs |
| LexerProperties.SurrogatePairRange | src/tokenizer.cpp:188-193 | a combined surrogate pair lies in 0x10000..0x10FFFF |
| LexerProperties.EscapeCases | src/tokenizer.cpp:147-211 | a backslash right before the closing quote is InvalidEscape after it; a one-letter escape is its byte; `\u` is the code point's escape; any other byte is "Unknown escape sequence" at that byte |
| LexerProperties.CodepointCases | src/tokenizer.cpp:164-198 | four hex digits are needed; a high surrogate decodes exactly when `\u` and a low surrogate DC00..DFFF follow, to the combined code point; otherwise "Missing low surrogate" or "Invalid low surrogate" at the place the source reports |
| LexerProperties.UnicodeEscapeBytes | src/tokenizer.cpp:164-206 | a `\u` escape writes `EncodeUtf8` of its code point, which decodes back to it, and fails exactly when decoding the code point does |
| LexerProperties.SingleEscape | src/tokenizer.cpp:144-216 | content that is one escape sequence unescapes to that sequence's bytes |
| LexerProperties.SlowPathString | src/tokenizer.cpp:134-225 | when the first pass sees a backslash, the token is the unescaped content between synthetic quotes, and the cursor moves past the closing quote |
| LexerProperties.UnicodeSampleScan | src/tokenizer.cpp:101-124 | the first pass over `"\uXXXX"` finds the closing quote at 7 and sees a backslash |
| LexerProperties.EscapeLatin | src/tokenizer.cpp:164-206 | the string `"\u00e9"` becomes an arena string holding 0xC3 0xA9 between quotes, with the cursor at 8 |
| LexerProperties.PairSampleCodepoint | src/tokenizer.cpp:179-194 | `\ud83d\ude00` combines to 0x1F600 |
| LexerProperties.PairSampleScan | src/tokenizer.cpp:101-124 | the first pass over the pair sample finds the closing quote at 13 and sees escapes |
| LexerProperties.PairSampleUnescape | src/tokenizer.cpp:141-216 | the pair sample unescapes to F0 9F 98 80 |
| LexerProperties.EscapeSurrogatePair | src/tokenizer.cpp:93-226 | the string `"\ud83d\ude00"` becomes an arena string holding F0 9F 98 80 between quotes, with the cursor at 14 |
| LexerProperties.LoneLowSurrogate | src/tokenizer.cpp:179 | the string `"\udc00"`, a lone low surrogate, is accepted and encoded as the three bytes ED B0 80 |
| LexerProperties.UnknownEscape | src/tokenizer.cpp:207-209 | `"\x"` fails with InvalidEscape "Unknown escape sequence" at offset 2 |
| LexerProperties.MissingLowSurrogate | src/tokenizer.cpp:179-186 | a high surrogate not followed by `\u` fails with InvalidEscape "Missing low surrogate" |
| Tokenizing.Tokenizer.constructor | include/json/tokenizer.hpp:35-41 | the cursor starts at 0, and the input, build and arena are those given |
| Tokenizing.Tokenizer.SkipWhitespace | src/tokenizer.cpp:51-60 | the loop moves the cursor to `WsEnd` |
| Tokenizing.Tokenizer.Next | src/tokenizer.cpp:62-91 | token and new cursor are `Lexer.Next` of the old cursor |
| Tokenizing.Tokenizer.ReadString | src/tokenizer.cpp:93-226 | token and new cursor are `Lexer.ReadString`, for both passes |
| Tokenizing.Tokenizer.ScanString | src/tokenizer.cpp:101-124 | the scan loop computes `Lexer.Scan` |
| Tokenizing.Tokenizer.UnescapeInto | src/tokenizer.cpp:137-216 | the arena buffer after the leading quote holds `Lexer.Unescape` of the content, within its size |
| Tokenizing.Tokenizer.ReadCodepoint | src/tokenizer.cpp:164-198 | computes `EscapedCodepoint`, ending before the closing quote |
| Tokenizing.Tokenizer.ReadRawString | src/json/tokenizer.cpp:48-76 | token and new cursor are `Lexer.ReadRawString` |
| Tokenizing.Tokenizer.SkipDigits | src/tokenizer.cpp:242-244 | the loop moves the cursor to `DigitsEnd` |
| Tokenizing.Tokenizer.ReadNumber | src/tokenizer.cpp:228-276 | token and new cursor are `Lexer.ReadNumber` |
| Tokenizing.Tokenizer.ReadFractionPart | src/tokenizer.cpp:247-276 | token and new cursor are `Lexer.ReadFraction` |
| Tokenizing.Tokenizer.ReadExponentPart | src/tokenizer.cpp:259-276 | token and new cursor are `Lexer.ReadExponent` |
| Tokenizing.Tokenizer.ReadKeyword | src/tokenizer.cpp:278-291 | token and new cursor are `Lexer.ReadKeyword` |
| Ast.View | include/json/ast.hpp:25 | the view of a slice is exactly its `size` input bytes from its start |
| Ast.MakeNull | include/json/ast.hpp:58-60 | the tag is Null |
| Ast.MakeBool | include/json/ast.hpp:62-64 | the tag is Bool and the payload is the value |
| Ast.MakeNumber | include/json/ast.hpp:66-68 | the tag is Number and the payload is the value |
| Ast.MakeString | include/json/ast.hpp:70-72 | the tag is String and the payload is the string given |
| Ast.MakeArray | include/json/ast.hpp:74-76 | the tag is Array, with those children and that size |
| Ast.MakeObject | include/json/ast.hpp:78-80 | the tag is Object, with those pairs and that size |
| Ast.Content | include/json/ast.hpp:46-55 | the active payload keeps the node's tag |
| Arena.AlignUp | include/json/arena.hpp:33-36 | the next multiple of the alignment, at most `align - 1` further on, and no move when already aligned |
| Arena.ValidAlignCases | include/json/arena.hpp:28-36 | the admissible alignments are the powers of two up to 16 |
| Arena.BumpKeepsLive | include/json/arena.hpp:49-56 | a bump allocation keeps the live regions inside their blocks, pairwise disjoint and below the cursor |
| Arena.NewBlockKeepsLive | include/json/arena.hpp:38-46 | so does an allocation at the base of a new block |
| Arena.Arena.constructor | include/json/arena.hpp:13-16 | exactly one block of `block_size`, cursor at its base, `remaining == block_size` |
| Arena.Arena.AllocateBlock | include/json/arena.hpp:67-72 | appends one standard block and moves the cursor to its base with the whole block remaining |
| Arena.Arena.Alloc | include/json/arena.hpp:28-57 | the address is aligned; the region is added to the live ones; it is a bump when it fits, a dedicated block when the size exceeds the block size, else a new block and one retry |
| Arena.Arena.Bump | include/json/arena.hpp:49-56 | returns the aligned cursor; the cursor and `remaining` move by padding plus size; the blocks are unchanged |
| Arena.Arena.AllocLarge | include/json/arena.hpp:38-43 | appends a block of exactly the size, returns its base, and leaves the cursor and `remaining` alone |
| Arena.Arena.Reset | include/json/arena.hpp:59-64 | frees nothing; moves the cursor to block 0's base with a whole block remaining, so every small request fits again |
| Arena.ResetReusesFirstBlock | include/json/arena.hpp:59-64 | after `reset`, the next small allocation returns the base of block 0 |
| Grammar.TokenizerEnv | src/parser.cpp:23-31 | the tokenizer's `next()` is a token source that the parser's laws apply to |
| Grammar.Peek | src/parser.cpp:23-31 | reads at most once: with a lookahead present, it returns that token and the same state; a token it returns lies in the unread input (with no lookahead, the error or token of `next()`: `ParserProperties.PeekReads`) |
| Grammar.Unquote | src/parser.cpp:86-97 | a string's content drops exactly its first and last byte |
| Grammar.Expect | src/parser.cpp:37-48 | Ok is a token of the kind asked for, consumed |
| Grammar.ParseValue | src/parser.cpp:50-109 | a parsed value consumes input, so the recursion ends (the node each token makes: `ParserProperties.ScalarValues`) |
| Grammar.ParseArray | src/parser.cpp:111-164 | a parsed array consumes input and is an Array |
| Grammar.ArrayBody | src/parser.cpp:117-163 | the same for the array after its depth check |
| Grammar.Elements | src/parser.cpp:133-151 | the element loop consumes input and adds at least one element |
| Grammar.ParseObject | src/parser.cpp:166-233 | a parsed object consumes input and is an Object |
| Grammar.ObjectBody | src/parser.cpp:172-232 | the same for the object after its depth check |
| Grammar.Separator | src/parser.cpp:138-150 | a separator consumes input |
| Grammar.Member | src/parser.cpp:189-205 | one member consumes input |
| Grammar.Members | src/parser.cpp:188-220 | the member loop consumes input and adds at least one pair |
| GrammarProperties.ValueDepth | src/parser.cpp:50-109 | a value parsed at depth `d` is at most `MaxDepth - d` containers deep |
| GrammarProperties.ArrayBodyDepth | src/parser.cpp:117-163 | an array body read at depth `d` keeps `d - 1 + Depth <= MaxDepth` |
| GrammarProperties.ElementsDepth | src/parser.cpp:133-151 | so do the elements |
| GrammarProperties.ObjectBodyDepth | src/parser.cpp:172-232 | the same for an object body |
| GrammarProperties.MembersDepth | src/parser.cpp:188-220 | so do the members |
| GrammarProperties.MemberDepth | src/parser.cpp:189-205 | and one member's value |
| GrammarProperties.ParseDepth | src/parser.cpp:112-115 | every tree `parse()` returns is at most 256 containers deep |
| GrammarProperties.ElementsInOrder | src/parser.cpp:133-151 | the loop appends the values read, in source order, after those it was given; the errors do not depend on them |
| GrammarProperties.MembersInOrder | src/parser.cpp:188-220 | the same for pairs, with repeated keys kept |
| Parsing.Parser.constructor | include/json/parser.hpp:12-13 | no lookahead and depth 0, over the tokenizer and arena given |
| Parsing.Parser.Peek | src/parser.cpp:23-31 | result and new lookahead state are `Grammar.Peek`; depth unchanged |
| Parsing.Parser.Consume | src/parser.cpp:33-35 | the lookahead is dropped |
| Parsing.Parser.Expect | src/parser.cpp:37-48 | result and new state are `Grammar.Expect` |
| Parsing.Parser.ParseValue | src/parser.cpp:50-109 | agrees with `Grammar.ParseValue`; on success the depth is back to its value on entry |
| Parsing.Parser.ParseArray | src/parser.cpp:111-164 | agrees with `Grammar.ParseArray` |
| Parsing.Parser.ParseArrayBody | src/parser.cpp:117-163 | agrees with `Grammar.ArrayBody` |
| Parsing.Parser.ParseElements | src/parser.cpp:133-151 | the `push_back` loop agrees with `Grammar.Elements` |
| Parsing.Parser.Separator | src/parser.cpp:138-150 | agrees with `Grammar.Separator` |
| Parsing.Parser.ParseObject | src/parser.cpp:166-233 | agrees with `Grammar.ParseObject` |
| Parsing.Parser.ParseObjectBody | src/parser.cpp:172-232 | agrees with `Grammar.ObjectBody` |
| Parsing.Parser.ParseMembers | src/parser.cpp:188-220 | the `push_back` loop agrees with `Grammar.Members` |
| Parsing.Parser.ParseMember | src/parser.cpp:189-205 | agrees with `Grammar.Member` |
| Parsing.Parser.ArrayNode | src/parser.cpp:153-163 | the copy loop yields an Array of exactly the elements, in order |
| Parsing.Parser.ObjectNode | src/parser.cpp:222-232 | the copy loop yields an Object of exactly the pairs, in order |
| Parsing.Parser.Parse | src/parser.cpp:7-21 | the result is `Grammar.Parse` |
| ParserProperties.LexPunctuation | src/tokenizer.cpp:73-78 | the tokenizer reads a structural byte as its one-byte token |
| ParserProperties.LexEnd | src/tokenizer.cpp:65-67 | at the end of input the tokenizer gives End |
| ParserProperties.OpenArray | src/parser.cpp:99-103 | `[` below the limit opens an array body one level deeper |
| ParserProperties.OpenArrayTooDeep | src/parser.cpp:112-115 | `[` at depth 256 fails with TooDeep at the cursor past it |
| ParserProperties.BodyElements | src/parser.cpp:125-133 | a body that does not start with `]` is its element loop |
| ParserProperties.LastElement | src/parser.cpp:140-141 | a value followed by `]` ends the loop with the value appended |
| ParserProperties.NextElement | src/parser.cpp:146-150 | a value followed by `,` continues the loop with the value appended |
| ParserProperties.ElementFails | src/parser.cpp:134-135 | an element's error is the loop's error |
| ParserProperties.SeparatorFails | src/parser.cpp:138-139 | a separator's error is the loop's error |
| ParserProperties.SeparatorWrong | src/parser.cpp:146-149 | any other separator is ExpectedComma at its offset |
| ParserProperties.SeparatorRead | src/parser.cpp:138-150 | `,` and the closer are each read and consumed |
| ParserProperties.EmptyArrayBody | src/parser.cpp:125-131 | `]` straight away gives the empty array |
| ParserProperties.ReadMember | src/parser.cpp:189-205 | string key, `:` and value give a pair whose key is the unquoted key text |
| ParserProperties.MissingColon | src/parser.cpp:199-200 | a key then no `:` is UnexpectedToken at the token found, not ExpectedColon |
| ParserProperties.LastMember | src/parser.cpp:207-218 | a member followed by `}` ends the loop with it appended |
| ParserProperties.NextMember | src/parser.cpp:207-218 | a member followed by `,` continues the loop with it appended |
| ParserProperties.MemberFails | src/parser.cpp:189-205 | a member's error is the loop's error |
| ParserProperties.NotAValue | src/parser.cpp:105-107 | End, `,`, `]`, `}` or `:` where a value should be is ExpectedValue at its offset |
| ParserProperties.ScalarValues | src/parser.cpp:55-97 | `null` gives Null; `true`/`false` give a Bool that is true exactly for `true`; a string gives its content without quotes; a number gives its lexeme when it converts, else InvalidNumber at the token's offset |
| ParserProperties.PeekReads | src/parser.cpp:23-31 | with no lookahead, a tokenizer error is returned unchanged, and a token becomes the lookahead with the cursor past it |
| ParserProperties.TokenizerErrorPasses | src/parser.cpp:50-52 | a tokenizer error where a value, a container's first entry, a separator or the first token of `parse()` is read is returned unchanged |
| ParserProperties.OpenObject | src/parser.cpp:99-103 | `{` below the limit opens an object body one level deeper |
| ParserProperties.BodyMembers | src/parser.cpp:180-188 | a body that does not start with `}` is its member loop |
| ParserProperties.BodyUnreadable | src/parser.cpp:177-178 | a tokenizer error after `{` is the object's error |
| ParserProperties.KeyNotString | src/parser.cpp:189-197 | a key that is not a string is UnexpectedToken at its offset |
| ParserProperties.ParseAfterValue | src/parser.cpp:7-21 | after a value, End gives the value; any other token is UnexpectedToken at its offset |
| ParserProperties.ParseValueFails | src/parser.cpp:8-9 | an error in the value is the parse's error, and no tree comes with it |
| ParserProperties.Brackets | src/parser.cpp:111-164 | `n` opening brackets, then `n` closing ones |
| ParserProperties.Nested | src/parser.cpp:111-164 | the nested array is an Array |
| ParserProperties.NestedDepth | include/json/parser.hpp:18 | `m` one-element arrays around an empty one are `m + 1` deep |
| ParserProperties.TokenizerReadsPunctuation | src/tokenizer.cpp:73-78 | a run of structural bytes is read one token per byte |
| ParserProperties.BracketsParse | src/parser.cpp:111-164 | a run of nested brackets parses to the nested arrays |
| ParserProperties.BracketsAround | src/parser.cpp:133-141 | one bracket pair around a parsed value gives a one-element array |
| ParserProperties.InnermostBrackets | src/parser.cpp:125-131 | the innermost `[]` is the empty array |
| ParserProperties.MaxDepthParses | include/json/parser.hpp:18 | 256 nested arrays parse, to a tree of depth 256 |
| ParserProperties.OpenFails | src/parser.cpp:133-135 | a `[` whose first element fails gives that element's error, with no tree |
| ParserProperties.OpenTooDeep | src/parser.cpp:112-115 | the 257th `[` fails with TooDeep at offset 257 |
| ParserProperties.TooDeepFails | src/parser.cpp:112-115 | any input starting with 257 `[` fails with TooDeep at offset 257 |
| ParserProperties.OneTooMany | src/parser.cpp:112-115 | 257 nested arrays do not parse |
| ParserProperties.LexDigit | src/tokenizer.cpp:228-276 | a lone digit is a one-byte number token |
| ParserProperties.LexSpace | src/tokenizer.cpp:51-60 | a token after one space is read past the space |
| ParserProperties.LexLetter | src/tokenizer.cpp:127-132 | a one-letter string is a three-byte slice token |
| ParserProperties.UnquoteLetter | src/parser.cpp:86-97 | its content is the letter |
| ParserProperties.NumberValue | src/parser.cpp:71-84 | a number token gives a Number node holding its lexeme |
| ParserProperties.TrailingToken | src/parser.cpp:12-18 | `1 2` fails with UnexpectedToken at offset 2 |
| ParserProperties.CloseAfterComma | src/parser.cpp:133-151 | `[`, a value, `,` then `]` fails with ExpectedValue at the `]` |
| ParserProperties.TrailingComma | src/parser.cpp:133-151 | `[1,]` fails with ExpectedValue at offset 3 |
| ParserProperties.KeyFirst | src/parser.cpp:189-197 | `{` then a non-string token fails at that token |
| ParserProperties.NumberKey | src/parser.cpp:189-197 | `{1,2}` fails with UnexpectedToken at offset 1 |
| ParserProperties.UnreadableMember | src/parser.cpp:176-178 | `{` then a tokenizer error gives that error |
| ParserProperties.InvalidJson | src/parser.cpp:176-178 | `{ invalid json }` fails with InvalidToken at offset 2 |
| ParserProperties.EmptyBrackets | src/parser.cpp:125-131 | `[` `]` End gives the empty array |
| ParserProperties.EmptyArray | src/parser.cpp:125-131 | `[]` parses to an array of size 0 |
| ParserProperties.NoSeparator | src/parser.cpp:146-149 | a value then neither `,` nor `]` fails with ExpectedComma there |
| ParserProperties.MissingComma | src/parser.cpp:146-149 | `[1 2]` fails with ExpectedComma at offset 3 |
| ParserProperties.NoColon | src/parser.cpp:199-200 | `{`, a key, then no `:` fails with UnexpectedToken there |
| ParserProperties.KeyWithoutColon | src/parser.cpp:199-200 | `{"a" 1}` fails with UnexpectedToken at offset 5 |
| ParserProperties.ThreeElements | src/parser.cpp:133-163 | three values separated by commas give the three, in order |
| ParserProperties.ThreeDigitsFirstTokens | src/tokenizer.cpp:62-91 | the tokens of the first half of `[1, 2, 3]` |
| ParserProperties.ThreeDigitsLastTokens | src/tokenizer.cpp:62-91 | the tokens of its second half |
| ParserProperties.ThreeDigits | src/parser.cpp:111-164 | an input of that shape parses to three numbers |
| ParserProperties.ThreeNumbers | src/parser.cpp:111-164 | `[1, 2, 3]` parses to the numbers 1, 2, 3 in order, size 3 |
| ParserProperties.TwoMembers | src/parser.cpp:188-232 | two members give both pairs, in order |
| ParserProperties.RepeatedKeyFirstTokens | src/tokenizer.cpp:62-91 | the tokens of the first half of `{"a":1,"a":2}` |
| ParserProperties.RepeatedKeyLastTokens | src/tokenizer.cpp:62-91 | the tokens of its second half |
| ParserProperties.RepeatedKey | src/parser.cpp:188-232 | an input of that shape keeps both pairs |
| ParserProperties.DuplicateKeys | src/parser.cpp:188-232 | `{"a":1,"a":2}` parses to both pairs, keys at offsets 2 and 8, in order |
| Writing.CharValue | src/writer.cpp:97 | a byte's `char` value: itself when unsigned or below 0x80, negative when signed and at or above 0x80 |
| Writing.UnicodeEscapeOf | src/writer.cpp:107-110 | `\u00` plus two hex digits whose value is the byte |
| Writing.EscapeByteCases | src/writer.cpp:95-115 | one byte is written as itself (exactly when it is not `"`/`\` and its char value is at least 0x20), as a two-byte escape (exactly for `" \ \b \f \n \r \t`, which read back), or as `\u00xx` (for char values below 0x20) |
| Writing.Escaped | src/writer.cpp:96-113 | escaping never shortens |
| Writing.Quoted | src/writer.cpp:95-115 | output starts and ends with `"` |
| Writing.Indentation | src/writer.cpp:117-119 | `indent * indent_size` spaces |
| Writing.EscapedConcat | src/writer.cpp:96-113 | escaping is byte by byte |
| Writing.EscapedSnoc | src/writer.cpp:96-113 | escaping one more byte appends its escape |
| Writing.Writer.constructor | include/json/writer.hpp:11-12 | the style given, with indent 0 |
| Writing.Writer.Write | src/writer.cpp:6-11 | the text is `RenderRoot` of the root; indent unchanged |
| Writing.Writer.WriteNode | src/writer.cpp:18-93 | appends `RenderRoot` of the node to the output; indent ends where it started |
| Writing.Writer.WriteValue | src/writer.cpp:24-92 | appends `Render` of the node; indent ends where it started |
| Writing.Writer.WriteArray | src/writer.cpp:41-63 | appends `Render` of the array; indent ends where it started |
| Writing.Writer.WriteElements | src/writer.cpp:48-56 | the child loop appends the elements' text |
| Writing.Writer.WriteElement | src/writer.cpp:49-54 | one child with its separator |
| Writing.Writer.WriteObject | src/writer.cpp:65-91 | appends `Render` of the object; indent ends where it started |
| Writing.Writer.WriteMembers | src/writer.cpp:72-84 | the pair loop appends the members' text |
| Writing.Writer.WriteMember | src/writer.cpp:73-83 | one pair with its separator |
| Writing.Writer.WriteString | src/writer.cpp:95-115 | the loop appends `Quoted` of the bytes |
| Writing.Writer.WriteEscaped | src/writer.cpp:98-111 | appends the escape of one byte |
| Writing.Writer.WriteIndent | src/writer.cpp:117-119 | appends `indent * indent_size` spaces |
| Writing.Writer.WriteNewline | src/writer.cpp:121-123 | appends one LF |
| WriterProperties.CompactElements | src/writer.cpp:48-56 | one text per element |
| WriterProperties.CompactPairs | src/writer.cpp:72-84 | one text per pair |
| WriterProperties.CompactLayout | src/writer.cpp:18-93 | compact output has no whitespace: `[a,b]` and `{"k":v}`, one `,` between consecutive children, in stored order, whatever the indent |
| WriterProperties.CompactArray | src/writer.cpp:41-63 | the compact array case |
| WriterProperties.CompactObject | src/writer.cpp:65-91 | the compact object case |
| WriterProperties.ArrayFrame | src/writer.cpp:41-63 | a compact array is `[`, its elements, `]` |
| WriterProperties.ObjectFrame | src/writer.cpp:65-91 | a compact object is `{`, its members, `}` |
| WriterProperties.CompactElementsLayout | src/writer.cpp:48-56 | the first `i` elements are their texts joined by `,`, with a `,` after when more follow |
| WriterProperties.CompactMembersLayout | src/writer.cpp:72-84 | the same for pairs |
| WriterProperties.JoinPrefix | src/writer.cpp:48-56 | joining one more text adds a `,` and that text |
| WriterProperties.CompactPairLayout | src/writer.cpp:73-83 | a compact pair is the key, `:`, the value, then `,` when more follow |
| WriterProperties.ScalarTexts | src/writer.cpp:19-31 | a null pointer and a Null node are `null`; booleans are `true` and `false` |
| WriterProperties.EmptyContainers | src/writer.cpp:41-91 | empty containers are `[]` and `{}`, in both modes |
| WriterProperties.PrettyArray | src/writer.cpp:41-63 | `[null, true]` pretty-printed: newline after `[`, each child on its own line indented by 2, `,` after all but the last |
| WriterProperties.PrettyArrayFrame | src/writer.cpp:41-63 | a non-empty pretty array is `[`, LF, children one level deeper, the indent, `]` |
| WriterProperties.PrettyEnclosed | src/writer.cpp:43-61 | a non-empty pretty container opens with its bracket and LF and closes at the current indent |
| WriterProperties.PrettyObject | src/writer.cpp:65-91 | `{"a": null}` pretty-printed, with `": "` between key and value |
| WriterProperties.PrettyObjectFrame | src/writer.cpp:65-91 | a non-empty pretty object is `{`, LF, members one level deeper, the indent, `}` |
| WriterProperties.PrettyLine | src/writer.cpp:73-83 | a pretty member line is the indent, the key, `": "`, the value and LF |
| WriterProperties.QuotedLetter | src/writer.cpp:95-115 | `a` is written as `"a"` |
| StringRoundTrip.SplitSlice | src/tokenizer.cpp:101-124 | splitting a slice splits its bytes |
| StringRoundTrip.ScanByte | src/tokenizer.cpp:101-124 | the first pass skips one written escape whole |
| StringRoundTrip.ScanEscaped | src/tokenizer.cpp:101-124 | the first pass skips written content whole, and sees a backslash exactly when escaping lengthened it |
| StringRoundTrip.ScanFirst | src/tokenizer.cpp:101-124 | the first pass over the first written byte |
| StringRoundTrip.EscapedFirst | src/writer.cpp:96-113 | written content is the first byte's escape and then the rest |
| StringRoundTrip.UnescapeByte | src/tokenizer.cpp:141-216 | the slow path reads one written escape back to its byte |
| StringRoundTrip.UnescapeUnicode | src/tokenizer.cpp:164-206 | the slow path reads a written `\u00xx` back to the byte, when below 0x80 |
| StringRoundTrip.UnicodeEscapeReadsBack | src/tokenizer.cpp:164-206 | `\u00xx` is read back as the UTF-8 encoding of `xx` |
| StringRoundTrip.UnescapeEscaped | src/tokenizer.cpp:141-216 | the slow path reads written content back to the original bytes |
| StringRoundTrip.UnescapeFirst | src/tokenizer.cpp:141-216 | the slow path over the first written byte |
| StringRoundTrip.EscapedPlain | src/writer.cpp:96-113 | content that escaping does not lengthen is written as is |
| StringRoundTrip.WrittenStringReadsBack | src/writer.cpp:95-115 | for content that round-trips (all bytes below 0x80, or unsigned `char`), reading what `write_string` wrote gives a String token of the original bytes in quotes, ending where the written text ends |
| StringRoundTrip.ScanWritten | src/tokenizer.cpp:101-124 | the first pass over written text finds its closing quote |
| StringRoundTrip.UnescapeWritten | src/tokenizer.cpp:141-216 | the slow path over written content gives the content |
| StringRoundTrip.QuotedFrame | src/writer.cpp:95-115 | the layout of quoted text |
| StringRoundTrip.UnsignedWriterRoundTrips | src/writer.cpp:95-115 | with unsigned `char`, every byte string round-trips |
| StringRoundTrip.SignedCharBreaksRoundTrip | src/writer.cpp:107-110 | with signed `char`, a byte at or above 0x80 is written as `\u00xx` and read back as two UTF-8 bytes, not as itself |
| Building.Digits | include/json/builder.hpp:57-59 | decimal digits of a natural number |
| Building.IntNumber | include/json/builder.hpp:57-59 | the number text of an `int` is non-empty |
| Building.DigitsValueOf | include/json/builder.hpp:57-59 | the digits written read back to the number |
| Building.IntNumberLexes | include/json/builder.hpp:57-59 | the text of an `int` is a whole number token |
| Building.IntNumberValue | include/json/builder.hpp:57-59 | it starts with `-` exactly for negatives, and its digits give the magnitude |
| Building.CString | include/json/builder.hpp:69-71 | a C string is the bytes before the first NUL |
| Building.CopyString | include/json/builder.hpp:17-21 | an arena region of `size` bytes holding a copy of the string |
| Building.NewNull | include/json/builder.hpp:225-229 | one new node, Null |
| Building.NewBool | include/json/builder.hpp:231-235 | one new node, Bool of the value |
| Building.NewNumber | include/json/builder.hpp:237-241 | one new node, Number of the value |
| Building.NewString | include/json/builder.hpp:243-248 | the bytes copied and one new String node over them |
| Building.ArrayBuilder.constructor | include/json/builder.hpp:33 | no elements |
| Building.ArrayBuilder.AddNull | include/json/builder.hpp:36-41 | appends exactly one Null; the size grows by 1 |
| Building.ArrayBuilder.AddBool | include/json/builder.hpp:43-48 | appends exactly one Bool; the size grows by 1 |
| Building.ArrayBuilder.AddNumber | include/json/builder.hpp:50-55 | appends exactly one Number; the size grows by 1 |
| Building.ArrayBuilder.AddInt | include/json/builder.hpp:57-59 | appends the number of the `int`, as `add(double)` would |
| Building.ArrayBuilder.AddString | include/json/builder.hpp:61-67 | appends exactly one String over a copy of the bytes |
| Building.ArrayBuilder.AddCString | include/json/builder.hpp:69-71 | appends the C string's bytes as a String |
| Building.ArrayBuilder.AddNode | include/json/builder.hpp:73-78 | a null pointer changes nothing; otherwise the node is appended |
| Building.ArrayBuilder.Build | include/json/builder.hpp:81-90 | an Array of the added nodes in insertion order, with as many as `size()`; the list is unchanged |
| Building.ObjectBuilder.constructor | include/json/builder.hpp:111 | no pairs |
| Building.ObjectBuilder.AddPair | include/json/builder.hpp:173-176 | appends the pair with a copied key; the size grows by 1 |
| Building.ObjectBuilder.AddNull | include/json/builder.hpp:114-119 | appends `key: null` |
| Building.ObjectBuilder.AddBool | include/json/builder.hpp:121-126 | appends `key: bool` |
| Building.ObjectBuilder.AddNumber | include/json/builder.hpp:128-133 | appends `key: number` |
| Building.ObjectBuilder.AddInt | include/json/builder.hpp:135-137 | appends `key: number of the int` |
| Building.ObjectBuilder.AddString | include/json/builder.hpp:139-145 | appends `key: string`, copying both |
| Building.ObjectBuilder.AddCString | include/json/builder.hpp:147-149 | appends `key: C string` |
| Building.ObjectBuilder.AddNode | include/json/builder.hpp:151-156 | a null pointer changes nothing, not even the arena; otherwise it appends the pair |
| Building.ObjectBuilder.Build | include/json/builder.hpp:159-168 | an Object of the added pairs in insertion order, with as many as `size()`; the list is unchanged |
| Building.BuildNumbers | include/json/builder.hpp:203-209 | an array of the listed numbers, in order |
| Building.BuildStrings | include/json/builder.hpp:214-220 | an array of the listed C strings, in order |
| Building.KeepsDuplicateKeys | include/json/builder.hpp:173-176 | adding the same key twice keeps both pairs, in order |
| Stats.VisitCensus | tools/json-reader.cpp:92-128 | the walk from any counters and depth adds exactly the tree's census; `max_depth` ends as the larger of its old value and the depth plus the tree's deepest level |
| Stats.ElementsVisitCensus | tools/json-reader.cpp:113-119 | the element loop adds the elements' census one level down |
| Stats.ValuesVisitCensus | tools/json-reader.cpp:120-126 | the value loop adds the values' census one level down |
| Stats.ValueVisitCensus | tools/json-reader.cpp:120-126 | visiting a pair visits its value only |
| Stats.CensusBalanced | tools/json-reader.cpp:97-127 | every node is counted in `total` and in exactly one kind counter |
| Stats.ElementsBalanced | tools/json-reader.cpp:113-119 | so are array elements |
| Stats.ValuesBalanced | tools/json-reader.cpp:120-126 | so are object values |
| Stats.ValueBalanced | tools/json-reader.cpp:120-126 | and the value of one pair |
| Stats.AfterPlus | tools/json-reader.cpp:113-119 | a child at `depth + 1` counts one level deeper |
| Stats.AfterZero | tools/json-reader.cpp:130-134 | from zero counters at depth 0 the walk gives the census itself |
| Stats.StatsFromZero | tools/json-reader.cpp:130-134 | from zero, the counters hold the census and `total` is the sum of the kind counters |
| Stats.KeysNotCounted | tools/json-reader.cpp:120-126 | object keys do not matter to any counter |
| Stats.Counters.constructor | tools/json-reader.cpp:131-132 | all counters are zero |
| Stats.CountNodes | tools/json-reader.cpp:92-128 | a null pointer changes no counter; otherwise the counters become `Visit` of the node |
| Stats.CountNode | tools/json-reader.cpp:97-127 | the increments and the child loops compute `Visit` |
| Stats.PrintedStats | tools/json-reader.cpp:130-134 | the counters hold the root's census, and `total` equals the sum of the kinds |

## Left out

- Number conversion: `std::from_chars` in `parse_value` is the `converts` parameter of `Env` on the parser. A Number node keeps its lexeme, and no numeric round-trip is stated. The InvalidNumber that the parser reports when the conversion fails is modelled only as that parameter, and the property laws hold for every choice of it.
- `std::format` of a double in the writer is the `format` parameter of the `Writer`, applied to the lexeme a Number node carries. The lexeme stands only for the value: `Building.ArrayBuilder.AddInt` carries the `int` as its decimal digits, and the text written for it is whatever `format` makes of that value, which may differ from those digits (shortest round-trip output writes 100000 as `1e+05`).
- Building.ArrayBuilder.AddInt: the range of a C++ `int` is not modelled; any integer is accepted.
- Pointers, aliasing and `memcpy`: children are held by value in the tree. The arena records only sizes, alignments and the regions handed out; node and array allocations are modelled as `Alloc` calls of the 64-bit layout's sizes (`Node` 24 bytes, pointers 8, `ObjectPair` 24), which are layout constants, not proved facts.
- State after an error: on an error only the `Error` the parser and tokenizer return is specified, not where the cursor or lookahead was left.
- The arena's fatal out-of-memory path, its destructor, and `operator new`/`delete`.
- File and stream I/O (`Writer::write(FILE*)`, `read_file_to_arena`, the tools' input readers), the `parse`/`write` wrappers of the API, command-line code, and `print_stats`'s printing: I/O and glue.
- Writing.Writer.constructor: a negative `indent_size` cannot be passed; the field is a natural number.
- Writing.Writer.WriteNode: a null child pointer inside a container is not representable, since children are values; a null root writes `null`.
- Stats.CountNodes: `size_t` counters do not overflow in the model; a null child inside a container is not representable.
- `build_object`/`build_array(arena)` are the builder constructors; the accessors (`operator[]`, `as_string`, iterators) are not defined in the files modelled.
- UnexpectedEOF and ExpectedColon are part of `ErrorCode` but never produced, as in the source.
- The arena-less build never unescapes; its string tokens keep the escapes as written.
- The slow path of `read_string` needs an arena (`src/tokenizer.cpp:137` uses it unconditionally): `Tokenizing.Tokenizer` requires one for the `Unescaping` build.
- `std::isdigit` is taken to mean `0-9`.

## Findings

| source | as written | input that shows it | evidently intended | confidence | as-written member | corrected member |
|---|---|---|---|---|---|---|
| src/writer.cpp:107-110 | `c < 0x20` compares a plain `char`; where `char` is signed, every byte 0x80..0xFF is below 0x20 and is written as `\u0080`..`\u00ff` | the one-byte string 0xC3 is written as `"\u00c3"`, which `read_string` reads back as the two bytes 0xC3 0x83 | bytes at or above 0x80 pass through unchanged, so UTF-8 text round-trips | not executed | StringRoundTrip.SignedCharBreaksRoundTrip | StringRoundTrip.UnsignedWriterRoundTrips |
