/** Properties of `Parser::parse()` (module Grammar) read with the real tokenizer:
    the nesting limit of `MaxDepth` containers, and worked examples of the error
    each malformed input gets. */
module ParserProperties {
  import opened Bytes
  import opened Errors
  import opened Lexer
  import opened Grammar
  import Ast

  /** The environment `json::parse` sets up: the tokenizer over `s`. */
  function Env(s: seq<Byte>, build: Build, converts: seq<Byte> -> bool): (env: Env)
    ensures Lexes(s, env)
  {
    TokenizerEnv(s, build, converts)
  }

  /** The token `next()` returns for a structural character at `p`. */
  function PunctuationAt(s: seq<Byte>, p: nat): Token
    requires p < |s| && IsPunctuation(s[p])
  {
    Token(PunctuationType(s[p]), Ast.Slice(p, [s[p]]), p)
  }

  /** With no whitespace in front of it, a structural character is read where it
      stands. */
  lemma LexPunctuation(s: seq<Byte>, build: Build, converts: seq<Byte> -> bool, p: nat)
    requires p < |s| && IsPunctuation(s[p])
    ensures Env(s, build, converts).lex(p) == Lexed(Ok(PunctuationAt(s, p)), p + 1)
  {
    assert WsEnd(s, p) == p;
  }

  /** The end of the input is the End token. */
  lemma LexEnd(s: seq<Byte>, build: Build, converts: seq<Byte> -> bool)
    ensures Env(s, build, converts).lex(|s|) == Lexed(Ok(Token(End, Ast.Slice(|s|, []), |s|)), |s|)
  {
  }

  // ----- single steps of the grammar -----

  /** A `[` within the limit opens the array body one level deeper. */
  lemma OpenArray(s: seq<Byte>, env: Env, st: PState, depth: nat, t: Token, st1: PState)
    requires Lexes(s, env) && ValidState(s, st)
    requires Peek(s, env, st) == Ok((t, st1)) && t.kind == LeftBracket
    requires depth + 1 <= MaxDepth
    ensures ValidState(s, Consume(st1))
    ensures ParseValue(s, env, st, depth) == ArrayBody(s, env, Consume(st1), depth + 1)
  {
  }

  /** A `[` beyond the limit is TooDeep at the cursor just past it. */
  lemma OpenArrayTooDeep(s: seq<Byte>, env: Env, st: PState, depth: nat, t: Token, st1: PState)
    requires Lexes(s, env) && ValidState(s, st)
    requires Peek(s, env, st) == Ok((t, st1)) && t.kind == LeftBracket
    requires depth + 1 > MaxDepth
    ensures ParseValue(s, env, st, depth) == Fail(TooDeep, st1.pos)
  {
  }

  /** An array body that does not start with `]` is the element loop's result. */
  lemma BodyElements(s: seq<Byte>, env: Env, st: PState, depth: nat, t: Token, st1: PState)
    requires Lexes(s, env) && ValidState(s, st)
    requires Peek(s, env, st) == Ok((t, st1)) && t.kind != RightBracket
    ensures ValidState(s, st1)
    ensures var r := Elements(s, env, st1, depth, []);
      ArrayBody(s, env, st, depth) == (if r.Ok? then Ok((Ast.Array(r.value.0), r.value.1)) else Err(r.error))
  {
  }

  /** An element followed by `]` ends the loop. */
  lemma LastElement(s: seq<Byte>, env: Env, st: PState, depth: nat, acc: seq<Ast.Node>, v: Ast.Node, p: nat, q: nat)
    requires Lexes(s, env) && ValidState(s, st)
    requires ParseValue(s, env, st, depth) == Ok((v, p))
    requires Separator(s, env, p, RightBracket) == Ok((true, q))
    ensures Elements(s, env, st, depth, acc) == Ok((acc + [v], q))
  {
  }

  /** An element followed by `,` continues the loop after the comma. */
  lemma NextElement(s: seq<Byte>, env: Env, st: PState, depth: nat, acc: seq<Ast.Node>, v: Ast.Node, p: nat, q: nat)
    requires Lexes(s, env) && ValidState(s, st)
    requires ParseValue(s, env, st, depth) == Ok((v, p))
    requires Separator(s, env, p, RightBracket) == Ok((false, q))
    ensures q <= |s|
    ensures Elements(s, env, st, depth, acc) == Elements(s, env, PState(q, None), depth, acc + [v])
  {
  }

  /** An element failing fails the loop with the same error. */
  lemma ElementFails(s: seq<Byte>, env: Env, st: PState, depth: nat, acc: seq<Ast.Node>, e: Error)
    requires Lexes(s, env) && ValidState(s, st)
    requires ParseValue(s, env, st, depth) == Err(e)
    ensures Elements(s, env, st, depth, acc) == Err(e)
  {
  }

  /** An element followed by neither `,` nor `]` fails the loop with the
      separator's error. */
  lemma SeparatorFails(s: seq<Byte>, env: Env, st: PState, depth: nat, acc: seq<Ast.Node>, v: Ast.Node, p: nat, e: Error)
    requires Lexes(s, env) && ValidState(s, st)
    requires ParseValue(s, env, st, depth) == Ok((v, p))
    requires Separator(s, env, p, RightBracket) == Err(e)
    ensures Elements(s, env, st, depth, acc) == Err(e)
  {
  }

  /** A token other than the closing one and `,` where a separator belongs is
      ExpectedComma at its offset. */
  lemma SeparatorWrong(s: seq<Byte>, env: Env, p: nat, close: TokenType, t: Token, q: nat)
    requires Lexes(s, env) && p <= |s| && close != End
    requires env.lex(p) == Lexed(Ok(t), q)
    requires t.kind != close && t.kind != Comma
    ensures Separator(s, env, p, close) == Fail(ExpectedComma, t.offset)
  {
  }

  /** `[]`: an array body that starts with `]` is the empty array. */
  lemma EmptyArrayBody(s: seq<Byte>, env: Env, st: PState, depth: nat, t: Token, st1: PState)
    requires Lexes(s, env) && ValidState(s, st)
    requires Peek(s, env, st) == Ok((t, st1)) && t.kind == RightBracket
    ensures ArrayBody(s, env, st, depth) == Ok((Ast.Array([]), st1.pos))
  {
  }

  /** A string key, `:` and a value make a member whose key is the token text
      without its quotes. */
  lemma ReadMember(s: seq<Byte>, env: Env, st: PState, depth: nat, k: Token, st1: PState,
                   c: Token, q: nat, v: Ast.Node, p: nat)
    requires Lexes(s, env) && ValidState(s, st)
    requires Peek(s, env, st) == Ok((k, st1)) && k.kind == String
    requires env.lex(st1.pos) == Lexed(Ok(c), q) && c.kind == Colon
    requires q <= |s| && ParseValue(s, env, PState(q, None), depth) == Ok((v, p))
    ensures Member(s, env, st, depth) == Ok((Ast.Pair(Unquote(k.text), v), p))
  {
  }

  /** A key followed by anything but `:` is UnexpectedToken at that token. */
  lemma MissingColon(s: seq<Byte>, env: Env, st: PState, depth: nat, k: Token, st1: PState, c: Token, q: nat)
    requires Lexes(s, env) && ValidState(s, st)
    requires Peek(s, env, st) == Ok((k, st1)) && k.kind == String
    requires env.lex(st1.pos) == Lexed(Ok(c), q) && c.kind != Colon
    ensures Member(s, env, st, depth) == Fail(UnexpectedToken, c.offset)
  {
  }

  /** A member followed by `}` ends the loop. */
  lemma LastMember(s: seq<Byte>, env: Env, st: PState, depth: nat, acc: seq<Ast.Pair>, m: Ast.Pair, p: nat, q: nat)
    requires Lexes(s, env) && ValidState(s, st)
    requires Member(s, env, st, depth) == Ok((m, p))
    requires Separator(s, env, p, RightBrace) == Ok((true, q))
    ensures Members(s, env, st, depth, acc) == Ok((acc + [m], q))
  {
  }

  /** A member followed by `,` continues the loop after the comma. */
  lemma NextMember(s: seq<Byte>, env: Env, st: PState, depth: nat, acc: seq<Ast.Pair>, m: Ast.Pair, p: nat, q: nat)
    requires Lexes(s, env) && ValidState(s, st)
    requires Member(s, env, st, depth) == Ok((m, p))
    requires Separator(s, env, p, RightBrace) == Ok((false, q))
    ensures q <= |s|
    ensures Members(s, env, st, depth, acc) == Members(s, env, PState(q, None), depth, acc + [m])
  {
  }

  /** A member failing fails the loop with the same error. */
  lemma MemberFails(s: seq<Byte>, env: Env, st: PState, depth: nat, acc: seq<Ast.Pair>, e: Error)
    requires Lexes(s, env) && ValidState(s, st)
    requires Member(s, env, st, depth) == Err(e)
    ensures Members(s, env, st, depth, acc) == Err(e)
  {
  }

  /** The separator `env` reads at `p`. */
  lemma SeparatorRead(s: seq<Byte>, env: Env, p: nat, close: TokenType, t: Token, q: nat)
    requires Lexes(s, env) && p <= |s| && close != End
    requires env.lex(p) == Lexed(Ok(t), q)
    requires t.kind == close || t.kind == Comma
    ensures Separator(s, env, p, close) == Ok((t.kind == close, q))
  {
  }

  /** A token that cannot start a value is ExpectedValue at its offset. */
  lemma NotAValue(s: seq<Byte>, env: Env, st: PState, depth: nat, t: Token, st1: PState)
    requires Lexes(s, env) && ValidState(s, st)
    requires Peek(s, env, st) == Ok((t, st1))
    requires t.kind in {End, Comma, RightBracket, RightBrace, Colon}
    ensures ParseValue(s, env, st, depth) == Fail(ExpectedValue, t.offset)
  {
  }

  /** The scalar tokens make their nodes: `null` a Null, `true` and `false` a Bool
      that is true exactly for `true`, a string its content without quotes, a
      number its lexeme when `from_chars` converts it and InvalidNumber at the
      token's offset when it does not. */
  lemma ScalarValues(s: seq<Byte>, env: Env, st: PState, depth: nat, t: Token, st1: PState)
    requires Lexes(s, env) && ValidState(s, st)
    requires Peek(s, env, st) == Ok((t, st1))
    ensures t.kind == Null ==> ParseValue(s, env, st, depth) == Ok((Ast.Null, st1.pos))
    ensures t.kind == True || t.kind == False ==>
      ParseValue(s, env, st, depth) == Ok((Ast.Bool(t.kind == True), st1.pos))
    ensures t.kind == String ==> ParseValue(s, env, st, depth) == Ok((Ast.String(Unquote(t.text)), st1.pos))
    ensures t.kind == Number && env.converts(t.text.bytes) ==>
      ParseValue(s, env, st, depth) == Ok((Ast.Number(t.text.bytes), st1.pos))
    ensures t.kind == Number && !env.converts(t.text.bytes) ==>
      ParseValue(s, env, st, depth) == Fail(InvalidNumber, t.offset)
  {
  }

  /** `peek()` with no lookahead reads one token: the tokenizer's error is returned
      unchanged, and its token becomes the lookahead with the cursor past it. */
  lemma PeekReads(s: seq<Byte>, env: Env, p: nat)
    requires Lexes(s, env) && p <= |s|
    ensures env.lex(p).result.Err? ==> Peek(s, env, PState(p, None)) == Err(env.lex(p).result.error)
    ensures env.lex(p).result.Ok? ==>
      var t := env.lex(p).result.value;
      Peek(s, env, PState(p, None)) == Ok((t, PState(env.lex(p).pos, Some(t))))
  {
  }

  /** A tokenizer error where a value, a container's first entry or a separator is
      read is the error of that step, and of `parse()` when it is the first token. */
  lemma TokenizerErrorPasses(s: seq<Byte>, env: Env, p: nat, depth: nat, close: TokenType)
    requires Lexes(s, env) && p <= |s| && close != End
    requires env.lex(p).result.Err?
    ensures ParseValue(s, env, PState(p, None), depth) == Err(env.lex(p).result.error)
    ensures ArrayBody(s, env, PState(p, None), depth) == Err(env.lex(p).result.error)
    ensures ObjectBody(s, env, PState(p, None), depth) == Err(env.lex(p).result.error)
    ensures Separator(s, env, p, close) == Err(env.lex(p).result.error)
    ensures Parse(s, env, p) == Err(env.lex(p).result.error)
  {
    PeekReads(s, env, p);
  }

  /** A `{` within the limit opens the object body one level deeper. */
  lemma OpenObject(s: seq<Byte>, env: Env, st: PState, depth: nat, t: Token, st1: PState)
    requires Lexes(s, env) && ValidState(s, st)
    requires Peek(s, env, st) == Ok((t, st1)) && t.kind == LeftBrace
    requires depth + 1 <= MaxDepth
    ensures ValidState(s, Consume(st1))
    ensures ParseValue(s, env, st, depth) == ObjectBody(s, env, Consume(st1), depth + 1)
  {
  }

  /** An object body that does not start with `}` is the member loop's result. */
  lemma BodyMembers(s: seq<Byte>, env: Env, st: PState, depth: nat, t: Token, st1: PState)
    requires Lexes(s, env) && ValidState(s, st)
    requires Peek(s, env, st) == Ok((t, st1)) && t.kind != RightBrace
    ensures ValidState(s, st1)
    ensures var r := Members(s, env, st1, depth, []);
      ObjectBody(s, env, st, depth) == (if r.Ok? then Ok((Ast.Object(r.value.0), r.value.1)) else Err(r.error))
  {
  }

  /** A tokenizer error where the body should start is the body's error. */
  lemma BodyUnreadable(s: seq<Byte>, env: Env, st: PState, depth: nat, e: Error)
    requires Lexes(s, env) && ValidState(s, st)
    requires Peek(s, env, st) == Err(e)
    ensures ObjectBody(s, env, st, depth) == Err(e)
  {
  }

  /** A member whose key is not a string token is UnexpectedToken at that token. */
  lemma KeyNotString(s: seq<Byte>, env: Env, st: PState, depth: nat, acc: seq<Ast.Pair>, t: Token, st1: PState)
    requires Lexes(s, env) && ValidState(s, st)
    requires Peek(s, env, st) == Ok((t, st1)) && t.kind != String
    ensures Members(s, env, st, depth, acc) == Fail(UnexpectedToken, t.offset)
  {
  }

  /** `parse()` once its value is read: End, or UnexpectedToken at what follows. */
  lemma ParseAfterValue(s: seq<Byte>, env: Env, p: nat, n: Ast.Node, q: nat, t: Token)
    requires Lexes(s, env) && p <= |s|
    requires ParseValue(s, env, PState(p, None), 0) == Ok((n, q))
    requires env.lex(q).result == Ok(t)
    ensures Parse(s, env, p) == if t.kind == End then Ok(n) else Fail(UnexpectedToken, t.offset)
  {
  }

  /** `parse()` when its value fails: that error. */
  lemma ParseValueFails(s: seq<Byte>, env: Env, p: nat, e: Error)
    requires Lexes(s, env) && p <= |s|
    requires ParseValue(s, env, PState(p, None), 0) == Err(e)
    ensures Parse(s, env, p) == Err(e)
  {
  }

  // ----- the nesting limit -----

  /** `n` opening brackets and then `n` closing ones. */
  function Brackets(n: nat): (s: seq<Byte>)
    ensures |s| == 2 * n
    ensures forall k | 0 <= k < n :: s[k] == LBRACKET
    ensures forall k | n <= k < 2 * n :: s[k] == RBRACKET
  {
    seq(2 * n, k => if k < n then LBRACKET else RBRACKET)
  }

  /** An empty array inside `m` arrays of one element each. */
  function Nested(m: nat): (n: Ast.Node)
    ensures n.Array?
  {
    if m == 0 then Ast.Array([]) else Ast.Array([Nested(m - 1)])
  }

  /** `Nested(m)` is `m + 1` containers deep. */
  lemma {:induction false} NestedDepth(m: nat)
    ensures Ast.Depth(Nested(m)) == m + 1
  {
    if m > 0 {
      NestedDepth(m - 1);
      assert Ast.MaxDepthOf([Nested(m - 1)]) == Ast.Depth(Nested(m - 1));
    }
  }

  /** The bytes of `s` in `[from, to)` are structural characters, each read by
      `env` where it stands. */
  ghost predicate ReadsPunctuation(s: seq<Byte>, env: Env, from: nat, to: nat)
    requires to <= |s|
  {
    forall p | from <= p < to :: IsPunctuation(s[p]) && env.lex(p) == Lexed(Ok(PunctuationAt(s, p)), p + 1)
  }

  lemma TokenizerReadsPunctuation(s: seq<Byte>, build: Build, converts: seq<Byte> -> bool, from: nat, to: nat)
    requires to <= |s| && forall p | from <= p < to :: IsPunctuation(s[p])
    ensures ReadsPunctuation(s, Env(s, build, converts), from, to)
  {
    forall p | from <= p < to
      ensures Env(s, build, converts).lex(p) == Lexed(Ok(PunctuationAt(s, p)), p + 1)
    {
      LexPunctuation(s, build, converts, p);
    }
  }

  /** The input of the nesting examples: `n` opening brackets, then `n` closing
      ones, each read by `env` where it stands. */
  ghost predicate NestedInput(s: seq<Byte>, env: Env, n: nat) {
    && Lexes(s, env) && |s| == 2 * n
    && (forall k | 0 <= k < n :: s[k] == LBRACKET)
    && (forall k | n <= k < 2 * n :: s[k] == RBRACKET)
    && ReadsPunctuation(s, env, 0, 2 * n)
  }

  /** In such an input, the `[` at `i`, read at nesting depth `i`, is an array
      `n - i` containers deep that ends at its matching `]`, as long as no more
      than `MaxDepth` are open. */
  lemma {:induction false} BracketsParse(s: seq<Byte>, env: Env, n: nat, i: nat, st: PState)
    requires NestedInput(s, env, n)
    requires i < n <= MaxDepth
    requires ValidState(s, st)
    requires Peek(s, env, st) == Ok((PunctuationAt(s, i), PState(i + 1, Some(PunctuationAt(s, i)))))
    ensures ParseValue(s, env, st, i) == Ok((Nested(n - 1 - i), 2 * n - i))
    decreases n - i
  {
    if i + 1 < n {
      var next := PState(i + 2, Some(PunctuationAt(s, i + 1)));
      OpeningAt(s, env, n, i);
      OpeningAt(s, env, n, i + 1);
      BracketsParse(s, env, n, i + 1, next);
      ClosingAt(s, env, n, 2 * n - i - 1);
      BracketsAround(s, env, i, st, Nested(n - 2 - i), 2 * n - i - 1,
                     PunctuationAt(s, i), PunctuationAt(s, i + 1), PunctuationAt(s, 2 * n - i - 1));
    } else {
      InnermostBrackets(s, env, n, st);
    }
  }

  /** In such an input, the `[` at `k` is read where it stands. */
  lemma OpeningAt(s: seq<Byte>, env: Env, n: nat, k: nat)
    requires NestedInput(s, env, n)
    requires k < n
    ensures env.lex(k) == Lexed(Ok(PunctuationAt(s, k)), k + 1)
    ensures PunctuationAt(s, k).kind == LeftBracket
  {
    assert s[k] == LBRACKET;
  }

  /** In such an input, the `]` at `k` is read where it stands. */
  lemma ClosingAt(s: seq<Byte>, env: Env, n: nat, k: nat)
    requires NestedInput(s, env, n)
    requires n <= k < 2 * n
    ensures env.lex(k) == Lexed(Ok(PunctuationAt(s, k)), k + 1)
    ensures PunctuationAt(s, k).kind == RightBracket
  {
    assert s[k] == RBRACKET;
  }

  /** A `[` read at depth `i`, a value that starts at `i + 1` and ends at `close`,
      then a `]` there: a one-element array ending past the `]`. */
  lemma BracketsAround(s: seq<Byte>, env: Env, i: nat, st: PState, v: Ast.Node, close: nat,
                       t: Token, u: Token, c: Token)
    requires Lexes(s, env) && ValidState(s, st) && i + 1 <= MaxDepth
    requires Peek(s, env, st) == Ok((t, PState(i + 1, Some(t)))) && t.kind == LeftBracket
    requires i + 1 <= |s| && env.lex(i + 1) == Lexed(Ok(u), i + 2) && u.kind != RightBracket
    requires ValidState(s, PState(i + 2, Some(u)))
    requires ParseValue(s, env, PState(i + 2, Some(u)), i + 1) == Ok((v, close))
    requires env.lex(close) == Lexed(Ok(c), close + 1) && c.kind == RightBracket
    ensures ParseValue(s, env, st, i) == Ok((Ast.Array([v]), close + 1))
  {
    var next := PState(i + 2, Some(u));
    OpenArray(s, env, st, i, t, PState(i + 1, Some(t)));
    BodyElements(s, env, PState(i + 1, None), i + 1, u, next);
    SeparatorRead(s, env, close, RightBracket, c, close + 1);
    LastElement(s, env, next, i + 1, [], v, close, close + 1);
    assert [] + [v] == [v];
  }

  /** The last `[`, directly followed by the first `]`. */
  lemma InnermostBrackets(s: seq<Byte>, env: Env, n: nat, st: PState)
    requires NestedInput(s, env, n)
    requires 0 < n <= MaxDepth
    requires ValidState(s, st)
    requires Peek(s, env, st) == Ok((PunctuationAt(s, n - 1), PState(n, Some(PunctuationAt(s, n - 1)))))
    ensures ParseValue(s, env, st, n - 1) == Ok((Ast.Array([]), n + 1))
  {
    OpenArray(s, env, st, n - 1, PunctuationAt(s, n - 1), PState(n, Some(PunctuationAt(s, n - 1))));
    assert env.lex(n) == Lexed(Ok(PunctuationAt(s, n)), n + 1);
  }

  /** `MaxDepth` nested arrays parse. */
  lemma MaxDepthParses(build: Build, converts: seq<Byte> -> bool)
    ensures Parse(Brackets(MaxDepth), Env(Brackets(MaxDepth), build, converts), 0) == Ok(Nested(MaxDepth - 1))
    ensures Ast.Depth(Nested(MaxDepth - 1)) == MaxDepth
  {
    var s := Brackets(MaxDepth);
    var env := Env(s, build, converts);
    TokenizerReadsPunctuation(s, build, converts, 0, |s|);
    assert env.lex(0) == Lexed(Ok(PunctuationAt(s, 0)), 1);
    BracketsParse(s, env, MaxDepth, 0, PState(0, None));
    LexEnd(s, build, converts);
    NestedDepth(MaxDepth - 1);
  }

  /** In an input whose first `MaxDepth + 1` bytes are `[`, the one at `k` is read
      where it stands. */
  lemma LeadingOpeningAt(s: seq<Byte>, env: Env, k: nat)
    requires |s| > MaxDepth && forall j | 0 <= j <= MaxDepth :: s[j] == LBRACKET
    requires ReadsPunctuation(s, env, 0, MaxDepth + 1)
    requires k <= MaxDepth
    ensures env.lex(k) == Lexed(Ok(PunctuationAt(s, k)), k + 1)
    ensures PunctuationAt(s, k).kind == LeftBracket
  {
    assert s[k] == LBRACKET;
  }

  /** A `[` read at depth `i`, then a value starting at `i + 1` that fails: the
      array fails with the same error. */
  lemma OpenFails(s: seq<Byte>, env: Env, i: nat, st: PState, t: Token, u: Token, e: Error)
    requires Lexes(s, env) && ValidState(s, st) && i + 1 <= MaxDepth
    requires Peek(s, env, st) == Ok((t, PState(i + 1, Some(t)))) && t.kind == LeftBracket
    requires i + 1 <= |s| && env.lex(i + 1) == Lexed(Ok(u), i + 2) && u.kind != RightBracket
    requires ValidState(s, PState(i + 2, Some(u)))
    requires ParseValue(s, env, PState(i + 2, Some(u)), i + 1) == Err(e)
    ensures ParseValue(s, env, st, i) == Err(e)
  {
    var next := PState(i + 2, Some(u));
    OpenArray(s, env, st, i, t, PState(i + 1, Some(t)));
    BodyElements(s, env, PState(i + 1, None), i + 1, u, next);
    ElementFails(s, env, next, i + 1, [], e);
  }

  /** In an input whose first `MaxDepth + 1` bytes are `[`, the one at `i`, read
      at depth `i`: the container opened at offset `MaxDepth` is one too many, and the
      error is reported at the cursor just past it. */
  lemma {:induction false} OpenTooDeep(s: seq<Byte>, env: Env, i: nat, st: PState)
    requires Lexes(s, env) && |s| > MaxDepth && forall k | 0 <= k <= MaxDepth :: s[k] == LBRACKET
    requires ReadsPunctuation(s, env, 0, MaxDepth + 1)
    requires i <= MaxDepth
    requires ValidState(s, st)
    requires Peek(s, env, st) == Ok((PunctuationAt(s, i), PState(i + 1, Some(PunctuationAt(s, i)))))
    ensures ParseValue(s, env, st, i) == Fail(TooDeep, MaxDepth + 1)
    decreases MaxDepth - i
  {
    LeadingOpeningAt(s, env, i);
    if i < MaxDepth {
      var u := PunctuationAt(s, i + 1);
      LeadingOpeningAt(s, env, i + 1);
      var next := PState(i + 2, Some(u));
      OpenTooDeep(s, env, i + 1, next);
      OpenFails(s, env, i, st, PunctuationAt(s, i), u, Fail<(Ast.Node, nat)>(TooDeep, MaxDepth + 1).error);
    } else {
      OpenArrayTooDeep(s, env, st, i, PunctuationAt(s, i), PState(i + 1, Some(PunctuationAt(s, i))));
    }
  }

  /** Whatever follows, `MaxDepth + 1` opening brackets fail with TooDeep at offset
      `MaxDepth + 1`; in particular `MaxDepth + 1` nested arrays do not parse. */
  lemma TooDeepFails(s: seq<Byte>, build: Build, converts: seq<Byte> -> bool)
    requires |s| > MaxDepth && forall k | 0 <= k <= MaxDepth :: s[k] == LBRACKET
    ensures Parse(s, Env(s, build, converts), 0) == Fail(TooDeep, MaxDepth + 1)
  {
    var env := Env(s, build, converts);
    TokenizerReadsPunctuation(s, build, converts, 0, MaxDepth + 1);
    assert env.lex(0) == Lexed(Ok(PunctuationAt(s, 0)), 1);
    OpenTooDeep(s, env, 0, PState(0, None));
  }

  /** The instance: `MaxDepth + 1` nested arrays. */
  lemma OneTooMany(build: Build, converts: seq<Byte> -> bool)
    ensures Parse(Brackets(MaxDepth + 1), Env(Brackets(MaxDepth + 1), build, converts), 0)
         == Fail(TooDeep, MaxDepth + 1)
  {
    TooDeepFails(Brackets(MaxDepth + 1), build, converts);
  }

  // ----- worked examples -----

  /** A lone digit before a structural character, whitespace or the end is a
      one-byte number token. */
  lemma LexDigit(s: seq<Byte>, build: Build, converts: seq<Byte> -> bool, p: nat)
    requires p < |s| && IsDigit(s[p])
    requires p + 1 == |s| || IsPunctuation(s[p + 1]) || IsWhitespace(s[p + 1])
    ensures Env(s, build, converts).lex(p) == Lexed(Ok(Token(Number, Ast.Slice(p, [s[p]]), p)), p + 1)
  {
    assert WsEnd(s, p) == p;
    assert s[p..p + 1] == [s[p]];
    if s[p] != ZERO {
      assert DigitsEnd(s, p + 1) == p + 1;
    }
  }

  /** Whitespace in front of a token is skipped. */
  lemma LexSpace(s: seq<Byte>, build: Build, converts: seq<Byte> -> bool, p: nat)
    requires p < |s| && IsWhitespace(s[p])
    ensures Env(s, build, converts).lex(p) == Env(s, build, converts).lex(p + 1)
  {
    assert WsEnd(s, p) == WsEnd(s, p + 1);
  }

  /** A one-byte string without escapes is its own slice, quotes included, with
      either tokenizer. */
  lemma LexLetter(s: seq<Byte>, build: Build, converts: seq<Byte> -> bool, p: nat)
    requires p + 2 < |s| && s[p] == QUOTE && s[p + 2] == QUOTE
    requires s[p + 1] != QUOTE && s[p + 1] != BACKSLASH
    ensures Env(s, build, converts).lex(p)
         == Lexed(Ok(Token(String, Ast.Slice(p, [QUOTE, s[p + 1], QUOTE]), p)), p + 3)
  {
    assert WsEnd(s, p) == p;
    assert s[p..p + 3] == [QUOTE, s[p + 1], QUOTE];
    assert Scan(s, p, p + 1, false) == Ok(Scanned(p + 2, false));
    assert RawScan(s, p, p + 1) == Lexed(Ok(Token(String, Ast.Slice(p, s[p..p + 3]), p)), p + 3);
  }

  /** The key or string value of a one-byte string token is that byte. */
  lemma UnquoteLetter(p: nat, x: Byte)
    ensures Unquote(Ast.Slice(p, [QUOTE, x, QUOTE])) == Ast.Slice(p + 1, [x])
  {
    assert [QUOTE, x, QUOTE][1..2] == [x];
  }

  /** A number token whose lexeme converts is a Number node holding the lexeme. */
  lemma NumberValue(s: seq<Byte>, env: Env, st: PState, depth: nat, t: Token, st1: PState)
    requires Lexes(s, env) && ValidState(s, st)
    requires Peek(s, env, st) == Ok((t, st1)) && t.kind == Number && env.converts(t.text.bytes)
    ensures ParseValue(s, env, st, depth) == Ok((Ast.Number(t.text.bytes), st1.pos))
  {
  }

  /** `1 2`: one value, then another token where End should be: UnexpectedToken at
      the offset of the `2`. */
  lemma TrailingToken(build: Build, converts: seq<Byte> -> bool)
    requires converts(['1' as int])
    ensures Parse(Ascii("1 2"), Env(Ascii("1 2"), build, converts), 0) == Fail(UnexpectedToken, 2)
  {
    var s := Ascii("1 2");
    var env := Env(s, build, converts);
    var one := Token(Number, Ast.Slice(0, [s[0]]), 0);
    LexDigit(s, build, converts, 0);
    LexSpace(s, build, converts, 1);
    LexDigit(s, build, converts, 2);
    NumberValue(s, env, PState(0, None), 0, one, PState(1, Some(one)));
    ParseAfterValue(s, env, 0, Ast.Number([s[0]]), 1, Token(Number, Ast.Slice(2, [s[2]]), 2));
  }

  /** `[`, a value, `,` and `]`, whatever bytes they are read from: the `]` is
      ExpectedValue at its offset. */
  lemma CloseAfterComma(s: seq<Byte>, env: Env, t0: Token, t1: Token, t2: Token, t3: Token)
    requires Lexes(s, env) && 4 <= |s|
    requires env.lex(0) == Lexed(Ok(t0), 1) && t0.kind == LeftBracket
    requires env.lex(1) == Lexed(Ok(t1), 2) && t1.kind == Number && env.converts(t1.text.bytes)
    requires env.lex(2) == Lexed(Ok(t2), 3) && t2.kind == Comma
    requires env.lex(3) == Lexed(Ok(t3), 4) && t3.kind == RightBracket
    ensures Parse(s, env, 0) == Fail(ExpectedValue, t3.offset)
  {
    var v := Ast.Number(t1.text.bytes);
    OpenArray(s, env, PState(0, None), 0, t0, PState(1, Some(t0)));
    BodyElements(s, env, PState(1, None), 1, t1, PState(2, Some(t1)));
    NumberValue(s, env, PState(2, Some(t1)), 1, t1, PState(2, Some(t1)));
    SeparatorRead(s, env, 2, RightBracket, t2, 3);
    NextElement(s, env, PState(2, Some(t1)), 1, [], v, 2, 3);
    NotAValue(s, env, PState(3, None), 1, t3, PState(4, Some(t3)));
    ElementFails(s, env, PState(3, None), 1, [v], Fail<(Ast.Node, nat)>(ExpectedValue, t3.offset).error);
    ParseValueFails(s, env, 0, Fail<(Ast.Node, nat)>(ExpectedValue, t3.offset).error);
  }

  /** `[1,]`: a `,` must be followed by a value, so the `]` is ExpectedValue at its
      offset. */
  lemma TrailingComma(build: Build, converts: seq<Byte> -> bool)
    requires converts(['1' as int])
    ensures Parse(Ascii("[1,]"), Env(Ascii("[1,]"), build, converts), 0) == Fail(ExpectedValue, 3)
  {
    var s := Ascii("[1,]");
    LexPunctuation(s, build, converts, 0);
    LexDigit(s, build, converts, 1);
    LexPunctuation(s, build, converts, 2);
    LexPunctuation(s, build, converts, 3);
    CloseAfterComma(s, Env(s, build, converts), PunctuationAt(s, 0), Token(Number, Ast.Slice(1, [s[1]]), 1),
                    PunctuationAt(s, 2), PunctuationAt(s, 3));
  }

  /** `{` followed by a token that is not a string: UnexpectedToken at it. */
  lemma KeyFirst(s: seq<Byte>, env: Env, t0: Token, t1: Token, q: nat)
    requires Lexes(s, env) && 1 <= |s|
    requires env.lex(0) == Lexed(Ok(t0), 1) && t0.kind == LeftBrace
    requires env.lex(1) == Lexed(Ok(t1), q) && t1.kind != String && t1.kind != RightBrace
    ensures Parse(s, env, 0) == Fail(UnexpectedToken, t1.offset)
  {
    OpenObject(s, env, PState(0, None), 0, t0, PState(1, Some(t0)));
    BodyMembers(s, env, PState(1, None), 1, t1, PState(q, Some(t1)));
    KeyNotString(s, env, PState(q, Some(t1)), 1, [], t1, PState(q, Some(t1)));
    ParseValueFails(s, env, 0, Fail<(Ast.Node, nat)>(UnexpectedToken, t1.offset).error);
  }

  /** `{1,2}`: a key must be a string: UnexpectedToken at the `1`. */
  lemma NumberKey(build: Build, converts: seq<Byte> -> bool)
    ensures Parse(Ascii("{1,2}"), Env(Ascii("{1,2}"), build, converts), 0) == Fail(UnexpectedToken, 1)
  {
    var s := Ascii("{1,2}");
    LexPunctuation(s, build, converts, 0);
    LexDigit(s, build, converts, 1);
    KeyFirst(s, Env(s, build, converts), PunctuationAt(s, 0), Token(Number, Ast.Slice(1, [s[1]]), 1), 2);
  }

  /** A `{` followed by bytes the tokenizer rejects: the tokenizer's error. */
  lemma UnreadableMember(s: seq<Byte>, env: Env, t0: Token, e: Error)
    requires Lexes(s, env) && 1 <= |s|
    requires env.lex(0) == Lexed(Ok(t0), 1) && t0.kind == LeftBrace
    requires env.lex(1).result == Err(e)
    ensures Parse(s, env, 0) == Err(e)
  {
    OpenObject(s, env, PState(0, None), 0, t0, PState(1, Some(t0)));
    BodyUnreadable(s, env, PState(1, None), 1, e);
    ParseValueFails(s, env, 0, e);
  }

  /** `{ invalid json }`: the `i` cannot start a token. */
  lemma InvalidJson(build: Build, converts: seq<Byte> -> bool)
    ensures Parse(Ascii("{ invalid json }"), Env(Ascii("{ invalid json }"), build, converts), 0)
         == Fail(InvalidToken, 2)
  {
    var s := Ascii("{ invalid json }");
    LexPunctuation(s, build, converts, 0);
    LexSpace(s, build, converts, 1);
    assert WsEnd(s, 2) == 2;
    UnreadableMember(s, Env(s, build, converts), PunctuationAt(s, 0), Fail<Token>(InvalidToken, 2).error);
  }

  /** `[` then `]` then the end of the input: the empty array. */
  lemma EmptyBrackets(s: seq<Byte>, env: Env, t0: Token, t1: Token, t2: Token)
    requires Lexes(s, env) && 2 <= |s|
    requires env.lex(0) == Lexed(Ok(t0), 1) && t0.kind == LeftBracket
    requires env.lex(1) == Lexed(Ok(t1), 2) && t1.kind == RightBracket
    requires env.lex(2).result == Ok(t2) && t2.kind == End
    ensures Parse(s, env, 0) == Ok(Ast.Array([]))
  {
    OpenArray(s, env, PState(0, None), 0, t0, PState(1, Some(t0)));
    EmptyArrayBody(s, env, PState(1, None), 1, t1, PState(2, Some(t1)));
    ParseAfterValue(s, env, 0, Ast.Array([]), 2, t2);
  }

  /** `[]` is an array of size 0. */
  lemma EmptyArray(build: Build, converts: seq<Byte> -> bool)
    ensures Parse(Ascii("[]"), Env(Ascii("[]"), build, converts), 0) == Ok(Ast.Array([]))
    ensures Ast.Size(Ast.Array([])) == 0
  {
    var s := Ascii("[]");
    LexPunctuation(s, build, converts, 0);
    LexPunctuation(s, build, converts, 1);
    LexEnd(s, build, converts);
    EmptyBrackets(s, Env(s, build, converts), PunctuationAt(s, 0), PunctuationAt(s, 1), Token(End, Ast.Slice(2, []), 2));
  }

  /** `[`, a value, then a token that is neither `,` nor `]`: ExpectedComma at it. */
  lemma NoSeparator(s: seq<Byte>, env: Env, t0: Token, t1: Token, p: nat, t2: Token, q: nat)
    requires Lexes(s, env) && 2 <= p <= |s|
    requires env.lex(0) == Lexed(Ok(t0), 1) && t0.kind == LeftBracket
    requires env.lex(1) == Lexed(Ok(t1), p) && t1.kind == Number && env.converts(t1.text.bytes)
    requires env.lex(p) == Lexed(Ok(t2), q) && t2.kind != Comma && t2.kind != RightBracket
    ensures Parse(s, env, 0) == Fail(ExpectedComma, t2.offset)
  {
    var v := Ast.Number(t1.text.bytes);
    OpenArray(s, env, PState(0, None), 0, t0, PState(1, Some(t0)));
    BodyElements(s, env, PState(1, None), 1, t1, PState(p, Some(t1)));
    NumberValue(s, env, PState(p, Some(t1)), 1, t1, PState(p, Some(t1)));
    SeparatorWrong(s, env, p, RightBracket, t2, q);
    SeparatorFails(s, env, PState(p, Some(t1)), 1, [], v, p, Fail<(bool, nat)>(ExpectedComma, t2.offset).error);
    ParseValueFails(s, env, 0, Fail<(Ast.Node, nat)>(ExpectedComma, t2.offset).error);
  }

  /** `[1 2]`: two elements need a `,` between them: ExpectedComma at the `2`. */
  lemma MissingComma(build: Build, converts: seq<Byte> -> bool)
    requires converts(['1' as int])
    ensures Parse(Ascii("[1 2]"), Env(Ascii("[1 2]"), build, converts), 0) == Fail(ExpectedComma, 3)
  {
    var s := Ascii("[1 2]");
    LexPunctuation(s, build, converts, 0);
    LexDigit(s, build, converts, 1);
    LexSpace(s, build, converts, 2);
    LexDigit(s, build, converts, 3);
    NoSeparator(s, Env(s, build, converts), PunctuationAt(s, 0), Token(Number, Ast.Slice(1, [s[1]]), 1), 2,
                Token(Number, Ast.Slice(3, [s[3]]), 3), 4);
  }

  /** `{`, a string key, then a token other than `:`: UnexpectedToken at it. */
  lemma NoColon(s: seq<Byte>, env: Env, t0: Token, k: Token, p: nat, c: Token, q: nat)
    requires Lexes(s, env) && 2 <= p <= |s|
    requires env.lex(0) == Lexed(Ok(t0), 1) && t0.kind == LeftBrace
    requires env.lex(1) == Lexed(Ok(k), p) && k.kind == String
    requires env.lex(p) == Lexed(Ok(c), q) && c.kind != Colon
    ensures Parse(s, env, 0) == Fail(UnexpectedToken, c.offset)
  {
    OpenObject(s, env, PState(0, None), 0, t0, PState(1, Some(t0)));
    BodyMembers(s, env, PState(1, None), 1, k, PState(p, Some(k)));
    MissingColon(s, env, PState(p, Some(k)), 1, k, PState(p, Some(k)), c, q);
    MemberFails(s, env, PState(p, Some(k)), 1, [], Fail<(Ast.Pair, nat)>(UnexpectedToken, c.offset).error);
    ParseValueFails(s, env, 0, Fail<(Ast.Node, nat)>(UnexpectedToken, c.offset).error);
  }

  /** `{"a" 1}`: a missing `:` is UnexpectedToken at what stands there, the `1`. */
  lemma KeyWithoutColon(build: Build, converts: seq<Byte> -> bool)
    ensures Parse(Ascii("{\"a\" 1}"), Env(Ascii("{\"a\" 1}"), build, converts), 0) == Fail(UnexpectedToken, 5)
  {
    var s := Ascii("{\"a\" 1}");
    LexPunctuation(s, build, converts, 0);
    LexLetter(s, build, converts, 1);
    LexSpace(s, build, converts, 4);
    LexDigit(s, build, converts, 5);
    NoColon(s, Env(s, build, converts), PunctuationAt(s, 0), Token(String, Ast.Slice(1, [QUOTE, s[2], QUOTE]), 1), 4,
            Token(Number, Ast.Slice(5, [s[5]]), 5), 6);
  }

  /** Three numbers between `[` and `]`, with a `,` after the first two and
      whitespace after each `,`: the array of the three, in order. */
  lemma ThreeElements(s: seq<Byte>, env: Env, t0: Token, a: Token, c1: Token, b: Token, c2: Token,
                      c: Token, close: Token, end: Token)
    requires Lexes(s, env) && |s| == 9
    requires env.lex(0) == Lexed(Ok(t0), 1) && t0.kind == LeftBracket
    requires env.lex(1) == Lexed(Ok(a), 2) && a.kind == Number && env.converts(a.text.bytes)
    requires env.lex(2) == Lexed(Ok(c1), 3) && c1.kind == Comma
    requires env.lex(3) == Lexed(Ok(b), 5) && b.kind == Number && env.converts(b.text.bytes)
    requires env.lex(5) == Lexed(Ok(c2), 6) && c2.kind == Comma
    requires env.lex(6) == Lexed(Ok(c), 8) && c.kind == Number && env.converts(c.text.bytes)
    requires env.lex(8) == Lexed(Ok(close), 9) && close.kind == RightBracket
    requires env.lex(9).result == Ok(end) && end.kind == End
    ensures Parse(s, env, 0)
         == Ok(Ast.Array([Ast.Number(a.text.bytes), Ast.Number(b.text.bytes), Ast.Number(c.text.bytes)]))
  {
    var va, vb, vc := Ast.Number(a.text.bytes), Ast.Number(b.text.bytes), Ast.Number(c.text.bytes);
    OpenArray(s, env, PState(0, None), 0, t0, PState(1, Some(t0)));
    BodyElements(s, env, PState(1, None), 1, a, PState(2, Some(a)));
    NumberValue(s, env, PState(2, Some(a)), 1, a, PState(2, Some(a)));
    SeparatorRead(s, env, 2, RightBracket, c1, 3);
    NextElement(s, env, PState(2, Some(a)), 1, [], va, 2, 3);
    NumberValue(s, env, PState(3, None), 1, b, PState(5, Some(b)));
    SeparatorRead(s, env, 5, RightBracket, c2, 6);
    NextElement(s, env, PState(3, None), 1, [] + [va], vb, 5, 6);
    NumberValue(s, env, PState(6, None), 1, c, PState(8, Some(c)));
    SeparatorRead(s, env, 8, RightBracket, close, 9);
    LastElement(s, env, PState(6, None), 1, [] + [va] + [vb], vc, 8, 9);
    assert [] + [va] + [vb] + [vc] == [va, vb, vc];
    ParseAfterValue(s, env, 0, Ast.Array([va, vb, vc]), 9, end);
  }

  /** The bytes of `[x, y, z]` for digits `x`, `y` and `z`. */
  predicate ThreeDigitsBytes(s: seq<Byte>) {
    && |s| == 9 && s[0] == LBRACKET && s[2] == COMMA && s[5] == COMMA && s[8] == RBRACKET
    && s[3] == SPACE && s[6] == SPACE && IsDigit(s[1]) && IsDigit(s[4]) && IsDigit(s[7])
  }

  /** The tokens of `[x, y, z]` up to the second comma. */
  lemma ThreeDigitsFirstTokens(s: seq<Byte>, build: Build, converts: seq<Byte> -> bool)
    requires ThreeDigitsBytes(s)
    ensures var env := Env(s, build, converts);
      && env.lex(0) == Lexed(Ok(PunctuationAt(s, 0)), 1)
      && env.lex(1) == Lexed(Ok(Token(Number, Ast.Slice(1, [s[1]]), 1)), 2)
      && env.lex(2) == Lexed(Ok(PunctuationAt(s, 2)), 3)
      && env.lex(3) == Lexed(Ok(Token(Number, Ast.Slice(4, [s[4]]), 4)), 5)
  {
    LexPunctuation(s, build, converts, 0);
    LexDigit(s, build, converts, 1);
    LexPunctuation(s, build, converts, 2);
    LexSpace(s, build, converts, 3);
    LexDigit(s, build, converts, 4);
  }

  /** The tokens of `[x, y, z]` from the second comma on. */
  lemma ThreeDigitsLastTokens(s: seq<Byte>, build: Build, converts: seq<Byte> -> bool)
    requires ThreeDigitsBytes(s)
    ensures var env := Env(s, build, converts);
      && env.lex(5) == Lexed(Ok(PunctuationAt(s, 5)), 6)
      && env.lex(6) == Lexed(Ok(Token(Number, Ast.Slice(7, [s[7]]), 7)), 8)
      && env.lex(8) == Lexed(Ok(PunctuationAt(s, 8)), 9)
      && env.lex(9) == Lexed(Ok(Token(End, Ast.Slice(9, []), 9)), 9)
  {
    LexPunctuation(s, build, converts, 5);
    LexSpace(s, build, converts, 6);
    LexDigit(s, build, converts, 7);
    LexPunctuation(s, build, converts, 8);
    LexEnd(s, build, converts);
  }

  /** `[x, y, z]` is the array of the three digits as numbers, in order. */
  lemma ThreeDigits(s: seq<Byte>, build: Build, converts: seq<Byte> -> bool)
    requires ThreeDigitsBytes(s) && converts([s[1]]) && converts([s[4]]) && converts([s[7]])
    ensures Parse(s, Env(s, build, converts), 0)
         == Ok(Ast.Array([Ast.Number([s[1]]), Ast.Number([s[4]]), Ast.Number([s[7]])]))
  {
    ThreeDigitsFirstTokens(s, build, converts);
    ThreeDigitsLastTokens(s, build, converts);
    ThreeElements(s, Env(s, build, converts), PunctuationAt(s, 0), Token(Number, Ast.Slice(1, [s[1]]), 1),
                  PunctuationAt(s, 2), Token(Number, Ast.Slice(4, [s[4]]), 4), PunctuationAt(s, 5),
                  Token(Number, Ast.Slice(7, [s[7]]), 7), PunctuationAt(s, 8), Token(End, Ast.Slice(9, []), 9));
  }

  /** `[1, 2, 3]` is an array of size 3 holding the three numbers in order. */
  lemma ThreeNumbers(build: Build, converts: seq<Byte> -> bool)
    requires converts(['1' as int]) && converts(['2' as int]) && converts(['3' as int])
    ensures var n := Ast.Array([Ast.Number(['1' as int]), Ast.Number(['2' as int]), Ast.Number(['3' as int])]);
      Parse(Ascii("[1, 2, 3]"), Env(Ascii("[1, 2, 3]"), build, converts), 0) == Ok(n) && Ast.Size(n) == 3
  {
    ThreeDigits(Ascii("[1, 2, 3]"), build, converts);
  }

  /** Two members with keys `k1` and `k2` in braces, `{k1:a,k2:b}` with no
      whitespace and one-byte keys and values: both members, in order, whatever
      the keys are. */
  lemma TwoMembers(s: seq<Byte>, env: Env, t0: Token, k1: Token, d1: Token, a: Token, sep: Token,
                   k2: Token, d2: Token, b: Token, close: Token, end: Token)
    requires Lexes(s, env) && |s| == 13
    requires env.lex(0) == Lexed(Ok(t0), 1) && t0.kind == LeftBrace
    requires env.lex(1) == Lexed(Ok(k1), 4) && k1.kind == String
    requires env.lex(4) == Lexed(Ok(d1), 5) && d1.kind == Colon
    requires env.lex(5) == Lexed(Ok(a), 6) && a.kind == Number && env.converts(a.text.bytes)
    requires env.lex(6) == Lexed(Ok(sep), 7) && sep.kind == Comma
    requires env.lex(7) == Lexed(Ok(k2), 10) && k2.kind == String
    requires env.lex(10) == Lexed(Ok(d2), 11) && d2.kind == Colon
    requires env.lex(11) == Lexed(Ok(b), 12) && b.kind == Number && env.converts(b.text.bytes)
    requires env.lex(12) == Lexed(Ok(close), 13) && close.kind == RightBrace
    requires env.lex(13).result == Ok(end) && end.kind == End
    ensures Parse(s, env, 0) == Ok(Ast.Object([Ast.Pair(Unquote(k1.text), Ast.Number(a.text.bytes)),
                                               Ast.Pair(Unquote(k2.text), Ast.Number(b.text.bytes))]))
  {
    var m1 := Ast.Pair(Unquote(k1.text), Ast.Number(a.text.bytes));
    var m2 := Ast.Pair(Unquote(k2.text), Ast.Number(b.text.bytes));
    OpenObject(s, env, PState(0, None), 0, t0, PState(1, Some(t0)));
    BodyMembers(s, env, PState(1, None), 1, k1, PState(4, Some(k1)));
    NumberValue(s, env, PState(5, None), 1, a, PState(6, Some(a)));
    ReadMember(s, env, PState(4, Some(k1)), 1, k1, PState(4, Some(k1)), d1, 5, Ast.Number(a.text.bytes), 6);
    SeparatorRead(s, env, 6, RightBrace, sep, 7);
    NextMember(s, env, PState(4, Some(k1)), 1, [], m1, 6, 7);
    NumberValue(s, env, PState(11, None), 1, b, PState(12, Some(b)));
    ReadMember(s, env, PState(7, None), 1, k2, PState(10, Some(k2)), d2, 11, Ast.Number(b.text.bytes), 12);
    SeparatorRead(s, env, 12, RightBrace, close, 13);
    LastMember(s, env, PState(7, None), 1, [] + [m1], m2, 12, 13);
    assert [] + [m1] + [m2] == [m1, m2];
    ParseAfterValue(s, env, 0, Ast.Object([m1, m2]), 13, end);
  }

  /** The bytes of `{"x":y,"x":z}`: `x` one byte other than a quote or a
      backslash, `y` and `z` digits. */
  predicate RepeatedKeyBytes(s: seq<Byte>) {
    && |s| == 13 && s[0] == LBRACE && s[12] == RBRACE && s[4] == COLON && s[10] == COLON && s[6] == COMMA
    && s[1] == QUOTE && s[3] == QUOTE && s[7] == QUOTE && s[9] == QUOTE
    && s[2] != QUOTE && s[2] != BACKSLASH && s[8] == s[2]
    && IsDigit(s[5]) && IsDigit(s[11])
  }

  /** The tokens of `{"x":y,"x":z}` up to the second key. */
  lemma RepeatedKeyFirstTokens(s: seq<Byte>, build: Build, converts: seq<Byte> -> bool)
    requires RepeatedKeyBytes(s)
    ensures var env := Env(s, build, converts);
      && env.lex(0) == Lexed(Ok(PunctuationAt(s, 0)), 1)
      && env.lex(1) == Lexed(Ok(Token(String, Ast.Slice(1, [QUOTE, s[2], QUOTE]), 1)), 4)
      && env.lex(4) == Lexed(Ok(PunctuationAt(s, 4)), 5)
      && env.lex(5) == Lexed(Ok(Token(Number, Ast.Slice(5, [s[5]]), 5)), 6)
      && env.lex(6) == Lexed(Ok(PunctuationAt(s, 6)), 7)
  {
    LexPunctuation(s, build, converts, 0);
    LexLetter(s, build, converts, 1);
    LexPunctuation(s, build, converts, 4);
    LexDigit(s, build, converts, 5);
    LexPunctuation(s, build, converts, 6);
  }

  /** The tokens of `{"x":y,"x":z}` from the second key on. */
  lemma RepeatedKeyLastTokens(s: seq<Byte>, build: Build, converts: seq<Byte> -> bool)
    requires RepeatedKeyBytes(s)
    ensures var env := Env(s, build, converts);
      && env.lex(7) == Lexed(Ok(Token(String, Ast.Slice(7, [QUOTE, s[2], QUOTE]), 7)), 10)
      && env.lex(10) == Lexed(Ok(PunctuationAt(s, 10)), 11)
      && env.lex(11) == Lexed(Ok(Token(Number, Ast.Slice(11, [s[11]]), 11)), 12)
      && env.lex(12) == Lexed(Ok(PunctuationAt(s, 12)), 13)
      && env.lex(13) == Lexed(Ok(Token(End, Ast.Slice(13, []), 13)), 13)
  {
    LexLetter(s, build, converts, 7);
    LexPunctuation(s, build, converts, 10);
    LexDigit(s, build, converts, 11);
    LexPunctuation(s, build, converts, 12);
    LexEnd(s, build, converts);
  }

  /** `{"x":y,"x":z}`: both members, the repeated key kept. */
  lemma RepeatedKey(s: seq<Byte>, build: Build, converts: seq<Byte> -> bool)
    requires RepeatedKeyBytes(s) && converts([s[5]]) && converts([s[11]])
    ensures Parse(s, Env(s, build, converts), 0)
         == Ok(Ast.Object([Ast.Pair(Ast.Slice(2, [s[2]]), Ast.Number([s[5]])),
                           Ast.Pair(Ast.Slice(8, [s[2]]), Ast.Number([s[11]]))]))
  {
    RepeatedKeyFirstTokens(s, build, converts);
    RepeatedKeyLastTokens(s, build, converts);
    var k1 := Token(String, Ast.Slice(1, [QUOTE, s[2], QUOTE]), 1);
    var k2 := Token(String, Ast.Slice(7, [QUOTE, s[2], QUOTE]), 7);
    UnquoteLetter(1, s[2]);
    UnquoteLetter(7, s[2]);
    TwoMembers(s, Env(s, build, converts), PunctuationAt(s, 0), k1, PunctuationAt(s, 4),
               Token(Number, Ast.Slice(5, [s[5]]), 5), PunctuationAt(s, 6), k2, PunctuationAt(s, 10),
               Token(Number, Ast.Slice(11, [s[11]]), 11), PunctuationAt(s, 12), Token(End, Ast.Slice(13, []), 13));
  }

  /** `{"a":1,"a":2}`: a repeated key is kept, both members in source order. */
  lemma DuplicateKeys(build: Build, converts: seq<Byte> -> bool)
    requires converts(['1' as int]) && converts(['2' as int])
    ensures Parse(Ascii("{\"a\":1,\"a\":2}"), Env(Ascii("{\"a\":1,\"a\":2}"), build, converts), 0)
         == Ok(Ast.Object([Ast.Pair(Ast.Slice(2, ['a' as int]), Ast.Number(['1' as int])),
                           Ast.Pair(Ast.Slice(8, ['a' as int]), Ast.Number(['2' as int]))]))
  {
    RepeatedKey(Ascii("{\"a\":1,\"a\":2}"), build, converts);
  }
}
