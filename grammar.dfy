/** What `Parser::parse()` of src/parser.cpp computes, as pure functions of the input.
    The parser state is the tokenizer cursor and the one-token lookahead of
    `peek()` (`current_` when `has_current_`); every function takes the state it
    starts in and returns the value and the cursor it leaves, the lookahead being
    consumed after every successful value. The Parser class (parser.dfy) is proved
    to compute these. */
module Grammar {
  import opened Bytes
  import opened Errors
  import opened Lexer
  import Ast

  /** `Parser::MaxDepth`: containers nested deeper than this are refused. */
  const MaxDepth: nat := 256

  /** What the parser depends on: `lex(p)` is what `Tokenizer::next()` returns from
      cursor `p`, and `converts` says whether `std::from_chars` converts a number
      lexeme to a `double` (it reports an error for a value out of range; the
      conversion itself is not modelled). */
  datatype Env = Env(lex: nat -> Lexed, converts: seq<Byte> -> bool)

  /** The environment of a parser reading `s` with the tokenizer build `build`. */
  function TokenizerEnv(s: seq<Byte>, build: Build, converts: seq<Byte> -> bool): (env: Env)
    ensures Lexes(s, env)
  {
    Env((p: nat) => if p <= |s| then Next(s, p, build) else Lexed(Fail(UnexpectedEOF, |s|), |s|), converts)
  }

  /** Every token `lex` returns is well placed (see `Lexer.TokenAt`). */
  ghost predicate Lexes(s: seq<Byte>, env: Env) {
    forall p: nat | p <= |s| :: LexedAt(s, p, env.lex(p))
  }

  predicate LexedAt(s: seq<Byte>, p: nat, l: Lexed)
    requires p <= |s|
  {
    l.pos <= |s| && (l.result.Ok? ==> TokenAt(s, p, l.result.value, l.pos))
  }

  /** The tokenizer cursor `pos_` and the lookahead token. */
  datatype PState = PState(pos: nat, la: Option<Token>)

  /** A state the parser can be in: a lookahead came from the tokenizer, so the
      cursor is past it, or at its offset for the End token. */
  predicate ValidState(s: seq<Byte>, st: PState) {
    && st.pos <= |s|
    && (st.la.Some? ==>
          st.la.value.offset <= st.pos
          && (st.la.value.kind != End ==> st.la.value.offset < st.pos)
          && (st.la.value.kind == End ==> st.la.value.offset == |s|))
  }

  /** Where the unread input starts: at the lookahead token if there is one. */
  function Unread(st: PState): nat {
    if st.la.Some? then st.la.value.offset else st.pos
  }

  /** `peek()`: the lookahead, reading a token into it if there is none. */
  function Peek(s: seq<Byte>, env: Env, st: PState): (r: Result<(Token, PState)>)
    requires Lexes(s, env) && ValidState(s, st)
    ensures r.Ok? ==>
      && r.value.1.la == Some(r.value.0)
      && ValidState(s, r.value.1)
      && Unread(st) <= r.value.0.offset
      && (r.value.0.kind == End ==> r.value.0.offset == |s|)
      && (st.la.Some? ==> r.value.1 == st)
  {
    if st.la.Some? then Ok((st.la.value, st))
    else
      var l := env.lex(st.pos);
      match l.result
      case Err(e) => Err(e)
      case Ok(t) => Ok((t, PState(l.pos, Some(t))))
  }

  /** `consume()`: drops the lookahead. */
  function Consume(st: PState): PState {
    PState(st.pos, None)
  }

  /** The content of a string token without its quotes, `text.substr(1, size - 2)`
      when it has at least two bytes. */
  function Unquote(t: Ast.Str): (r: Ast.Str)
    ensures |t.bytes| >= 2 ==> r.bytes == t.bytes[1..|t.bytes| - 1]
    ensures |t.bytes| < 2 ==> r == t
  {
    if |t.bytes| >= 2 then
      match t
      case Slice(start, b) => Ast.Slice(start + 1, b[1..|b| - 1])
      case Owned(b) => Ast.Owned(b[1..|b| - 1])
    else t
  }

  /** `parse_value()` at nesting depth `depth`: the value and the cursor after it. */
  function ParseValue(s: seq<Byte>, env: Env, st: PState, depth: nat): (r: Result<(Ast.Node, nat)>)
    requires Lexes(s, env) && ValidState(s, st)
    ensures r.Ok? ==> Unread(st) < r.value.1 <= |s|
    decreases |s| - Unread(st), 2
  {
    match Peek(s, env, st)
    case Err(e) => Err(e)
    case Ok((t, st1)) =>
      match t.kind
      case Null => Ok((Ast.Null, st1.pos))
      case True => Ok((Ast.Bool(true), st1.pos))
      case False => Ok((Ast.Bool(false), st1.pos))
      case Number =>
        if env.converts(t.text.bytes) then Ok((Ast.Number(t.text.bytes), st1.pos))
        else Fail(InvalidNumber, t.offset)
      case String => Ok((Ast.String(Unquote(t.text)), st1.pos))
      case LeftBracket => ParseArray(s, env, st1, depth)
      case LeftBrace => ParseObject(s, env, st1, depth)
      case _ => Fail(ExpectedValue, t.offset)
  }

  /** `parse_array()`, the `[` in the lookahead. */
  function ParseArray(s: seq<Byte>, env: Env, st: PState, depth: nat): (r: Result<(Ast.Node, nat)>)
    requires Lexes(s, env) && ValidState(s, st) && st.la.Some? && st.la.value.kind == LeftBracket
    ensures r.Ok? ==> Unread(st) < r.value.1 <= |s| && r.value.0.Array?
    decreases |s| - Unread(st), 1
  {
    if depth + 1 > MaxDepth then Fail(TooDeep, st.pos)
    else ArrayBody(s, env, Consume(st), depth + 1)
  }

  /** `parse_array()` after its `[`: `]` at once, or the element loop. */
  function ArrayBody(s: seq<Byte>, env: Env, st: PState, depth: nat): (r: Result<(Ast.Node, nat)>)
    requires Lexes(s, env) && ValidState(s, st)
    ensures r.Ok? ==> Unread(st) < r.value.1 <= |s| && r.value.0.Array?
    decreases |s| - Unread(st), 4
  {
    match Peek(s, env, st)
    case Err(e) => Err(e)
    case Ok((t, st1)) =>
      if t.kind == RightBracket then Ok((Ast.Array([]), st1.pos))
      else
        match Elements(s, env, st1, depth, [])
        case Err(e) => Err(e)
        case Ok((elems, p)) => Ok((Ast.Array(elems), p))
  }

  /** The element loop of `parse_array()`: `acc` holds the elements read so far; one
      more value, then `]` ends the array and `,` continues it. */
  function Elements(s: seq<Byte>, env: Env, st: PState, depth: nat, acc: seq<Ast.Node>)
    : (r: Result<(seq<Ast.Node>, nat)>)
    requires Lexes(s, env) && ValidState(s, st)
    ensures r.Ok? ==> Unread(st) < r.value.1 <= |s| && |r.value.0| > |acc|
    decreases |s| - Unread(st), 3
  {
    match ParseValue(s, env, st, depth)
    case Err(e) => Err(e)
    case Ok((v, p)) =>
      match Separator(s, env, p, RightBracket)
      case Err(e) => Err(e)
      case Ok((closed, q)) =>
        if closed then Ok((acc + [v], q))
        else Elements(s, env, PState(q, None), depth, acc + [v])
  }

  /** `parse_object()`, the `{` in the lookahead. */
  function ParseObject(s: seq<Byte>, env: Env, st: PState, depth: nat): (r: Result<(Ast.Node, nat)>)
    requires Lexes(s, env) && ValidState(s, st) && st.la.Some? && st.la.value.kind == LeftBrace
    ensures r.Ok? ==> Unread(st) < r.value.1 <= |s| && r.value.0.Object?
    decreases |s| - Unread(st), 1
  {
    if depth + 1 > MaxDepth then Fail(TooDeep, st.pos)
    else ObjectBody(s, env, Consume(st), depth + 1)
  }

  /** `parse_object()` after its `{`: `}` at once, or the member loop. */
  function ObjectBody(s: seq<Byte>, env: Env, st: PState, depth: nat): (r: Result<(Ast.Node, nat)>)
    requires Lexes(s, env) && ValidState(s, st)
    ensures r.Ok? ==> Unread(st) < r.value.1 <= |s| && r.value.0.Object?
    decreases |s| - Unread(st), 5
  {
    match Peek(s, env, st)
    case Err(e) => Err(e)
    case Ok((t, st1)) =>
      if t.kind == RightBrace then Ok((Ast.Object([]), st1.pos))
      else
        match Members(s, env, st1, depth, [])
        case Err(e) => Err(e)
        case Ok((pairs, p)) => Ok((Ast.Object(pairs), p))
  }

  /** What follows an element or a member inside a container: the token `close`
      ends it (true), `,` continues it (false), anything else is `ExpectedComma`;
      either token is consumed, leaving the cursor at the position returned. */
  function Separator(s: seq<Byte>, env: Env, p: nat, close: TokenType): (r: Result<(bool, nat)>)
    requires Lexes(s, env) && p <= |s| && close != End
    ensures r.Ok? ==> p < r.value.1 <= |s|
  {
    match Peek(s, env, PState(p, None))
    case Err(e) => Err(e)
    case Ok((t, st1)) =>
      if t.kind == close then Ok((true, st1.pos))
      else if t.kind != Comma then Fail(ExpectedComma, t.offset)
      else Ok((false, st1.pos))
  }

  /** `expect(type)`: the lookahead when it has that type, consumed. */
  function Expect(s: seq<Byte>, env: Env, st: PState, kind: TokenType): (r: Result<(Token, PState)>)
    requires Lexes(s, env) && ValidState(s, st)
    ensures r.Ok? ==>
      && r.value.0.kind == kind && r.value.1.la.None?
      && ValidState(s, r.value.1)
      && Unread(st) <= r.value.0.offset
      && (kind != End ==> r.value.0.offset < r.value.1.pos)
  {
    match Peek(s, env, st)
    case Err(e) => Err(e)
    case Ok((t, st1)) =>
      if t.kind != kind then Fail(UnexpectedToken, t.offset)
      else Ok((t, Consume(st1)))
  }

  /** One member of `parse_object()`: a string key, `:`, and a value; the key is the
      token text without its quotes. */
  function Member(s: seq<Byte>, env: Env, st: PState, depth: nat): (r: Result<(Ast.Pair, nat)>)
    requires Lexes(s, env) && ValidState(s, st)
    ensures r.Ok? ==> Unread(st) < r.value.1 <= |s|
    decreases |s| - Unread(st), 3
  {
    match Expect(s, env, st, String)
    case Err(e) => Err(e)
    case Ok((k, st1)) =>
      match Expect(s, env, st1, Colon)
      case Err(e) => Err(e)
      case Ok((_, st2)) =>
        match ParseValue(s, env, st2, depth)
        case Err(e) => Err(e)
        case Ok((v, p)) => Ok((Ast.Pair(Unquote(k.text), v), p))
  }

  /** The member loop of `parse_object()`: `acc` holds the members read so far; one
      more member, then `}` ends the object and `,` continues it. */
  function Members(s: seq<Byte>, env: Env, st: PState, depth: nat, acc: seq<Ast.Pair>)
    : (r: Result<(seq<Ast.Pair>, nat)>)
    requires Lexes(s, env) && ValidState(s, st)
    ensures r.Ok? ==> Unread(st) < r.value.1 <= |s| && |r.value.0| > |acc|
    decreases |s| - Unread(st), 4
  {
    match Member(s, env, st, depth)
    case Err(e) => Err(e)
    case Ok((m, p)) =>
      match Separator(s, env, p, RightBrace)
      case Err(e) => Err(e)
      case Ok((closed, q)) =>
        if closed then Ok((acc + [m], q))
        else Members(s, env, PState(q, None), depth, acc + [m])
  }

  /** `parse()` from cursor `p`: one value, then nothing but whitespace. */
  function Parse(s: seq<Byte>, env: Env, p: nat): (r: Result<Ast.Node>)
    requires Lexes(s, env) && p <= |s|
  {
    match ParseValue(s, env, PState(p, None), 0)
    case Err(e) => Err(e)
    case Ok((n, q)) =>
      match Peek(s, env, PState(q, None))
      case Err(e) => Err(e)
      case Ok((t, _)) => if t.kind != End then Fail(UnexpectedToken, t.offset) else Ok(n)
  }
}
