/** The `Parser` class of include/json/parser.hpp and src/parser.cpp: recursive
    descent over the tokenizer with one token of lookahead, every node allocated in
    the arena. Each method is proved to compute the function of the same name in
    module Grammar. */
module Parsing {
  import opened Bytes
  import opened Errors
  import opened Lexer
  import opened Tokenizing
  import opened Grammar
  import Ast
  import Arena

  /** A method's result agrees with a specification result that also carries the
      state after it. */
  predicate Agrees<T(==), S>(r: Result<T>, spec: Result<(T, S)>) {
    && (r.Ok? <==> spec.Ok?)
    && (r.Ok? && spec.Ok? ==> r.value == spec.value.0)
    && (r.Err? && spec.Err? ==> r.error == spec.error)
  }

  class Parser {
    const arena: Arena.Arena
    const tok: Tokenizer
    /** Whether `std::from_chars` converts a number lexeme; the conversion itself is
        not modelled. */
    const converts: seq<Byte> -> bool
    /** The tokenizer and the conversion as the specification functions see them. */
    ghost const env: Env
    /** `current_` and `has_current_`: the lookahead of `peek()`. */
    var current: Token
    var hasCurrent: bool
    /** `depth_`: containers open around the cursor. */
    var depth: nat

    ghost function State(): PState
      reads this, tok
    {
      PState(tok.pos, if hasCurrent then Some(current) else None)
    }

    /** What ties the parser to its tokenizer once and for all: both share the arena,
        and `env` describes the tokenizer over its whole input. Only constant fields
        take part, so no call can change it. */
    ghost predicate Linked() {
      && (tok.arena == null || tok.arena == arena)
      && (tok.build == Unescaping ==> tok.arena != null)
      && env.converts == converts
      && Lexes(tok.input, env)
      && (forall p: nat {:trigger Lexer.Next(tok.input, p, tok.build)} | p <= |tok.input| ::
            env.lex(p) == Lexer.Next(tok.input, p, tok.build))
    }

    ghost predicate Valid()
      reads this, tok, arena
    {
      && Linked()
      && tok.Valid() && arena.Valid()
      && ValidState(tok.input, State())
    }

    /** `Parser(arena, tokenizer)`. The tokenizer writes unescaped strings into the
        same arena, as `json::parse` sets it up. */
    constructor (arena: Arena.Arena, tok: Tokenizer, converts: seq<Byte> -> bool)
      requires arena.Valid() && tok.Valid()
      requires tok.arena == null || tok.arena == arena
      requires tok.build == Unescaping ==> tok.arena != null
      ensures Valid()
      ensures this.arena == arena && this.tok == tok && this.converts == converts
      ensures env == TokenizerEnv(tok.input, tok.build, converts)
      ensures !hasCurrent && depth == 0
    {
      this.arena := arena;
      this.tok := tok;
      this.converts := converts;
      env := TokenizerEnv(tok.input, tok.build, converts);
      current := Token(End, Ast.Slice(0, []), 0);
      hasCurrent := false;
      depth := 0;
    }

    /** `peek()` */
    method Peek() returns (r: Result<Token>)
      requires Valid()
      modifies this, tok, arena
      ensures Valid() && depth == old(depth)
      ensures var spec := Grammar.Peek(tok.input, env, old(State()));
        Agrees(r, spec) && (spec.Ok? ==> State() == spec.value.1)
    {
      if !hasCurrent {
        var token := tok.Next();
        if token.Err? {
          return token;
        }
        current := token.value;
        hasCurrent := true;
      }
      r := Ok(current);
    }

    /** `consume()` */
    method Consume()
      modifies this
      ensures State() == Grammar.Consume(old(State()))
      ensures current == old(current) && depth == old(depth)
    {
      hasCurrent := false;
    }

    /** `expect(type)` */
    method Expect(kind: TokenType) returns (r: Result<Token>)
      requires Valid()
      modifies this, tok, arena
      ensures Valid() && depth == old(depth)
      ensures var spec := Grammar.Expect(tok.input, env, old(State()), kind);
        Agrees(r, spec) && (spec.Ok? ==> State() == spec.value.1)
    {
      var token := Peek();
      if token.Err? {
        return token;
      }
      if token.value.kind != kind {
        return Fail(UnexpectedToken, token.value.offset);
      }
      Consume();
      r := token;
    }

    /** `arena_.alloc<Node>()`: room for one node. */
    method AllocNode()
      requires Valid()
      modifies arena
      ensures Valid()
    {
      var _ := arena.Alloc(Arena.NodeSize, Arena.NodeAlign);
    }

    /** `arena_.alloc<T>(count)` for `sizeof(T) == size`, `alignof(T) == align`. */
    method AllocArray(size: nat, align: nat, count: nat)
      requires Valid() && Arena.ValidAlign(align)
      modifies arena
      ensures Valid()
    {
      var _ := arena.Alloc(size * count, align);
    }

    /** `parse_value()` */
    method ParseValue() returns (r: Result<Ast.Node>)
      requires Valid()
      modifies this, tok, arena
      decreases |tok.input| - Unread(State()), 2
      ensures Valid()
      ensures var spec := Grammar.ParseValue(tok.input, env, old(State()), old(depth));
        Agrees(r, spec) && (spec.Ok? ==> State() == PState(spec.value.1, None) && depth == old(depth))
    {
      var token := Peek();
      if token.Err? {
        return Err(token.error);
      }
      var t := token.value;
      if t.kind == Null {
        Consume();
        AllocNode();
        r := Ok(Ast.MakeNull());
      } else if t.kind == True || t.kind == False {
        var val := t.kind == True;
        Consume();
        AllocNode();
        r := Ok(Ast.MakeBool(val));
      } else if t.kind == Number {
        if !converts(t.text.bytes) {
          return Fail(InvalidNumber, t.offset);
        }
        Consume();
        AllocNode();
        r := Ok(Ast.MakeNumber(t.text.bytes));
      } else if t.kind == String {
        var text := Unquote(t.text);
        Consume();
        AllocNode();
        r := Ok(Ast.MakeString(text));
      } else if t.kind == LeftBracket {
        r := ParseArray();
      } else if t.kind == LeftBrace {
        r := ParseObject();
      } else {
        r := Fail(ExpectedValue, t.offset);
      }
    }

    /** `parse_array()`, the `[` in the lookahead. */
    method ParseArray() returns (r: Result<Ast.Node>)
      requires Valid() && hasCurrent && current.kind == LeftBracket
      modifies this, tok, arena
      decreases |tok.input| - Unread(State()), 1
      ensures Valid()
      ensures var spec := Grammar.ParseArray(tok.input, env, old(State()), old(depth));
        Agrees(r, spec) && (spec.Ok? ==> State() == PState(spec.value.1, None) && depth == old(depth))
    {
      depth := depth + 1;
      if depth > MaxDepth {
        return Fail(TooDeep, tok.pos);
      }
      var left := Expect(LeftBracket);
      if left.Err? {
        // the lookahead is the '['
        assert false;
      }
      r := ParseArrayBody();
      if r.Ok? {
        depth := depth - 1;
      }
    }

    /** `parse_array()` after its `[`: the closing bracket at once, or the loop, and the
        node allocated. */
    method ParseArrayBody() returns (r: Result<Ast.Node>)
      requires Valid()
      modifies this, tok, arena
      decreases |tok.input| - Unread(State()), 4
      ensures Valid()
      ensures var spec := ArrayBody(tok.input, env, old(State()), old(depth));
        Agrees(r, spec) && (spec.Ok? ==> State() == PState(spec.value.1, None) && depth == old(depth))
    {
      var token := Peek();
      if token.Err? {
        return Err(token.error);
      }
      if token.value.kind == RightBracket {
        Consume();
        AllocNode();
        return Ok(Ast.MakeArray([]));
      }
      var elements := ParseElements();
      if elements.Err? {
        return Err(elements.error);
      }
      var node := ArrayNode(elements.value);
      r := Ok(node);
    }

    /** The `while (true)` loop of `parse_array()`: values separated by `,` up to the
        closing `]`, collected in the vector `elements`. */
    method ParseElements() returns (r: Result<seq<Ast.Node>>)
      requires Valid()
      modifies this, tok, arena
      decreases |tok.input| - Unread(State()), 3
      ensures Valid()
      ensures var spec := Elements(tok.input, env, old(State()), old(depth), []);
        Agrees(r, spec) && (spec.Ok? ==> State() == PState(spec.value.1, None) && depth == old(depth))
    {
      var elements: seq<Ast.Node> := [];
      ghost var st0 := State();
      while true
        invariant Valid() && depth == old(depth)
        invariant Unread(State()) >= Unread(st0)
        invariant Elements(tok.input, env, State(), depth, elements)
          == Elements(tok.input, env, st0, depth, [])
        decreases |tok.input| - Unread(State())
      {
        var element := ParseValue();
        if element.Err? {
          return Err(element.error);
        }
        elements := elements + [element.value];
        var closed := Separator(RightBracket);
        if closed.Err? {
          return Err(closed.error);
        }
        if closed.value {
          return Ok(elements);
        }
      }
    }

    /** The end of an iteration of the loops of `parse_array()` and `parse_object()`:
        `close` or `,` expected and consumed. */
    method Separator(close: TokenType) returns (r: Result<bool>)
      requires Valid() && !hasCurrent && close != End
      modifies this, tok, arena
      ensures Valid() && depth == old(depth)
      ensures var spec := Grammar.Separator(tok.input, env, old(tok.pos), close);
        Agrees(r, spec) && (spec.Ok? ==> State() == PState(spec.value.1, None))
    {
      var token := Peek();
      if token.Err? {
        return Err(token.error);
      }
      if token.value.kind == close {
        Consume();
        return Ok(true);
      }
      if token.value.kind != Comma {
        return Fail(ExpectedComma, token.value.offset);
      }
      Consume();
      r := Ok(false);
    }

    /** `parse_object()`, the `{` in the lookahead. */
    method ParseObject() returns (r: Result<Ast.Node>)
      requires Valid() && hasCurrent && current.kind == LeftBrace
      modifies this, tok, arena
      decreases |tok.input| - Unread(State()), 1
      ensures Valid()
      ensures var spec := Grammar.ParseObject(tok.input, env, old(State()), old(depth));
        Agrees(r, spec) && (spec.Ok? ==> State() == PState(spec.value.1, None) && depth == old(depth))
    {
      depth := depth + 1;
      if depth > MaxDepth {
        return Fail(TooDeep, tok.pos);
      }
      var left := Expect(LeftBrace);
      if left.Err? {
        // the lookahead is the '{'
        assert false;
      }
      r := ParseObjectBody();
      if r.Ok? {
        depth := depth - 1;
      }
    }

    /** `parse_object()` after its `{`: the closing bracket at once, or the loop, and the
        node allocated. */
    method ParseObjectBody() returns (r: Result<Ast.Node>)
      requires Valid()
      modifies this, tok, arena
      decreases |tok.input| - Unread(State()), 5
      ensures Valid()
      ensures var spec := ObjectBody(tok.input, env, old(State()), old(depth));
        Agrees(r, spec) && (spec.Ok? ==> State() == PState(spec.value.1, None) && depth == old(depth))
    {
      var token := Peek();
      if token.Err? {
        return Err(token.error);
      }
      if token.value.kind == RightBrace {
        Consume();
        AllocNode();
        return Ok(Ast.MakeObject([]));
      }
      var pairs := ParseMembers();
      if pairs.Err? {
        return Err(pairs.error);
      }
      var node := ObjectNode(pairs.value);
      r := Ok(node);
    }

    /** The `while (true)` loop of `parse_object()`: `"key" : value` members
        separated by `,` up to the closing `}`, collected in the vector `pairs`. */
    method ParseMembers() returns (r: Result<seq<Ast.Pair>>)
      requires Valid()
      modifies this, tok, arena
      decreases |tok.input| - Unread(State()), 4
      ensures Valid()
      ensures var spec := Members(tok.input, env, old(State()), old(depth), []);
        Agrees(r, spec) && (spec.Ok? ==> State() == PState(spec.value.1, None) && depth == old(depth))
    {
      var pairs: seq<Ast.Pair> := [];
      ghost var st0 := State();
      while true
        invariant Valid() && depth == old(depth)
        invariant Unread(State()) >= Unread(st0)
        invariant Members(tok.input, env, State(), depth, pairs)
          == Members(tok.input, env, st0, depth, [])
        decreases |tok.input| - Unread(State())
      {
        var member := ParseMember();
        if member.Err? {
          return Err(member.error);
        }
        pairs := pairs + [member.value];
        var closed := Separator(RightBrace);
        if closed.Err? {
          return Err(closed.error);
        }
        if closed.value {
          return Ok(pairs);
        }
      }
    }

    /** The body of the member loop of `parse_object()` up to `pairs.push_back`: the
        key, the colon and the value. */
    method ParseMember() returns (r: Result<Ast.Pair>)
      requires Valid()
      modifies this, tok, arena
      decreases |tok.input| - Unread(State()), 3
      ensures Valid()
      ensures var spec := Member(tok.input, env, old(State()), old(depth));
        Agrees(r, spec) && (spec.Ok? ==> State() == PState(spec.value.1, None) && depth == old(depth))
    {
      var key := Expect(String);
      if key.Err? {
        return Err(key.error);
      }
      var keyText := Unquote(key.value.text);
      var colon := Expect(Colon);
      if colon.Err? {
        return Err(colon.error);
      }
      var value := ParseValue();
      if value.Err? {
        return Err(value.error);
      }
      r := Ok(Ast.Pair(keyText, value.value));
    }

    /** The end of `parse_array()`: the element pointers are copied into an arena
        array, and the node made from it. */
    method ArrayNode(elements: seq<Ast.Node>) returns (node: Ast.Node)
      requires Valid()
      modifies arena
      ensures Valid()
      ensures node == Ast.Array(elements)
    {
      AllocArray(Arena.PointerSize, Arena.PointerAlign, |elements|);
      var arr := new Ast.Node[|elements|];
      for i := 0 to |elements|
        modifies arr
        invariant arr[..i] == elements[..i]
      {
        arr[i] := elements[i];
      }
      AllocNode();
      node := Ast.MakeArray(arr[..]);
    }

    /** The end of `parse_object()`: the pairs are copied into an arena array, and
        the node made from it. */
    method ObjectNode(pairs: seq<Ast.Pair>) returns (node: Ast.Node)
      requires Valid()
      modifies arena
      ensures Valid()
      ensures node == Ast.Object(pairs)
    {
      AllocArray(Arena.PairSize, Arena.PairAlign, |pairs|);
      var obj := new Ast.Pair[|pairs|](i requires 0 <= i < |pairs| => Ast.Pair(Ast.Owned([]), Ast.Null));
      for i := 0 to |pairs|
        modifies obj
        invariant obj[..i] == pairs[..i]
      {
        obj[i] := pairs[i];
      }
      AllocNode();
      node := Ast.MakeObject(obj[..]);
    }

    /** `parse()`: one value, then the End token. */
    method Parse() returns (r: Result<Ast.Node>)
      requires Valid() && !hasCurrent && depth == 0
      modifies this, tok, arena
      ensures r == Grammar.Parse(tok.input, env, old(tok.pos))
    {
      var result := ParseValue();
      if result.Err? {
        return result;
      }
      var token := Peek();
      if token.Err? {
        return Err(token.error);
      }
      if token.value.kind != End {
        return Fail(UnexpectedToken, token.value.offset);
      }
      r := result;
    }
  }
}
