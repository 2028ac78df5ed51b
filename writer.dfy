/** The serializer of src/writer.cpp: compact or pretty-printed text of a tree,
    strings re-escaped. `Render` is what `write_node` appends; the `Writer` class
    appends it step by step and keeps its `indent_` counter balanced. */
module Writing {
  import opened Bytes
  import opened Errors
  import opened Unicode
  import opened Ast
  import Lexer

  /** Whether the platform's plain `char` is signed; `write_string` compares a
      `char` against 0x20, so the answer decides how bytes 0x80..0xFF are written. */
  datatype Signedness = SignedChar | UnsignedChar

  /** The constructor arguments of a `Writer`, and the platform's `char`.
      `format` stands for `std::format("{}", number_val)`. */
  datatype Style = Style(pretty: bool, indentSize: nat, sign: Signedness, format: seq<Byte> -> seq<Byte>)

  /** The value a byte has as a `char`. */
  function CharValue(c: Byte, sign: Signedness): (v: int)
    ensures sign == UnsignedChar || c < 0x80 ==> v == c
    ensures sign == SignedChar && c >= 0x80 ==> v < 0
  {
    if sign == SignedChar && c >= 0x80 then c - 256 else c
  }

  /** The two-byte escape of `c`, or [] when `c` has none. */
  function ShortEscape(c: Byte): seq<Byte> {
    if c == QUOTE then [BACKSLASH, QUOTE]
    else if c == BACKSLASH then [BACKSLASH, BACKSLASH]
    else if c == BS then [BACKSLASH, 'b' as int]
    else if c == FF then [BACKSLASH, 'f' as int]
    else if c == LF then [BACKSLASH, 'n' as int]
    else if c == CR then [BACKSLASH, 'r' as int]
    else if c == TAB then [BACKSLASH, 't' as int]
    else []
  }

  /** `\u00XX` with two lower-case hexadecimal digits, as `{:04x}` writes a byte. */
  function UnicodeEscapeOf(c: Byte): (r: seq<Byte>)
    ensures |r| == 6 && r[0] == BACKSLASH && r[1] == 'u' as int && r[2] == ZERO && r[3] == ZERO
    ensures IsHexDigit(r[4]) && IsHexDigit(r[5]) && HexToInt(r[4]) * 16 + HexToInt(r[5]) == c
  {
    HexDigitsRoundTrip(c / 16);
    HexDigitsRoundTrip(c % 16);
    [BACKSLASH, 'u' as int, ZERO, ZERO, LowerHexDigit(c / 16), LowerHexDigit(c % 16)]
  }

  /** What the `switch` of `write_string` appends for one byte. */
  function EscapeByte(c: Byte, sign: Signedness): seq<Byte> {
    var short := ShortEscape(c);
    if short != [] then short
    else if CharValue(c, sign) >= 0x20 then [c]
    else UnicodeEscapeOf(c)
  }

  /** The three cases of `EscapeByte`: the quote, the backslash and five
      control bytes get a two-byte escape that the reader's one-character
      escapes map back; other bytes whose `char` is below 0x20 get `\u00XX`;
      every other byte is copied. No escape starts with a quote. */
  lemma EscapeByteCases(c: Byte, sign: Signedness)
    ensures var r := EscapeByte(c, sign);
      && (|r| == 1 || |r| == 2 || |r| == 6) && r[0] != QUOTE
      && (|r| == 1 <==> r == [c])
      && (|r| == 1 <==> c !in {QUOTE, BACKSLASH} && CharValue(c, sign) >= 0x20)
      && (|r| == 2 <==> c in {QUOTE, BACKSLASH, BS, FF, LF, CR, TAB})
      && (|r| == 2 ==> r[0] == BACKSLASH && Lexer.SimpleEscape(r[1]) == c)
      && (|r| == 6 ==> r == UnicodeEscapeOf(c) && CharValue(c, sign) < 0x20)
  {
  }

  /** The escaped bytes of `str`, byte by byte. */
  function Escaped(str: seq<Byte>, sign: Signedness): (r: seq<Byte>)
    ensures |r| >= |str|
  {
    if str == [] then [] else EscapeByte(str[0], sign) + Escaped(str[1..], sign)
  }

  /** `write_string`: the escaped bytes between double quotes. */
  function Quoted(str: seq<Byte>, sign: Signedness): (r: seq<Byte>)
    ensures |r| >= 2 && r[0] == QUOTE && r[|r| - 1] == QUOTE
  {
    [QUOTE] + Escaped(str, sign) + [QUOTE]
  }

  /** `write_indent` at level `indent`: `indent * indent_size` spaces. */
  function Indentation(st: Style, indent: nat): (r: seq<Byte>)
    ensures |r| == indent * st.indentSize
  {
    Repeat(SPACE, indent * st.indentSize)
  }

  /** `pretty_ && size > 0`: whether a container is opened on its own line. */
  predicate Opens(st: Style, size: nat) {
    st.pretty && size > 0
  }

  /** The level the children of a container of `size` children are written at. */
  function Inner(st: Style, size: nat, indent: nat): nat {
    if Opens(st, size) then indent + 1 else indent
  }

  /** The text `write_node` appends for `n` at level `indent`. */
  function Render(st: Style, n: Node, indent: nat): seq<Byte>
    decreases n, 0
  {
    match n
    case Null => Lexer.NULL
    case Bool(b) => if b then Lexer.TRUE else Lexer.FALSE
    case Number(v) => st.format(v)
    case String(s) => Quoted(s.bytes, st.sign)
    case Array(xs) =>
      Enclosed(st, LBRACKET, RBRACKET, |xs|, Elements(st, xs, |xs|, Inner(st, |xs|, indent)), indent)
    case Object(ps) =>
      Enclosed(st, LBRACE, RBRACE, |ps|, Members(st, ps, |ps|, Inner(st, |ps|, indent)), indent)
  }

  /** A container at level `indent` with `size` children whose text is `items`:
      the brackets, and in pretty mode for a non-empty one a newline after the
      opening bracket and the indentation before the closing one. */
  function Enclosed(st: Style, opening: Byte, closing: Byte, size: nat, items: seq<Byte>, indent: nat): seq<Byte> {
    var open := Opens(st, size);
    [opening] + (if open then [LF] else []) + items + (if open then Indentation(st, indent) else []) + [closing]
  }

  /** The text that ends a child's turn of the loop: a comma when `more` children
      follow, and in pretty mode a newline. */
  function Trailer(st: Style, more: bool): seq<Byte> {
    (if more then [COMMA] else []) + (if st.pretty then [LF] else [])
  }

  /** The text in front of a child in pretty mode: its indentation. */
  function Leader(st: Style, indent: nat): seq<Byte> {
    if st.pretty then Indentation(st, indent) else []
  }

  /** One turn of the array loop for child `x`. */
  function ElementText(st: Style, x: Node, more: bool, indent: nat): seq<Byte>
    decreases x, 1
  {
    Leader(st, indent) + Render(st, x, indent) + Trailer(st, more)
  }

  /** The first `i` turns of the array loop. */
  function Elements(st: Style, xs: seq<Node>, i: nat, indent: nat): seq<Byte>
    requires i <= |xs|
    decreases xs, i
  {
    if i == 0 then [] else Elements(st, xs, i - 1, indent) + ElementText(st, xs[i - 1], i < |xs|, indent)
  }

  /** The `": "` or `":"` between a key and its value. */
  function KeySeparator(st: Style): seq<Byte> {
    if st.pretty then [COLON, SPACE] else [COLON]
  }

  /** One turn of the object loop for pair `p`: the quoted key, the separator,
      the value. */
  function MemberText(st: Style, p: Pair, more: bool, indent: nat): seq<Byte>
    decreases p, 1
  {
    Leader(st, indent) + Quoted(p.key.bytes, st.sign) + KeySeparator(st)
    + Render(st, p.value, indent) + Trailer(st, more)
  }

  /** The first `i` turns of the object loop. */
  function Members(st: Style, ps: seq<Pair>, i: nat, indent: nat): seq<Byte>
    requires i <= |ps|
    decreases ps, i
  {
    if i == 0 then [] else Members(st, ps, i - 1, indent) + MemberText(st, ps[i - 1], i < |ps|, indent)
  }

  /** `write_node` of a pointer that may be null. */
  function RenderRoot(st: Style, root: Option<Node>, indent: nat): seq<Byte> {
    match root
    case None => Lexer.NULL
    case Some(n) => Render(st, n, indent)
  }

  /** `Writer`: its settings and the current indentation level. */
  class Writer {
    const style: Style
    var indent: nat

    /** `Writer(pretty, indent_size)`, starting at level 0. */
    constructor (pretty: bool, indentSize: nat, sign: Signedness, format: seq<Byte> -> seq<Byte>)
      ensures style.pretty == pretty && style.indentSize == indentSize
      ensures style.sign == sign && style.format == format
      ensures indent == 0
    {
      style := Style(pretty, indentSize, sign, format);
      indent := 0;
    }

    /** `write(root)`: the text of the tree, the level restored afterwards. */
    method Write(root: Option<Node>) returns (text: seq<Byte>)
      modifies this
      ensures text == RenderRoot(style, root, old(indent))
      ensures indent == old(indent)
    {
      text := WriteNode(root, []);
    }

    /** `write_node`: appends the text of `node` to `out`. */
    method WriteNode(node: Option<Node>, out: seq<Byte>) returns (res: seq<Byte>)
      modifies this
      ensures res == out + RenderRoot(style, node, old(indent))
      ensures indent == old(indent)
    {
      match node
      case None =>
        res := out + Lexer.NULL;
      case Some(n) =>
        res := WriteValue(n, out);
    }

    /** The `switch` of `write_node` on a node that is present. */
    method WriteValue(n: Node, out: seq<Byte>) returns (res: seq<Byte>)
      modifies this
      ensures res == out + Render(style, n, old(indent))
      ensures indent == old(indent)
      decreases n, 0
    {
      match n
      case Null =>
        res := out + Lexer.NULL;
      case Bool(b) =>
        res := out + (if b then Lexer.TRUE else Lexer.FALSE);
      case Number(v) =>
        res := out + style.format(v);
      case String(s) =>
        res := WriteString(s.bytes, out);
      case Array(xs) =>
        res := WriteArray(xs, out);
      case Object(ps) =>
        res := WriteObject(ps, out);
    }

    /** `case NodeType::Array`. */
    method WriteArray(xs: seq<Node>, out: seq<Byte>) returns (res: seq<Byte>)
      modifies this
      ensures res == out + Render(style, Array(xs), old(indent))
      ensures indent == old(indent)
      decreases xs, 2
    {
      ghost var level := indent;
      var open := style.pretty && |xs| > 0;
      ghost var nl: seq<Byte> := [];
      ghost var ind: seq<Byte> := [];
      res := out + [LBRACKET];
      if open {
        res := WriteNewline(res);
        nl := [LF];
        indent := indent + 1;
      }
      ghost var items := Elements(style, xs, |xs|, indent);
      ghost var head := res;
      res := WriteElements(xs, res);
      ghost var body := res;
      if open {
        indent := indent - 1;
        res := WriteIndent(res);
        ind := Indentation(style, indent);
      }
      res := res + [RBRACKET];
      Pieces(out, [LBRACKET], nl, items, ind, [RBRACKET], head, body, res);
      Enclosing(style, LBRACKET, RBRACKET, |xs|, items, level, nl, ind);
    }

    /** The loop over the children of `case NodeType::Array`. */
    method WriteElements(xs: seq<Node>, out: seq<Byte>) returns (res: seq<Byte>)
      modifies this
      ensures res == out + Elements(style, xs, |xs|, old(indent))
      ensures indent == old(indent)
      decreases xs, 1
    {
      res := out;
      var i := 0;
      while i < |xs|
        invariant 0 <= i <= |xs|
        invariant indent == old(indent)
        invariant res == out + Elements(style, xs, i, indent)
        decreases |xs| - i
      {
        res := WriteElement(xs[i], i + 1 < |xs|, res);
        AppendAssoc(out, Elements(style, xs, i, indent), ElementText(style, xs[i], i + 1 < |xs|, indent));
        i := i + 1;
      }
    }

    /** The body of the array loop for one child. */
    method WriteElement(x: Node, more: bool, out: seq<Byte>) returns (res: seq<Byte>)
      modifies this
      ensures res == out + ElementText(style, x, more, old(indent))
      ensures indent == old(indent)
      decreases x, 1
    {
      ghost var lead := Leader(style, indent);
      ghost var value := Render(style, x, indent);
      res := out;
      if style.pretty {
        res := WriteIndent(res);
      }
      assert res == out + lead;
      res := WriteValue(x, res);
      AppendAssoc(out, lead, value);
      ghost var body := res;
      if more {
        res := res + [COMMA];
      }
      if style.pretty {
        res := WriteNewline(res);
      }
      assert res == body + Trailer(style, more);
      AppendAssoc(out, lead + value, Trailer(style, more));
    }

    /** `case NodeType::Object`. */
    method WriteObject(ps: seq<Pair>, out: seq<Byte>) returns (res: seq<Byte>)
      modifies this
      ensures res == out + Render(style, Object(ps), old(indent))
      ensures indent == old(indent)
      decreases ps, 2
    {
      ghost var level := indent;
      var open := style.pretty && |ps| > 0;
      ghost var nl: seq<Byte> := [];
      ghost var ind: seq<Byte> := [];
      res := out + [LBRACE];
      if open {
        res := WriteNewline(res);
        nl := [LF];
        indent := indent + 1;
      }
      ghost var items := Members(style, ps, |ps|, indent);
      ghost var head := res;
      res := WriteMembers(ps, res);
      ghost var body := res;
      if open {
        indent := indent - 1;
        res := WriteIndent(res);
        ind := Indentation(style, indent);
      }
      res := res + [RBRACE];
      Pieces(out, [LBRACE], nl, items, ind, [RBRACE], head, body, res);
      Enclosing(style, LBRACE, RBRACE, |ps|, items, level, nl, ind);
    }

    /** The loop over the children of `case NodeType::Object`. */
    method WriteMembers(ps: seq<Pair>, out: seq<Byte>) returns (res: seq<Byte>)
      modifies this
      ensures res == out + Members(style, ps, |ps|, old(indent))
      ensures indent == old(indent)
      decreases ps, 1
    {
      res := out;
      var i := 0;
      while i < |ps|
        invariant 0 <= i <= |ps|
        invariant indent == old(indent)
        invariant res == out + Members(style, ps, i, indent)
        decreases |ps| - i
      {
        res := WriteMember(ps[i], i + 1 < |ps|, res);
        AppendAssoc(out, Members(style, ps, i, indent), MemberText(style, ps[i], i + 1 < |ps|, indent));
        i := i + 1;
      }
    }

    /** The body of the object loop for one pair. */
    method WriteMember(p: Pair, more: bool, out: seq<Byte>) returns (res: seq<Byte>)
      modifies this
      ensures res == out + MemberText(style, p, more, old(indent))
      ensures indent == old(indent)
      decreases p, 1
    {
      ghost var lead := Leader(style, indent);
      ghost var quoted := Quoted(p.key.bytes, style.sign);
      ghost var value := Render(style, p.value, indent);
      res := out;
      if style.pretty {
        res := WriteIndent(res);
      }
      assert res == out + lead;
      res := WriteString(p.key.bytes, res);
      AppendAssoc(out, lead, quoted);
      res := res + (if style.pretty then [COLON, SPACE] else [COLON]);
      AppendAssoc(out, lead + quoted, KeySeparator(style));
      res := WriteValue(p.value, res);
      AppendAssoc(out, lead + quoted + KeySeparator(style), value);
      ghost var body := res;
      if more {
        res := res + [COMMA];
      }
      if style.pretty {
        res := WriteNewline(res);
      }
      assert res == body + Trailer(style, more);
      AppendAssoc(out, lead + quoted + KeySeparator(style) + value, Trailer(style, more));
    }

    /** `write_string`: appends the quoted, escaped bytes of `str`. */
    method WriteString(str: seq<Byte>, out: seq<Byte>) returns (res: seq<Byte>)
      ensures res == out + Quoted(str, style.sign)
    {
      res := out + [QUOTE];
      var i := 0;
      while i < |str|
        invariant 0 <= i <= |str|
        invariant res == out + [QUOTE] + Escaped(str[..i], style.sign)
      {
        res := WriteEscaped(str[i], res);
        AppendAssoc(out + [QUOTE], Escaped(str[..i], style.sign), EscapeByte(str[i], style.sign));
        EscapedSnoc(str[..i], str[i], style.sign);
        assert str[..i + 1] == str[..i] + [str[i]];
        i := i + 1;
      }
      assert str[..i] == str;
      res := res + [QUOTE];
      AppendAssoc(out + [QUOTE], Escaped(str, style.sign), [QUOTE]);
      AppendAssoc(out, [QUOTE], Escaped(str, style.sign) + [QUOTE]);
    }

    /** The `switch (c)` of `write_string`. */
    method WriteEscaped(c: Byte, out: seq<Byte>) returns (res: seq<Byte>)
      ensures res == out + EscapeByte(c, style.sign)
    {
      if c == QUOTE {
        res := out + [BACKSLASH, QUOTE];
      } else if c == BACKSLASH {
        res := out + [BACKSLASH, BACKSLASH];
      } else if c == BS {
        res := out + [BACKSLASH, 'b' as int];
      } else if c == FF {
        res := out + [BACKSLASH, 'f' as int];
      } else if c == LF {
        res := out + [BACKSLASH, 'n' as int];
      } else if c == CR {
        res := out + [BACKSLASH, 'r' as int];
      } else if c == TAB {
        res := out + [BACKSLASH, 't' as int];
      } else if CharValue(c, style.sign) >= 0x20 {
        res := out + [c];
      } else {
        res := out + [BACKSLASH, 'u' as int, ZERO, ZERO, LowerHexDigit(c / 16), LowerHexDigit(c % 16)];
      }
    }

    /** `write_indent`. */
    method WriteIndent(out: seq<Byte>) returns (res: seq<Byte>)
      ensures res == out + Indentation(style, indent)
    {
      res := out + Repeat(SPACE, indent * style.indentSize);
    }

    /** `write_newline`. */
    method WriteNewline(out: seq<Byte>) returns (res: seq<Byte>)
      ensures res == out + [LF]
    {
      res := out + [LF];
    }
  }

  /** Concatenation is associative. */
  lemma AppendAssoc(a: seq<Byte>, b: seq<Byte>, c: seq<Byte>)
    ensures (a + b) + c == a + (b + c)
  {
  }

  /** Appending a container piece by piece, as `write_node` does, gives its text. */
  lemma Enclosing(st: Style, opening: Byte, closing: Byte, size: nat, items: seq<Byte>, indent: nat,
                  nl: seq<Byte>, ind: seq<Byte>)
    requires nl == (if Opens(st, size) then [LF] else [])
    requires ind == (if Opens(st, size) then Indentation(st, indent) else [])
    ensures Enclosed(st, opening, closing, size, items, indent) == [opening] + nl + items + ind + [closing]
  {
  }

  /** Five pieces appended one after another to `out`. */
  lemma Pieces(out: seq<Byte>, a: seq<Byte>, b: seq<Byte>, c: seq<Byte>, d: seq<Byte>, e: seq<Byte>,
               head: seq<Byte>, body: seq<Byte>, res: seq<Byte>)
    requires head == out + a + b && body == head + c && res == body + d + e
    ensures res == out + (a + b + c + d + e)
  {
  }

  /** Escaping works byte by byte, so it distributes over concatenation. */
  lemma {:induction false} EscapedConcat(a: seq<Byte>, b: seq<Byte>, sign: Signedness)
    ensures Escaped(a + b, sign) == Escaped(a, sign) + Escaped(b, sign)
    decreases |a|
  {
    if a == [] {
      assert a + b == b;
    } else {
      assert (a + b)[1..] == a[1..] + b;
      EscapedConcat(a[1..], b, sign);
    }
  }

  /** Escaping one more byte appends its escape. */
  lemma EscapedSnoc(a: seq<Byte>, c: Byte, sign: Signedness)
    ensures Escaped(a + [c], sign) == Escaped(a, sign) + EscapeByte(c, sign)
  {
    EscapedConcat(a, [c], sign);
    assert Escaped([c], sign) == EscapeByte(c, sign) + Escaped([], sign);
  }
}
