/** What the serializer of src/writer.cpp promises: the compact layout against an
    independent definition, the fixed texts of scalars and empty containers, and
    the round trip of `write_string` through `read_string` of src/tokenizer.cpp. */
module WriterProperties {
  import opened Bytes
  import opened Errors
  import opened Unicode
  import opened Ast
  import opened Writing
  import Lexer

  // ---------------------------------------------------------------------------
  // Compact layout

  /** The parts with exactly one comma between consecutive ones. */
  function Join(parts: seq<seq<Byte>>): seq<Byte>
    decreases |parts|
  {
    if |parts| == 0 then []
    else if |parts| == 1 then parts[0]
    else Join(parts[..|parts| - 1]) + [COMMA] + parts[|parts| - 1]
  }

  /** Compact JSON text of a tree (section 2 of RFC 8259 without optional
      whitespace): children joined by commas in stored order, `"key":value` pairs. */
  function Compact(sign: Signedness, format: seq<Byte> -> seq<Byte>, n: Node): seq<Byte>
    decreases n, 1
  {
    match n
    case Null => Lexer.NULL
    case Bool(b) => if b then Lexer.TRUE else Lexer.FALSE
    case Number(v) => format(v)
    case String(s) => Quoted(s.bytes, sign)
    case Array(xs) => [LBRACKET] + Join(CompactElements(sign, format, xs)) + [RBRACKET]
    case Object(ps) => [LBRACE] + Join(CompactPairs(sign, format, ps)) + [RBRACE]
  }

  /** The compact texts of the children, in order. */
  function CompactElements(sign: Signedness, format: seq<Byte> -> seq<Byte>, xs: seq<Node>): (r: seq<seq<Byte>>)
    ensures |r| == |xs|
    decreases xs, 0
  {
    seq(|xs|, k requires 0 <= k < |xs| => Compact(sign, format, xs[k]))
  }

  /** The compact texts `"key":value` of the pairs, in order. */
  function CompactPairs(sign: Signedness, format: seq<Byte> -> seq<Byte>, ps: seq<Pair>): (r: seq<seq<Byte>>)
    ensures |r| == |ps|
    decreases ps, 0
  {
    seq(|ps|, k requires 0 <= k < |ps| => CompactPair(sign, format, ps[k]))
  }

  function CompactPair(sign: Signedness, format: seq<Byte> -> seq<Byte>, p: Pair): seq<Byte>
    decreases p, 0
  {
    Quoted(p.key.bytes, sign) + [COLON] + Compact(sign, format, p.value)
  }

  /** A compact writer's text is `Compact`, at every indentation level. */
  lemma {:induction false} CompactLayout(st: Style, n: Node, indent: nat)
    requires !st.pretty
    ensures Render(st, n, indent) == Compact(st.sign, st.format, n)
    decreases n, 3
  {
    match n
    case Array(xs) => CompactArray(st, xs, indent);
    case Object(ps) => CompactObject(st, ps, indent);
    case _ =>
  }

  lemma {:induction false} CompactArray(st: Style, xs: seq<Node>, indent: nat)
    requires !st.pretty
    ensures Render(st, Array(xs), indent) == Compact(st.sign, st.format, Array(xs))
    decreases xs, 2
  {
    CompactElementsLayout(st, xs, |xs|, indent);
    ArrayFrame(st, xs, indent);
  }

  lemma {:induction false} CompactObject(st: Style, ps: seq<Pair>, indent: nat)
    requires !st.pretty
    ensures Render(st, Object(ps), indent) == Compact(st.sign, st.format, Object(ps))
    decreases ps, 2
  {
    CompactMembersLayout(st, ps, |ps|, indent);
    ObjectFrame(st, ps, indent);
  }

  /** Without pretty printing an array is its items between brackets. */
  lemma ArrayFrame(st: Style, xs: seq<Node>, indent: nat)
    requires !st.pretty
    ensures Render(st, Array(xs), indent) == [LBRACKET] + Elements(st, xs, |xs|, indent) + [RBRACKET]
  {
  }

  /** Without pretty printing an object is its members between braces. */
  lemma ObjectFrame(st: Style, ps: seq<Pair>, indent: nat)
    requires !st.pretty
    ensures Render(st, Object(ps), indent) == [LBRACE] + Members(st, ps, |ps|, indent) + [RBRACE]
  {
  }

  /** The first `i` children of a compact array: joined, with the comma that
      follows them when more children come. */
  lemma {:induction false} CompactElementsLayout(st: Style, xs: seq<Node>, i: nat, indent: nat)
    requires !st.pretty && i <= |xs| && (1 <= i || |xs| == 0)
    ensures Elements(st, xs, i, indent)
      == Join(CompactElements(st.sign, st.format, xs)[..i]) + (if i < |xs| then [COMMA] else [])
    ensures i == |xs| ==> Elements(st, xs, i, indent) == Join(CompactElements(st.sign, st.format, xs))
    decreases xs, 1, i
  {
    var parts := CompactElements(st.sign, st.format, xs);
    if i > 0 {
      var comma: seq<Byte> := if i < |xs| then [COMMA] else [];
      CompactLayout(st, xs[i - 1], indent);
      assert ElementText(st, xs[i - 1], i < |xs|, indent) == parts[i - 1] + comma;
      JoinPrefix(parts, i);
      if i > 1 {
        CompactElementsLayout(st, xs, i - 1, indent);
        JoinStep(Elements(st, xs, i, indent), Elements(st, xs, i - 1, indent), ElementText(st, xs[i - 1], i < |xs|, indent),
          Join(parts[..i]), Join(parts[..i - 1]), parts[i - 1], comma);
      }
    }
  }

  /** The first `i` pairs of a compact object, as `CompactElementsLayout`. */
  lemma {:induction false} CompactMembersLayout(st: Style, ps: seq<Pair>, i: nat, indent: nat)
    requires !st.pretty && i <= |ps| && (1 <= i || |ps| == 0)
    ensures Members(st, ps, i, indent)
      == Join(CompactPairs(st.sign, st.format, ps)[..i]) + (if i < |ps| then [COMMA] else [])
    ensures i == |ps| ==> Members(st, ps, i, indent) == Join(CompactPairs(st.sign, st.format, ps))
    decreases ps, 1, i
  {
    var parts := CompactPairs(st.sign, st.format, ps);
    if i > 0 {
      var comma: seq<Byte> := if i < |ps| then [COMMA] else [];
      CompactPairLayout(st, ps[i - 1], i < |ps|, indent);
      assert parts[i - 1] == CompactPair(st.sign, st.format, ps[i - 1]);
      JoinPrefix(parts, i);
      if i > 1 {
        CompactMembersLayout(st, ps, i - 1, indent);
        JoinStep(Members(st, ps, i, indent), Members(st, ps, i - 1, indent), MemberText(st, ps[i - 1], i < |ps|, indent),
          Join(parts[..i]), Join(parts[..i - 1]), parts[i - 1], comma);
      }
    }
  }

  /** The inductive step of both layouts, on the texts alone: one more item
      of text is one more joined part plus its separator. */
  lemma JoinStep(text: seq<Byte>, prevText: seq<Byte>, item: seq<Byte>, joined: seq<Byte>, prevJoined: seq<Byte>,
                 part: seq<Byte>, comma: seq<Byte>)
    requires text == prevText + item && item == part + comma
    requires prevText == prevJoined + [COMMA] && joined == prevJoined + [COMMA] + part
    ensures text == joined + comma
  {
  }

  /** Joining one more part adds a comma and the part. */
  lemma JoinPrefix(parts: seq<seq<Byte>>, i: nat)
    requires 1 <= i <= |parts|
    ensures i == 1 ==> Join(parts[..i]) == parts[0]
    ensures i > 1 ==> Join(parts[..i]) == Join(parts[..i - 1]) + [COMMA] + parts[i - 1]
  {
    assert parts[..i][..i - 1] == parts[..i - 1];
  }

  /** One turn of the compact object loop. */
  lemma {:induction false} CompactPairLayout(st: Style, p: Pair, more: bool, indent: nat)
    requires !st.pretty
    ensures MemberText(st, p, more, indent)
      == CompactPair(st.sign, st.format, p) + (if more then [COMMA] else [])
    decreases p, 0
  {
    CompactLayout(st, p.value, indent);
  }

  // ---------------------------------------------------------------------------
  // Fixed texts

  /** A null pointer and a Null node are both written `null`; booleans as
      `true` and `false`. */
  lemma ScalarTexts(st: Style, indent: nat)
    ensures RenderRoot(st, None, indent) == RenderRoot(st, Some(Null), indent) == Ascii("null")
    ensures Render(st, Bool(true), indent) == Ascii("true")
    ensures Render(st, Bool(false), indent) == Ascii("false")
  {
  }

  /** Empty containers are written `[]` and `{}` in both modes. */
  lemma EmptyContainers(st: Style, indent: nat)
    ensures Render(st, Array([]), indent) == [LBRACKET, RBRACKET]
    ensures Render(st, Object([]), indent) == [LBRACE, RBRACE]
  {
  }

  /** Pretty mode with the default indent of 2: each child on its own line.
      `[null, true]` becomes "[\n  null,\n  true\n]". */
  lemma PrettyArray(sign: Signedness, format: seq<Byte> -> seq<Byte>)
    ensures Render(Style(true, 2, sign, format), Array([Null, Bool(true)]), 0)
      == [LBRACKET, LF] + ([SPACE, SPACE] + Ascii("null") + [COMMA, LF]) + ([SPACE, SPACE] + Ascii("true") + [LF]) + [RBRACKET]
  {
    var st := Style(true, 2, sign, format);
    var xs := [Null, Bool(true)];
    var first: seq<Byte> := [SPACE, SPACE] + Ascii("null") + [COMMA, LF];
    var second: seq<Byte> := [SPACE, SPACE] + Ascii("true") + [LF];
    PrettyArrayFrame(st, xs, 0);
    assert Indentation(st, 1) == [SPACE, SPACE];
    assert ElementText(st, xs[0], true, 1) == first;
    assert ElementText(st, xs[1], false, 1) == second;
    assert Elements(st, xs, 1, 1) == first;
    assert Elements(st, xs, 2, 1) == first + second;
    assert Indentation(st, 0) == [];
    AppendAssoc([LBRACKET, LF], first, second);
  }

  /** A non-empty array in pretty mode opens a line, holds its elements one
      level deeper and closes at its own level. */
  lemma PrettyArrayFrame(st: Style, xs: seq<Node>, indent: nat)
    requires st.pretty && |xs| > 0
    ensures Render(st, Array(xs), indent)
      == [LBRACKET, LF] + Elements(st, xs, |xs|, indent + 1) + Indentation(st, indent) + [RBRACKET]
  {
    PrettyEnclosed(st, LBRACKET, RBRACKET, |xs|, Elements(st, xs, |xs|, indent + 1), indent);
  }

  /** In pretty mode a non-empty container is its opening, a newline, its
      items and its closing at the container's indentation. */
  lemma PrettyEnclosed(st: Style, opening: Byte, closing: Byte, size: nat, items: seq<Byte>, indent: nat)
    requires st.pretty && size > 0
    ensures Enclosed(st, opening, closing, size, items, indent) == [opening, LF] + items + Indentation(st, indent) + [closing]
  {
  }

  /** Pretty objects use `": "` between key and value: `{"a": null}` becomes
      "{\n  \"a\": null\n}". */
  lemma PrettyObject(sign: Signedness, format: seq<Byte> -> seq<Byte>)
    ensures Render(Style(true, 2, sign, format), Object([Pair(Owned(Ascii("a")), Null)]), 0)
      == [LBRACE, LF] + ([SPACE, SPACE] + Ascii("\"a\"") + [COLON, SPACE] + Ascii("null") + [LF]) + [RBRACE]
  {
    var st := Style(true, 2, sign, format);
    var ps := [Pair(Owned(Ascii("a")), Null)];
    var line := PrettyLine(sign, format);
    PrettyObjectFrame(st, ps, 0);
    assert Members(st, ps, 1, 1) == line;
    assert Indentation(st, 0) == [];
  }

  /** A non-empty object in pretty mode, as `PrettyArrayFrame`. */
  lemma PrettyObjectFrame(st: Style, ps: seq<Pair>, indent: nat)
    requires st.pretty && |ps| > 0
    ensures Render(st, Object(ps), indent)
      == [LBRACE, LF] + Members(st, ps, |ps|, indent + 1) + Indentation(st, indent) + [RBRACE]
  {
    PrettyEnclosed(st, LBRACE, RBRACE, |ps|, Members(st, ps, |ps|, indent + 1), indent);
  }

  /** The one member of `PrettyObject`, on its own indented line. */
  lemma PrettyLine(sign: Signedness, format: seq<Byte> -> seq<Byte>) returns (line: seq<Byte>)
    ensures line == [SPACE, SPACE] + Ascii("\"a\"") + [COLON, SPACE] + Ascii("null") + [LF]
    ensures MemberText(Style(true, 2, sign, format), Pair(Owned(Ascii("a")), Null), false, 1) == line
  {
    var st := Style(true, 2, sign, format);
    line := [SPACE, SPACE] + Ascii("\"a\"") + [COLON, SPACE] + Ascii("null") + [LF];
    QuotedLetter(sign);
    assert Indentation(st, 1) == [SPACE, SPACE];
  }

  /** A key of one plain letter is written between quotes unchanged. */
  lemma QuotedLetter(sign: Signedness)
    ensures Quoted(Ascii("a"), sign) == Ascii("\"a\"")
  {
    assert Escaped(Ascii("a"), sign) == EscapeByte('a' as int, sign) + Escaped([], sign);
  }
}
