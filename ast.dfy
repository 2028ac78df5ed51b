/** The tree representation of include/json/ast.hpp: a tagged union whose
    variable-length payloads live elsewhere. Here the children are held by value;
    the arena pointers and sizes of `ArrayView`/`ObjectView` become sequences. */
module Ast {
  import opened Bytes

  /** `NodeType`: the tag of a node. */
  datatype NodeType = NullType | BoolType | NumberType | StringType | ArrayType | ObjectType

  /** `StringView`: where the bytes of a string live. `Slice` aliases the input
      buffer at byte offset `start` (zero-copy); `Owned` is a buffer in the arena
      (unescaped or copied). Both carry the bytes they view. */
  datatype Str =
    | Slice(start: nat, bytes: seq<Byte>)
    | Owned(bytes: seq<Byte>)

  /** The slice really is the input's bytes at its offset. */
  predicate SliceOf(s: Str, input: seq<Byte>) {
    s.Slice? ==> s.start + |s.bytes| <= |input| && input[s.start..s.start + |s.bytes|] == s.bytes
  }

  /** `StringView::view()`: the `size` bytes at `data`. */
  function View(s: Str, input: seq<Byte>): (v: seq<Byte>)
    requires SliceOf(s, input)
    ensures s.Slice? ==> v == input[s.start..s.start + |s.bytes|]
    ensures |v| == |s.bytes|
  {
    s.bytes
  }

  /** A node; a number keeps the decimal text it was read or built from. */
  datatype Node =
    | Null
    | Bool(boolVal: bool)
    | Number(numberVal: seq<Byte>)
    | String(stringVal: Str)
    | Array(arrayVal: seq<Node>)
    | Object(objectVal: seq<Pair>)
  {
    /** `type`: the tag naming the one active payload. */
    function Type(): NodeType {
      match this
      case Null => NullType
      case Bool(_) => BoolType
      case Number(_) => NumberType
      case String(_) => StringType
      case Array(_) => ArrayType
      case Object(_) => ObjectType
    }
  }

  /** `ObjectPair`: a key and its value. */
  datatype Pair = Pair(key: Str, value: Node)

  /** `Node::make_null`. */
  function MakeNull(): (n: Node)
    ensures n.Type() == NullType
  {
    Null
  }

  /** `Node::make_bool`. */
  function MakeBool(v: bool): (n: Node)
    ensures n.Type() == BoolType && n.boolVal == v
  {
    Bool(v)
  }

  /** `Node::make_number`. */
  function MakeNumber(v: seq<Byte>): (n: Node)
    ensures n.Type() == NumberType && n.numberVal == v
  {
    Number(v)
  }

  /** `Node::make_string(data, size)`. */
  function MakeString(s: Str): (n: Node)
    ensures n.Type() == StringType && n.stringVal == s
  {
    String(s)
  }

  /** `Node::make_array(data, size)`: `size` children. */
  function MakeArray(elems: seq<Node>): (n: Node)
    ensures n.Type() == ArrayType && n.arrayVal == elems && Size(n) == |elems|
  {
    Array(elems)
  }

  /** `Node::make_object(data, size)`: `size` pairs. */
  function MakeObject(pairs: seq<Pair>): (n: Node)
    ensures n.Type() == ObjectType && n.objectVal == pairs && Size(n) == |pairs|
  {
    Object(pairs)
  }

  /** `array_val.size` or `object_val.size`. */
  function Size(n: Node): nat
    requires n.Array? || n.Object?
  {
    if n.Array? then |n.arrayVal| else |n.objectVal|
  }

  /** The value of a node independently of where its strings are stored: every
      string becomes an owned copy of its bytes. */
  function Content(n: Node): (c: Node)
    ensures c.Type() == n.Type()
  {
    match n
    case String(s) => String(Owned(s.bytes))
    case Array(elems) => Array(seq(|elems|, i requires 0 <= i < |elems| => Content(elems[i])))
    case Object(pairs) =>
      Object(seq(|pairs|, i requires 0 <= i < |pairs| =>
        Pair(Owned(pairs[i].key.bytes), Content(pairs[i].value))))
    case _ => n
  }

  /** Containers nested around the deepest point of the tree. */
  function Depth(n: Node): nat {
    match n
    case Array(elems) => 1 + MaxDepthOf(elems)
    case Object(pairs) => 1 + MaxPairDepthOf(pairs)
    case _ => 0
  }

  function MaxDepthOf(elems: seq<Node>): nat {
    if elems == [] then 0
    else var d := Depth(elems[0]); var e := MaxDepthOf(elems[1..]); if d < e then e else d
  }

  function MaxPairDepthOf(pairs: seq<Pair>): nat {
    if pairs == [] then 0
    else var d := PairDepth(pairs[0]); var e := MaxPairDepthOf(pairs[1..]); if d < e then e else d
  }

  function PairDepth(p: Pair): nat {
    Depth(p.value)
  }
}
