/** The tree builders of include/json/builder.hpp. A builder collects children in a
    list (`elements_` or `pairs_`) and `build` copies that list into an arena array
    under a new container node. Every node and every copied string is allocated in
    the arena; the model tracks those allocations through the arena's regions. A
    `Node*` child is held by value, and a pointer that may be null by an `Option`.
    A `double` is represented by its decimal text, as the node model keeps numbers. */
module Building {
  import opened Bytes
  import opened Errors
  import opened Ast
  import Lexer
  import Arena

  // ----- numbers built from integers -----

  /** The decimal digits of `n`, most significant first, without leading zeros. */
  function Digits(n: nat): (r: seq<Byte>)
    ensures |r| > 0
    ensures forall k | 0 <= k < |r| :: IsDigit(r[k])
    ensures r[0] == ZERO ==> n == 0 && |r| == 1
    decreases n
  {
    if n < 10 then [ZERO + n] else Digits(n / 10) + [ZERO + n % 10]
  }

  /** The value of a run of decimal digits. */
  function DigitsValue(s: seq<Byte>): nat
    requires forall k | 0 <= k < |s| :: IsDigit(s[k])
  {
    if s == [] then 0
    else
      assert IsDigit(s[|s| - 1]);
      10 * DigitsValue(s[..|s| - 1]) + (s[|s| - 1] - ZERO)
  }

  /** `static_cast<double>(value)` for an `int`: every `int` is exactly a double, so
      its value is its decimal text. */
  function IntNumber(v: int): (r: seq<Byte>)
    ensures |r| > 0
  {
    if v < 0 then [MINUS] + Digits(-v) else Digits(v)
  }

  /** The digits read back give the number they were written from. */
  lemma {:induction false} DigitsValueOf(n: nat)
    ensures DigitsValue(Digits(n)) == n
    decreases n
  {
    if n >= 10 {
      var d := Digits(n / 10);
      assert (d + [ZERO + n % 10])[..|d|] == d;
      DigitsValueOf(n / 10);
    }
  }

  /** An integer's text is one whole JSON number token: `read_number` consumes all
      of it. */
  lemma IntNumberLexes(v: int)
    ensures var s := IntNumber(v);
      Lexer.ReadNumber(s, 0) == Lexer.Lexed(Ok(Lexer.NumberToken(s, 0, |s|)), |s|)
  {
    var s := IntNumber(v);
    var p := if v < 0 then 1 else 0;
    assert s[p] == Digits(if v < 0 then -v else v)[0];
    assert forall k | p <= k < |s| :: IsDigit(s[k]);
    if s[p] != ZERO {
      assert Lexer.DigitsEnd(s, p) == |s|;
    }
  }

  /** ...and its text reads back as the integer. */
  lemma IntNumberValue(v: int)
    ensures var s := IntNumber(v);
      && (v < 0 <==> s[0] == MINUS)
      && var digits := if v < 0 then s[1..] else s;
         (forall k | 0 <= k < |digits| :: IsDigit(digits[k]))
         && DigitsValue(digits) == (if v < 0 then -v else v)
  {
    var s := IntNumber(v);
    if v < 0 {
      assert s[1..] == Digits(-v);
      DigitsValueOf(-v);
    } else {
      DigitsValueOf(v);
    }
  }

  // ----- C strings -----

  /** `std::string_view(const char*)`: the bytes before the first NUL. */
  function CString(p: seq<Byte>): (r: seq<Byte>)
    ensures |r| <= |p| && r == p[..|r|]
    ensures 0 !in r
    ensures |r| < |p| ==> p[|r|] == 0
  {
    if p == [] || p[0] == 0 then [] else [p[0]] + CString(p[1..])
  }

  // ----- allocation -----

  /** `arena_copy_string`: a buffer of `str.size()` bytes in the arena, holding a
      copy of `str`. */
  method CopyString(arena: Arena.Arena, str: seq<Byte>) returns (s: Str, at: Arena.Addr)
    requires arena.Valid()
    modifies arena
    ensures arena.Valid()
    ensures s == Owned(str) && |s.bytes| == |str|
    ensures arena.live == old(arena.live) + [Arena.Region(at, |str|)]
  {
    at := arena.Alloc(|str|, 1);
    s := Owned(str);
  }

  /** `arena.alloc<Node>()`. */
  method AllocNode(arena: Arena.Arena) returns (at: Arena.Addr)
    requires arena.Valid()
    modifies arena
    ensures arena.Valid()
    ensures arena.live == old(arena.live) + [Arena.Region(at, Arena.NodeSize)]
  {
    at := arena.Alloc(Arena.NodeSize, Arena.NodeAlign);
  }

  /** `make_null(arena)`: a Null node allocated in the arena. */
  method NewNull(arena: Arena.Arena) returns (n: Node)
    requires arena.Valid()
    modifies arena
    ensures arena.Valid()
    ensures n == Null && |arena.live| == old(|arena.live|) + 1
  {
    var _ := AllocNode(arena);
    n := MakeNull();
  }

  /** `make_bool(arena, value)`. */
  method NewBool(arena: Arena.Arena, value: bool) returns (n: Node)
    requires arena.Valid()
    modifies arena
    ensures arena.Valid()
    ensures n == Bool(value) && |arena.live| == old(|arena.live|) + 1
  {
    var _ := AllocNode(arena);
    n := MakeBool(value);
  }

  /** `make_number(arena, value)`. */
  method NewNumber(arena: Arena.Arena, value: seq<Byte>) returns (n: Node)
    requires arena.Valid()
    modifies arena
    ensures arena.Valid()
    ensures n == Number(value) && |arena.live| == old(|arena.live|) + 1
  {
    var _ := AllocNode(arena);
    n := MakeNumber(value);
  }

  /** `make_string(arena, value)`: the bytes are copied first, then the node. */
  method NewString(arena: Arena.Arena, value: seq<Byte>) returns (n: Node)
    requires arena.Valid()
    modifies arena
    ensures arena.Valid()
    ensures n == String(Owned(value)) && |arena.live| == old(|arena.live|) + 2
    ensures old(|arena.live|) < |arena.live| && arena.live[old(|arena.live|)].size == |value|
  {
    var s, _ := CopyString(arena, value);
    var _ := AllocNode(arena);
    n := MakeString(s);
  }

  // ----- ArrayBuilder -----

  class ArrayBuilder {
    const arena: Arena.Arena
    /** `elements_`: the children added so far, in order. */
    var elements: seq<Node>

    ghost predicate Valid()
      reads this, arena
    {
      arena.Valid()
    }

    /** `size()`. */
    function Size(): nat
      reads this
    {
      |elements|
    }

    /** `ArrayBuilder(arena)` (also `build_array(arena)`): no children yet. */
    constructor (arena: Arena.Arena)
      requires arena.Valid()
      ensures Valid() && this.arena == arena
      ensures elements == [] && Size() == 0
    {
      this.arena := arena;
      elements := [];
    }

    /** `add(nullptr)`: appends a Null node. */
    method AddNull()
      requires Valid()
      modifies this, arena
      ensures Valid()
      ensures elements == old(elements) + [Null] && Size() == old(Size()) + 1
    {
      var n := NewNull(arena);
      elements := elements + [n];
    }

    /** `add(bool)`. */
    method AddBool(value: bool)
      requires Valid()
      modifies this, arena
      ensures Valid()
      ensures elements == old(elements) + [Bool(value)] && Size() == old(Size()) + 1
    {
      var n := NewBool(arena, value);
      elements := elements + [n];
    }

    /** `add(double)`. */
    method AddNumber(value: seq<Byte>)
      requires Valid()
      modifies this, arena
      ensures Valid()
      ensures elements == old(elements) + [Number(value)] && Size() == old(Size()) + 1
    {
      var n := NewNumber(arena, value);
      elements := elements + [n];
    }

    /** `add(int)`: exactly `add(static_cast<double>(value))`. */
    method AddInt(value: int)
      requires Valid()
      modifies this, arena
      ensures Valid()
      ensures elements == old(elements) + [Number(IntNumber(value))] && Size() == old(Size()) + 1
    {
      AddNumber(IntNumber(value));
    }

    /** `add(std::string_view)`: the bytes are copied into the arena. */
    method AddString(value: seq<Byte>)
      requires Valid()
      modifies this, arena
      ensures Valid()
      ensures elements == old(elements) + [String(Owned(value))] && Size() == old(Size()) + 1
    {
      var n := NewString(arena, value);
      elements := elements + [n];
    }

    /** `add(const char*)`: the bytes up to the terminating NUL. */
    method AddCString(value: seq<Byte>)
      requires Valid()
      requires 0 in value
      modifies this, arena
      ensures Valid()
      ensures elements == old(elements) + [String(Owned(CString(value)))]
    {
      AddString(CString(value));
    }

    /** `add(Node*)`: a null pointer changes nothing, otherwise the node is appended
        as it is, without allocating. */
    method AddNode(node: Option<Node>)
      modifies this
      ensures node.None? ==> elements == old(elements)
      ensures node.Some? ==> elements == old(elements) + [node.value]
    {
      if node.Some? {
        elements := elements + [node.value];
      }
    }

    /** `build()`: an array of the children's pointers, copied in order, under a new
        Array node; the list itself is left as it is. */
    method Build() returns (n: Node)
      requires Valid()
      modifies arena
      ensures Valid()
      ensures n == Array(elements) && |n.arrayVal| == Size()
      ensures elements == old(elements)
      ensures |arena.live| == old(|arena.live|) + 2
    {
      var _ := arena.Alloc(Arena.PointerSize * |elements|, Arena.PointerAlign);
      var copied: seq<Node> := [];
      var i := 0;
      while i < |elements|
        invariant 0 <= i <= |elements|
        invariant copied == elements[..i]
      {
        copied := copied + [elements[i]];
        i := i + 1;
      }
      assert copied == elements;
      var _ := AllocNode(arena);
      n := MakeArray(copied);
    }
  }

  // ----- ObjectBuilder -----

  class ObjectBuilder {
    const arena: Arena.Arena
    /** `pairs_`: the members added so far, in order; keys are arena copies. */
    var pairs: seq<Pair>

    ghost predicate Valid()
      reads this, arena
    {
      arena.Valid()
    }

    /** `size()`. */
    function Size(): nat
      reads this
    {
      |pairs|
    }

    /** `ObjectBuilder(arena)` (also `build_object(arena)`): no members yet. */
    constructor (arena: Arena.Arena)
      requires arena.Valid()
      ensures Valid() && this.arena == arena
      ensures pairs == [] && Size() == 0
    {
      this.arena := arena;
      pairs := [];
    }

    /** `add_pair`: copies the key into the arena and appends the pair, whether or
        not an equal key is already present. */
    method AddPair(key: seq<Byte>, value: Node)
      requires Valid()
      modifies this, arena
      ensures Valid()
      ensures pairs == old(pairs) + [Pair(Owned(key), value)] && Size() == old(Size()) + 1
      ensures |arena.live| == old(|arena.live|) + 1 && arena.live[old(|arena.live|)].size == |key|
    {
      var k, _ := CopyString(arena, key);
      pairs := pairs + [Pair(k, value)];
    }

    /** `add(key, nullptr)`. */
    method AddNull(key: seq<Byte>)
      requires Valid()
      modifies this, arena
      ensures Valid()
      ensures pairs == old(pairs) + [Pair(Owned(key), Null)]
    {
      var n := NewNull(arena);
      AddPair(key, n);
    }

    /** `add(key, bool)`. */
    method AddBool(key: seq<Byte>, value: bool)
      requires Valid()
      modifies this, arena
      ensures Valid()
      ensures pairs == old(pairs) + [Pair(Owned(key), Bool(value))]
    {
      var n := NewBool(arena, value);
      AddPair(key, n);
    }

    /** `add(key, double)`. */
    method AddNumber(key: seq<Byte>, value: seq<Byte>)
      requires Valid()
      modifies this, arena
      ensures Valid()
      ensures pairs == old(pairs) + [Pair(Owned(key), Number(value))]
    {
      var n := NewNumber(arena, value);
      AddPair(key, n);
    }

    /** `add(key, int)`: exactly `add(key, static_cast<double>(value))`. */
    method AddInt(key: seq<Byte>, value: int)
      requires Valid()
      modifies this, arena
      ensures Valid()
      ensures pairs == old(pairs) + [Pair(Owned(key), Number(IntNumber(value)))]
    {
      AddNumber(key, IntNumber(value));
    }

    /** `add(key, std::string_view)`: the value's bytes and then the key's are
        copied into the arena. */
    method AddString(key: seq<Byte>, value: seq<Byte>)
      requires Valid()
      modifies this, arena
      ensures Valid()
      ensures pairs == old(pairs) + [Pair(Owned(key), String(Owned(value)))]
    {
      var n := NewString(arena, value);
      AddPair(key, n);
    }

    /** `add(key, const char*)`. */
    method AddCString(key: seq<Byte>, value: seq<Byte>)
      requires Valid()
      requires 0 in value
      modifies this, arena
      ensures Valid()
      ensures pairs == old(pairs) + [Pair(Owned(key), String(Owned(CString(value))))]
    {
      AddString(key, CString(value));
    }

    /** `add(key, Node*)`: a null pointer changes nothing, not even the arena. */
    method AddNode(key: seq<Byte>, node: Option<Node>)
      requires Valid()
      modifies this, arena
      ensures Valid()
      ensures node.None? ==> pairs == old(pairs) && arena.live == old(arena.live)
      ensures node.Some? ==> pairs == old(pairs) + [Pair(Owned(key), node.value)]
    {
      if node.Some? {
        AddPair(key, node.value);
      }
    }

    /** `build()`: the pairs copied in order into an arena array under a new Object
        node; the list itself is left as it is. */
    method Build() returns (n: Node)
      requires Valid()
      modifies arena
      ensures Valid()
      ensures n == Object(pairs) && |n.objectVal| == Size()
      ensures pairs == old(pairs)
      ensures |arena.live| == old(|arena.live|) + 2
    {
      var _ := arena.Alloc(Arena.PairSize * |pairs|, Arena.PairAlign);
      var copied: seq<Pair> := [];
      var i := 0;
      while i < |pairs|
        invariant 0 <= i <= |pairs|
        invariant copied == pairs[..i]
      {
        copied := copied + [pairs[i]];
        i := i + 1;
      }
      assert copied == pairs;
      var _ := AllocNode(arena);
      n := MakeObject(copied);
    }
  }

  // ----- convenience factories -----

  /** `build_array(arena, {doubles...})`: one Number child per value, in order. */
  method BuildNumbers(arena: Arena.Arena, values: seq<seq<Byte>>) returns (n: Node)
    requires arena.Valid()
    modifies arena
    ensures arena.Valid()
    ensures n.Array? && |n.arrayVal| == |values|
    ensures forall j | 0 <= j < |values| :: n.arrayVal[j] == Number(values[j])
  {
    var builder := new ArrayBuilder(arena);
    var i := 0;
    while i < |values|
      invariant 0 <= i <= |values|
      invariant builder.Valid() && builder.arena == arena
      invariant |builder.elements| == i
      invariant forall j | 0 <= j < i :: builder.elements[j] == Number(values[j])
      modifies builder, arena
    {
      builder.AddNumber(values[i]);
      i := i + 1;
    }
    n := builder.Build();
  }

  /** `build_array(arena, {const char*...})`: one String child per value, each an
      arena copy of the bytes before its NUL, in order. */
  method BuildStrings(arena: Arena.Arena, values: seq<seq<Byte>>) returns (n: Node)
    requires arena.Valid()
    requires forall j | 0 <= j < |values| :: 0 in values[j]
    modifies arena
    ensures arena.Valid()
    ensures n.Array? && |n.arrayVal| == |values|
    ensures forall j | 0 <= j < |values| :: n.arrayVal[j] == String(Owned(CString(values[j])))
  {
    var builder := new ArrayBuilder(arena);
    var i := 0;
    while i < |values|
      invariant 0 <= i <= |values|
      invariant builder.Valid() && builder.arena == arena
      invariant |builder.elements| == i
      invariant forall j | 0 <= j < i :: builder.elements[j] == String(Owned(CString(values[j])))
      modifies builder, arena
    {
      builder.AddCString(values[i]);
      i := i + 1;
    }
    n := builder.Build();
  }

  /** Adding a key twice keeps both members, in order: the builder does not
      look for an equal key. */
  method KeepsDuplicateKeys(arena: Arena.Arena, key: seq<Byte>, first: Node, second: Node)
    returns (n: Node)
    requires arena.Valid()
    modifies arena
    ensures n == Object([Pair(Owned(key), first), Pair(Owned(key), second)])
  {
    var builder := new ObjectBuilder(arena);
    builder.AddNode(key, Some(first));
    builder.AddNode(key, Some(second));
    n := builder.Build();
  }
}
