/** Laws of `Parser::parse()` (module Grammar) for any token source: no tree it
    returns is nested deeper than `MaxDepth`, and the element and member loops
    keep what they read in source order. */
module GrammarProperties {
  import opened Bytes
  import opened Errors
  import opened Lexer
  import opened Grammar
  import Ast

  // ----- the depth limit holds for every result -----

  /** The depth of a sequence grown by one element. */
  lemma {:induction false} MaxDepthOfAppend(xs: seq<Ast.Node>, v: Ast.Node)
    ensures Ast.MaxDepthOf(xs + [v]) == Max(Ast.MaxDepthOf(xs), Ast.Depth(v))
  {
    if xs != [] {
      assert (xs + [v])[1..] == xs[1..] + [v];
      MaxDepthOfAppend(xs[1..], v);
    } else {
      assert ([] + [v])[1..] == [];
    }
  }

  /** The depth of a member list grown by one member. */
  lemma {:induction false} MaxPairDepthOfAppend(ps: seq<Ast.Pair>, m: Ast.Pair)
    ensures Ast.MaxPairDepthOf(ps + [m]) == Max(Ast.MaxPairDepthOf(ps), Ast.PairDepth(m))
  {
    if ps != [] {
      assert (ps + [m])[1..] == ps[1..] + [m];
      MaxPairDepthOfAppend(ps[1..], m);
    } else {
      assert ([] + [m])[1..] == [];
    }
  }

  function Max(a: nat, b: nat): (m: nat)
    ensures m >= a && m >= b && (m == a || m == b)
  {
    if a < b then b else a
  }

  /** A value read at nesting depth `depth` is at most `MaxDepth - depth` deep. */
  lemma {:induction false} ValueDepth(s: seq<Byte>, env: Env, st: PState, depth: nat)
    requires Lexes(s, env) && ValidState(s, st) && depth <= MaxDepth
    ensures var r := ParseValue(s, env, st, depth);
      r.Ok? ==> depth + Ast.Depth(r.value.0) <= MaxDepth
    decreases |s| - Unread(st), 2
  {
    var p := Peek(s, env, st);
    if p.Ok? {
      var (t, st1) := p.value;
      if t.kind == LeftBracket && depth + 1 <= MaxDepth {
        ArrayBodyDepth(s, env, Consume(st1), depth + 1);
      } else if t.kind == LeftBrace && depth + 1 <= MaxDepth {
        ObjectBodyDepth(s, env, Consume(st1), depth + 1);
      }
    }
  }

  /** An array body read at depth `depth` (its own level) is at most
      `MaxDepth - depth + 1` deep. */
  lemma {:induction false} ArrayBodyDepth(s: seq<Byte>, env: Env, st: PState, depth: nat)
    requires Lexes(s, env) && ValidState(s, st) && 1 <= depth <= MaxDepth
    ensures var r := ArrayBody(s, env, st, depth);
      r.Ok? ==> depth - 1 + Ast.Depth(r.value.0) <= MaxDepth
    decreases |s| - Unread(st), 4
  {
    var p := Peek(s, env, st);
    if p.Ok? && p.value.0.kind != RightBracket {
      ElementsDepth(s, env, p.value.1, depth, []);
    }
  }

  /** The elements of an array at depth `depth` are at most `MaxDepth - depth`
      deep, given those read so far are. */
  lemma {:induction false} ElementsDepth(s: seq<Byte>, env: Env, st: PState, depth: nat, acc: seq<Ast.Node>)
    requires Lexes(s, env) && ValidState(s, st) && 1 <= depth <= MaxDepth
    requires depth + Ast.MaxDepthOf(acc) <= MaxDepth
    ensures var r := Elements(s, env, st, depth, acc);
      r.Ok? ==> depth + Ast.MaxDepthOf(r.value.0) <= MaxDepth
    decreases |s| - Unread(st), 3
  {
    var r := ParseValue(s, env, st, depth);
    if r.Ok? {
      var (v, p) := r.value;
      ValueDepth(s, env, st, depth);
      MaxDepthOfAppend(acc, v);
      var sep := Separator(s, env, p, RightBracket);
      if sep.Ok? && !sep.value.0 {
        ElementsDepth(s, env, PState(sep.value.1, None), depth, acc + [v]);
      }
    }
  }

  /** An object body read at depth `depth` is at most `MaxDepth - depth + 1` deep. */
  lemma {:induction false} ObjectBodyDepth(s: seq<Byte>, env: Env, st: PState, depth: nat)
    requires Lexes(s, env) && ValidState(s, st) && 1 <= depth <= MaxDepth
    ensures var r := ObjectBody(s, env, st, depth);
      r.Ok? ==> depth - 1 + Ast.Depth(r.value.0) <= MaxDepth
    decreases |s| - Unread(st), 5
  {
    var p := Peek(s, env, st);
    if p.Ok? && p.value.0.kind != RightBrace {
      MembersDepth(s, env, p.value.1, depth, []);
    }
  }

  /** The member values of an object at depth `depth` are at most
      `MaxDepth - depth` deep, given those read so far are. */
  lemma {:induction false} MembersDepth(s: seq<Byte>, env: Env, st: PState, depth: nat, acc: seq<Ast.Pair>)
    requires Lexes(s, env) && ValidState(s, st) && 1 <= depth <= MaxDepth
    requires depth + Ast.MaxPairDepthOf(acc) <= MaxDepth
    ensures var r := Members(s, env, st, depth, acc);
      r.Ok? ==> depth + Ast.MaxPairDepthOf(r.value.0) <= MaxDepth
    decreases |s| - Unread(st), 4
  {
    var r := Member(s, env, st, depth);
    if r.Ok? {
      var (m, p) := r.value;
      MemberDepth(s, env, st, depth);
      MaxPairDepthOfAppend(acc, m);
      var sep := Separator(s, env, p, RightBrace);
      if sep.Ok? && !sep.value.0 {
        MembersDepth(s, env, PState(sep.value.1, None), depth, acc + [m]);
      }
    }
  }

  /** A member's value at depth `depth` is at most `MaxDepth - depth` deep. */
  lemma {:induction false} MemberDepth(s: seq<Byte>, env: Env, st: PState, depth: nat)
    requires Lexes(s, env) && ValidState(s, st) && depth <= MaxDepth
    ensures var r := Member(s, env, st, depth);
      r.Ok? ==> depth + Ast.PairDepth(r.value.0) <= MaxDepth
    decreases |s| - Unread(st), 3
  {
    var k := Expect(s, env, st, String);
    if k.Ok? {
      var c := Expect(s, env, k.value.1, Colon);
      if c.Ok? {
        ValueDepth(s, env, c.value.1, depth);
      }
    }
  }

  /** Whatever `parse()` returns is at most `MaxDepth` containers deep. */
  lemma ParseDepth(s: seq<Byte>, env: Env, p: nat)
    requires Lexes(s, env) && p <= |s|
    ensures var r := Parse(s, env, p); r.Ok? ==> Ast.Depth(r.value) <= MaxDepth
  {
    ValueDepth(s, env, PState(p, None), 0);
  }

  // ----- the loops keep source order -----

  /** `r` is `r0` with `acc` in front of its list. */
  ghost predicate Prefixed<T>(r: Result<(seq<T>, nat)>, r0: Result<(seq<T>, nat)>, acc: seq<T>) {
    && (r.Ok? <==> r0.Ok?)
    && (r.Ok? && r0.Ok? ==> r.value == (acc + r0.value.0, r0.value.1))
    && (r.Err? && r0.Err? ==> r.error == r0.error)
  }

  /** Prefixing with `acc + [m]` what is prefixed with `[m]` prefixes with `acc`
      what is prefixed with nothing. */
  lemma PrefixedStep<T>(r: Result<(seq<T>, nat)>, r1: Result<(seq<T>, nat)>, r0: Result<(seq<T>, nat)>, acc: seq<T>, m: T)
    requires Prefixed(r, r0, acc + [m]) && Prefixed(r1, r0, [m])
    ensures Prefixed(r, r1, acc)
  {
    if r.Ok? {
      assert (acc + [m]) + r0.value.0 == acc + ([m] + r0.value.0);
    }
  }

  /** The element loop appends what it reads to what it was given: the elements
      come out in the order they are read, after those already read. */
  lemma {:induction false} ElementsInOrder(s: seq<Byte>, env: Env, st: PState, depth: nat, acc: seq<Ast.Node>)
    requires Lexes(s, env) && ValidState(s, st)
    ensures Prefixed(Elements(s, env, st, depth, acc), Elements(s, env, st, depth, []), acc)
    decreases |s| - Unread(st)
  {
    var r := ParseValue(s, env, st, depth);
    if r.Ok? {
      var (v, p) := r.value;
      var sep := Separator(s, env, p, RightBracket);
      if sep.Ok? && !sep.value.0 {
        var next := PState(sep.value.1, None);
        ElementsInOrder(s, env, next, depth, acc + [v]);
        ElementsInOrder(s, env, next, depth, [v]);
        PrefixedStep(Elements(s, env, next, depth, acc + [v]), Elements(s, env, next, depth, [v]),
                     Elements(s, env, next, depth, []), acc, v);
      } else {
        assert [] + [v] == [v];
      }
    }
  }

  /** The member loop appends what it reads to what it was given, in order, keys
      repeated or not. */
  lemma {:induction false} MembersInOrder(s: seq<Byte>, env: Env, st: PState, depth: nat, acc: seq<Ast.Pair>)
    requires Lexes(s, env) && ValidState(s, st)
    ensures Prefixed(Members(s, env, st, depth, acc), Members(s, env, st, depth, []), acc)
    decreases |s| - Unread(st)
  {
    var r := Member(s, env, st, depth);
    if r.Ok? {
      var (m, p) := r.value;
      var sep := Separator(s, env, p, RightBrace);
      if sep.Ok? && !sep.value.0 {
        var next := PState(sep.value.1, None);
        MembersInOrder(s, env, next, depth, acc + [m]);
        MembersInOrder(s, env, next, depth, [m]);
        PrefixedStep(Members(s, env, next, depth, acc + [m]), Members(s, env, next, depth, [m]),
                     Members(s, env, next, depth, []), acc, m);
      } else {
        assert [] + [m] == [m];
      }
    }
  }
}
