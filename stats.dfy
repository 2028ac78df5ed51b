/** `count_nodes` of tools/json-reader.cpp: a recursive walk that bumps eight
    by-reference counters. `Visit` is the walk as a function of the counters before
    it; `Census` is an independent, bottom-up account of a tree's nodes, and
    `VisitCensus` proves that the walk adds exactly that to the counters. */
module Stats {
  import opened Errors
  import opened Ast

  /** The values of the counters `total`, `objects`, `arrays`, `strings`,
      `numbers`, `bools`, `nulls` and `max_depth`. */
  datatype Tally = Tally(total: nat, objects: nat, arrays: nat, strings: nat,
                         numbers: nat, bools: nat, nulls: nat, maxDepth: nat)
  {
    /** The sum of the per-kind counters. */
    function Kinds(): nat {
      objects + arrays + strings + numbers + bools + nulls
    }
  }

  /** The counters as `print_stats` declares them. */
  const Zero := Tally(0, 0, 0, 0, 0, 0, 0, 0)

  function Max(a: nat, b: nat): nat {
    if a < b then b else a
  }

  /** The visit of one node at `depth`: one more node, the depth recorded, the
      node's own kind counted, then its array elements or object values visited
      in order at `depth + 1`. */
  function Visit(n: Node, t: Tally, depth: nat): Tally
    decreases n, 1
  {
    var seen := t.(total := t.total + 1, maxDepth := Max(t.maxDepth, depth));
    match n
    case Null => seen.(nulls := seen.nulls + 1)
    case Bool(_) => seen.(bools := seen.bools + 1)
    case Number(_) => seen.(numbers := seen.numbers + 1)
    case String(_) => seen.(strings := seen.strings + 1)
    case Array(xs) => VisitElements(xs, |xs|, seen.(arrays := seen.arrays + 1), depth + 1)
    case Object(ps) => VisitValues(ps, |ps|, seen.(objects := seen.objects + 1), depth + 1)
  }

  /** The first `i` elements visited in order. */
  function VisitElements(xs: seq<Node>, i: nat, t: Tally, depth: nat): Tally
    requires i <= |xs|
    decreases xs, 0, i
  {
    if i == 0 then t else Visit(xs[i - 1], VisitElements(xs, i - 1, t, depth), depth)
  }

  /** The values of the first `i` pairs visited in order; keys are not visited. */
  function VisitValues(ps: seq<Pair>, i: nat, t: Tally, depth: nat): Tally
    requires i <= |ps|
    decreases ps, 0, i
  {
    if i == 0 then t else VisitValue(ps[i - 1], VisitValues(ps, i - 1, t, depth), depth)
  }

  /** The visit of a pair: its value only. */
  function VisitValue(p: Pair, t: Tally, depth: nat): Tally
    decreases p, 2
  {
    Visit(p.value, t, depth)
  }

  // ----- the reference account -----

  /** What a tree holds: its nodes in all, per kind, and in `maxDepth` how many
      levels below its root the deepest node lies. */
  function Census(n: Node): Tally
    decreases n, 1
  {
    match n
    case Null => Tally(1, 0, 0, 0, 0, 0, 1, 0)
    case Bool(_) => Tally(1, 0, 0, 0, 0, 1, 0, 0)
    case Number(_) => Tally(1, 0, 0, 0, 1, 0, 0, 0)
    case String(_) => Tally(1, 0, 0, 1, 0, 0, 0, 0)
    case Array(xs) =>
      var c := ElementsCensus(xs, |xs|);
      c.(total := c.total + 1, arrays := c.arrays + 1)
    case Object(ps) =>
      var c := ValuesCensus(ps, |ps|);
      c.(total := c.total + 1, objects := c.objects + 1)
  }

  /** Two accounts of disjoint parts of a tree, side by side. */
  function Plus(a: Tally, b: Tally): Tally {
    Tally(a.total + b.total, a.objects + b.objects, a.arrays + b.arrays, a.strings + b.strings,
          a.numbers + b.numbers, a.bools + b.bools, a.nulls + b.nulls, Max(a.maxDepth, b.maxDepth))
  }

  /** The account of a child, seen from its parent: one level deeper. */
  function Below(c: Tally): Tally {
    c.(maxDepth := c.maxDepth + 1)
  }

  /** The first `i` elements' accounts; `maxDepth` 0 when there are none. */
  function ElementsCensus(xs: seq<Node>, i: nat): Tally
    requires i <= |xs|
    decreases xs, 0, i
  {
    if i == 0 then Zero else Plus(ElementsCensus(xs, i - 1), Below(Census(xs[i - 1])))
  }

  /** The first `i` pair values' accounts. */
  function ValuesCensus(ps: seq<Pair>, i: nat): Tally
    requires i <= |ps|
    decreases ps, 0, i
  {
    if i == 0 then Zero else Plus(ValuesCensus(ps, i - 1), Below(ValueCensus(ps[i - 1])))
  }

  /** The account of a pair: that of its value. */
  function ValueCensus(p: Pair): Tally
    decreases p, 2
  {
    Census(p.value)
  }

  /** The counters `t` after a walk at `depth` of a tree whose account is `c`. */
  function After(t: Tally, c: Tally, depth: nat): Tally {
    Plus(t, c).(maxDepth := Max(t.maxDepth, depth + c.maxDepth))
  }

  // ----- what the walk computes -----

  /** The walk from `depth` adds the tree's account to the counters: every node
      once in `total` and once in its kind, and `max_depth` becomes the larger of
      its old value and the depth of the deepest node. */
  lemma {:induction false} VisitCensus(n: Node, t: Tally, depth: nat)
    ensures Visit(n, t, depth) == After(t, Census(n), depth)
    decreases n, 1
  {
    var seen := t.(total := t.total + 1, maxDepth := Max(t.maxDepth, depth));
    match n
    case Array(xs) =>
      ElementsVisitCensus(xs, |xs|, seen.(arrays := seen.arrays + 1), depth);
    case Object(ps) =>
      ValuesVisitCensus(ps, |ps|, seen.(objects := seen.objects + 1), depth);
    case _ =>
  }

  lemma {:induction false} ElementsVisitCensus(xs: seq<Node>, i: nat, t: Tally, depth: nat)
    requires i <= |xs|
    requires t.maxDepth >= depth
    ensures VisitElements(xs, i, t, depth + 1) == After(t, ElementsCensus(xs, i), depth)
    decreases xs, 0, i
  {
    if i > 0 {
      ElementsVisitCensus(xs, i - 1, t, depth);
      VisitCensus(xs[i - 1], VisitElements(xs, i - 1, t, depth + 1), depth + 1);
      AfterPlus(t, ElementsCensus(xs, i - 1), Census(xs[i - 1]), depth);
    }
  }

  lemma {:induction false} ValuesVisitCensus(ps: seq<Pair>, i: nat, t: Tally, depth: nat)
    requires i <= |ps|
    requires t.maxDepth >= depth
    ensures VisitValues(ps, i, t, depth + 1) == After(t, ValuesCensus(ps, i), depth)
    decreases ps, 0, i
  {
    if i > 0 {
      ValuesVisitCensus(ps, i - 1, t, depth);
      ValueVisitCensus(ps[i - 1], VisitValues(ps, i - 1, t, depth + 1), depth + 1);
      AfterPlus(t, ValuesCensus(ps, i - 1), ValueCensus(ps[i - 1]), depth);
    }
  }

  lemma {:induction false} ValueVisitCensus(p: Pair, t: Tally, depth: nat)
    ensures VisitValue(p, t, depth) == After(t, ValueCensus(p), depth)
    decreases p, 2
  {
    VisitCensus(p.value, t, depth);
  }

  /** Every node is one of the six kinds, so a tree's total is the sum of its
      per-kind counts. */
  lemma {:induction false} CensusBalanced(n: Node)
    ensures Census(n).total == Census(n).Kinds()
    decreases n, 1
  {
    match n
    case Array(xs) => ElementsBalanced(xs, |xs|);
    case Object(ps) => ValuesBalanced(ps, |ps|);
    case _ =>
  }

  lemma {:induction false} ElementsBalanced(xs: seq<Node>, i: nat)
    requires i <= |xs|
    ensures ElementsCensus(xs, i).total == ElementsCensus(xs, i).Kinds()
    decreases xs, 0, i
  {
    if i > 0 {
      var a := ElementsCensus(xs, i - 1);
      var b := Census(xs[i - 1]);
      ElementsBalanced(xs, i - 1);
      assert a.total == a.Kinds();
      CensusBalanced(xs[i - 1]);
      assert b.total == b.Kinds();
      PlusBalanced(a, b, ElementsCensus(xs, i));
    }
  }

  lemma {:induction false} ValuesBalanced(ps: seq<Pair>, i: nat)
    requires i <= |ps|
    ensures ValuesCensus(ps, i).total == ValuesCensus(ps, i).Kinds()
    decreases ps, 0, i
  {
    if i > 0 {
      var a := ValuesCensus(ps, i - 1);
      var b := ValueCensus(ps[i - 1]);
      ValuesBalanced(ps, i - 1);
      assert a.total == a.Kinds();
      ValueBalanced(ps[i - 1]);
      assert b.total == b.Kinds();
      PlusBalanced(a, b, ValuesCensus(ps, i));
    }
  }

  lemma {:induction false} ValueBalanced(p: Pair)
    ensures ValueCensus(p).total == ValueCensus(p).Kinds()
    decreases p, 2
  {
    CensusBalanced(p.value);
  }

  /** Two balanced accounts side by side are balanced. */
  lemma PlusBalanced(a: Tally, b: Tally, r: Tally)
    requires a.total == a.Kinds() && b.total == b.Kinds()
    requires r == Plus(a, Below(b))
    ensures r.total == r.Kinds()
  {
  }

  /** Walking one more child at `depth + 1` adds its account, one level down. */
  lemma AfterPlus(t: Tally, e: Tally, c: Tally, depth: nat)
    ensures After(After(t, e, depth), c, depth + 1) == After(t, Plus(e, Below(c)), depth)
  {
  }

  /** Walking from zeroed counters at depth 0 leaves exactly the account. */
  lemma AfterZero(c: Tally)
    ensures After(Zero, c, 0) == c
  {
  }

  /** From zeroed counters, as `print_stats` calls it, the walk from the root at
      depth 0 yields the tree's account, and `total` is the sum of the six kind
      counters. */
  lemma StatsFromZero(n: Node)
    ensures Visit(n, Zero, 0) == Census(n)
    ensures Visit(n, Zero, 0).total == Visit(n, Zero, 0).Kinds()
  {
    VisitCensus(n, Zero, 0);
    AfterZero(Census(n));
    CensusBalanced(n);
  }

  /** Keys are never visited: objects whose values agree have the same account,
      whatever their keys. */
  lemma {:induction false} KeysNotCounted(ps: seq<Pair>, qs: seq<Pair>, i: nat)
    requires i <= |ps| == |qs|
    requires forall j | 0 <= j < |ps| :: ps[j].value == qs[j].value
    ensures ValuesCensus(ps, i) == ValuesCensus(qs, i)
    ensures i == |ps| ==> Census(Object(ps)) == Census(Object(qs))
  {
    if i > 0 {
      KeysNotCounted(ps, qs, i - 1);
    }
  }

  // ----- the walk itself -----

  /** The by-reference counters. */
  class Counters {
    var total: nat
    var objects: nat
    var arrays: nat
    var strings: nat
    var numbers: nat
    var bools: nat
    var nulls: nat
    var maxDepth: nat

    function Values(): Tally
      reads this
    {
      Tally(total, objects, arrays, strings, numbers, bools, nulls, maxDepth)
    }

    /** `size_t total = 0, ...` in `print_stats`. */
    constructor ()
      ensures Values() == Zero
    {
      total, objects, arrays, strings := 0, 0, 0, 0;
      numbers, bools, nulls, maxDepth := 0, 0, 0, 0;
    }
  }

  /** `count_nodes(node, ..., depth)`: a null pointer changes no counter. */
  method CountNodes(node: Option<Node>, c: Counters, depth: nat)
    modifies c
    ensures node.None? ==> c.Values() == old(c.Values())
    ensures node.Some? ==> c.Values() == Visit(node.value, old(c.Values()), depth)
  {
    if node.None? {
      return;
    }
    CountNode(node.value, c, depth);
  }

  /** The rest of `count_nodes` for a node that is present. */
  method CountNode(n: Node, c: Counters, depth: nat)
    modifies c
    ensures c.Values() == Visit(n, old(c.Values()), depth)
    decreases n
  {
    c.total := c.total + 1;
    c.maxDepth := Max(c.maxDepth, depth);
    match n {
      case Null =>
        c.nulls := c.nulls + 1;
      case Bool(_) =>
        c.bools := c.bools + 1;
      case Number(_) =>
        c.numbers := c.numbers + 1;
      case String(_) =>
        c.strings := c.strings + 1;
      case Array(xs) =>
        c.arrays := c.arrays + 1;
        ghost var start := c.Values();
        var i := 0;
        while i < |xs|
          invariant 0 <= i <= |xs|
          invariant c.Values() == VisitElements(xs, i, start, depth + 1)
        {
          CountNode(xs[i], c, depth + 1);
          i := i + 1;
        }
      case Object(ps) =>
        c.objects := c.objects + 1;
        ghost var start := c.Values();
        var i := 0;
        while i < |ps|
          invariant 0 <= i <= |ps|
          invariant c.Values() == VisitValues(ps, i, start, depth + 1)
        {
          CountNode(ps[i].value, c, depth + 1);
          i := i + 1;
        }
    }
  }

  /** `print_stats`: the counters after walking `root` from zero hold its account,
      and the total is the sum of the kind counters. */
  method PrintedStats(root: Option<Node>) returns (t: Tally)
    ensures root.None? ==> t == Zero
    ensures root.Some? ==> t == Census(root.value)
    ensures t.total == t.Kinds()
  {
    var c := new Counters();
    CountNodes(root, c, 0);
    t := c.Values();
    if root.Some? {
      StatsFromZero(root.value);
    }
  }
}
