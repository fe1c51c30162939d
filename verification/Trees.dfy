/** Expression trees as the meaning of postfix lists. */
module Trees {
  import opened Wrappers
  import opened Values
  import opened Eval

  datatype Tree = Leaf(v: Ari) | Node(op: Oper, args: seq<Tree>)

  ghost predicate WellFormed(t: Tree) {
    t.Leaf? || (|t.args| == Arity(t.op) && AllWellFormed(t.args))
  }

  ghost predicate AllWellFormed(ts: seq<Tree>) {
    ts == [] || (WellFormed(ts[0]) && AllWellFormed(ts[1..]))
  }

  function Postfix(t: Tree): seq<Item> {
    match t
    case Leaf(v) => [Value(v)]
    case Node(op, args) => PostfixAll(args) + [Deref(op)]
  }

  function PostfixAll(ts: seq<Tree>): seq<Item> {
    if ts == [] then [] else Postfix(ts[0]) + PostfixAll(ts[1..])
  }

  /** The value of a tree: its arguments from left to right, then its operator. */
  function TreeValue(t: Tree): (r: Result<Ari>)
    requires WellFormed(t)
    ensures r.Err? ==> r.code != 0
  {
    match t
    case Leaf(v) => Ok(v)
    case Node(op, args) =>
      match TreeValues(args)
      case Err(c) => Err(c)
      case Ok(vals) => Apply(op, vals)
  }

  function TreeValues(ts: seq<Tree>): (r: Result<seq<Ari>>)
    requires AllWellFormed(ts)
    ensures r.Ok? ==> |r.value| == |ts|
    ensures r.Err? ==> r.code != 0
  {
    if ts == [] then Ok([])
    else
      match TreeValue(ts[0])
      case Err(c) => Err(c)
      case Ok(v) =>
        match TreeValues(ts[1..])
        case Err(c) => Err(c)
        case Ok(vs) => Ok([v] + vs)
  }

  // ----- running a postfix form gives the tree's value -----

  lemma {:induction false} RunTree(t: Tree, rest: seq<Item>, stack: seq<Ari>)
    requires WellFormed(t)
    ensures match TreeValue(t)
            case Ok(v) => Run(Postfix(t) + rest, stack) == Run(rest, stack + [v])
            case Err(c) => Run(Postfix(t) + rest, stack).code == c
    decreases t, 1
  {
    match t
    case Leaf(v) =>
      assert (Postfix(t) + rest)[1..] == rest;
    case Node(op, args) =>
      var tail := [Deref(op)] + rest;
      assert Postfix(t) + rest == PostfixAll(args) + tail;
      RunTrees(args, tail, stack);
      if TreeValues(args).Ok? {
        var vals := TreeValues(args).value;
        assert tail[0] == Deref(op) && tail[1..] == rest;
        assert (stack + vals)[|stack|..] == vals && (stack + vals)[..|stack|] == stack;
      }
  }

  lemma {:induction false} RunTrees(ts: seq<Tree>, rest: seq<Item>, stack: seq<Ari>)
    requires AllWellFormed(ts)
    ensures match TreeValues(ts)
            case Ok(vs) => Run(PostfixAll(ts) + rest, stack) == Run(rest, stack + vs)
            case Err(c) => Run(PostfixAll(ts) + rest, stack).code == c
    decreases ts, 0
  {
    if ts == [] {
      assert PostfixAll(ts) + rest == rest;
      assert stack + [] == stack;
    } else {
      var tail := PostfixAll(ts[1..]) + rest;
      assert PostfixAll(ts) + rest == Postfix(ts[0]) + tail;
      RunTree(ts[0], tail, stack);
      if TreeValue(ts[0]).Ok? {
        var v := TreeValue(ts[0]).value;
        RunTrees(ts[1..], rest, stack + [v]);
        if TreeValues(ts[1..]).Ok? {
          assert stack + [v] + TreeValues(ts[1..]).value == stack + ([v] + TreeValues(ts[1..]).value);
        }
      }
    }
  }

  /** Reducing the postfix form of a tree gives exactly the tree's value or its first error. */
  lemma ReducePostfix(t: Tree)
    requires WellFormed(t)
    ensures Reduce(Postfix(t)) == TreeValue(t)
  {
    RunTree(t, [], []);
    assert Postfix(t) + [] == Postfix(t);
  }

  // ----- and only postfix forms reduce -----

  /** Rebuild trees from a postfix list on top of a forest already built. */
  function Parse(items: seq<Item>, forest: seq<Tree>): Option<seq<Tree>> {
    if items == [] then Some(forest)
    else
      match items[0]
      case Value(v) => Parse(items[1..], forest + [Leaf(v)])
      case Deref(op) =>
        if |forest| < Arity(op) then None
        else
          var k := |forest| - Arity(op);
          Parse(items[1..], forest[..k] + [Node(op, forest[k..])])
  }

  lemma {:induction false} WellFormedAppend(ts: seq<Tree>, us: seq<Tree>)
    ensures AllWellFormed(ts + us) <==> AllWellFormed(ts) && AllWellFormed(us)
    ensures PostfixAll(ts + us) == PostfixAll(ts) + PostfixAll(us)
  {
    if ts == [] {
      assert ts + us == us;
    } else {
      hide WellFormed, Postfix;
      WellFormedAppend(ts[1..], us);
      assert (ts + us)[1..] == ts[1..] + us;
      assert (ts + us)[0] == ts[0];
      assert Postfix(ts[0]) + (PostfixAll(ts[1..]) + PostfixAll(us)) == PostfixAll(ts) + PostfixAll(us);
    }
  }

  lemma SingleForest(t: Tree)
    ensures AllWellFormed([t]) <==> WellFormed(t)
    ensures PostfixAll([t]) == Postfix(t)
  {
    assert [t][1..] == [];
    assert PostfixAll([t]) == Postfix(t) + PostfixAll([]);
  }

  lemma LeafSound(forest: seq<Tree>, v: Ari)
    requires AllWellFormed(forest)
    ensures AllWellFormed(forest + [Leaf(v)])
    ensures PostfixAll(forest + [Leaf(v)]) == PostfixAll(forest) + [Value(v)]
  {
    SingleForest(Leaf(v));
    WellFormedAppend(forest, [Leaf(v)]);
  }

  lemma NodeSound(forest: seq<Tree>, op: Oper, k: nat)
    requires AllWellFormed(forest) && k + Arity(op) == |forest|
    ensures AllWellFormed(forest[..k] + [Node(op, forest[k..])])
    ensures PostfixAll(forest[..k] + [Node(op, forest[k..])]) == PostfixAll(forest) + [Deref(op)]
  {
    var node := Node(op, forest[k..]);
    assert forest == forest[..k] + forest[k..];
    WellFormedAppend(forest[..k], forest[k..]);
    SingleForest(node);
    WellFormedAppend(forest[..k], [node]);
  }

  lemma {:induction false} ParseSound(items: seq<Item>, forest: seq<Tree>)
    requires AllWellFormed(forest)
    requires Parse(items, forest).Some?
    ensures AllWellFormed(Parse(items, forest).value)
    ensures PostfixAll(Parse(items, forest).value) == PostfixAll(forest) + items
  {
    if items == [] {
    } else {
      var next;
      match items[0] {
        case Value(v) =>
          LeafSound(forest, v);
          next := forest + [Leaf(v)];
        case Deref(op) =>
          var k := |forest| - Arity(op);
          NodeSound(forest, op, k);
          next := forest[..k] + [Node(op, forest[k..])];
      }
      hide WellFormed, AllWellFormed, Postfix, PostfixAll;
      ParseSound(items[1..], next);
      assert items == [items[0]] + items[1..];
    }
  }

  lemma {:induction false} ParseTree(t: Tree, rest: seq<Item>, forest: seq<Tree>)
    requires WellFormed(t)
    ensures Parse(Postfix(t) + rest, forest) == Parse(rest, forest + [t])
    decreases t, 1
  {
    match t
    case Leaf(v) =>
      assert (Postfix(t) + rest)[1..] == rest;
    case Node(op, args) =>
      var tail := [Deref(op)] + rest;
      assert Postfix(t) + rest == PostfixAll(args) + tail;
      ParseTrees(args, tail, forest);
      assert (forest + args)[|forest|..] == args && (forest + args)[..|forest|] == forest;
      assert tail[1..] == rest;
  }

  lemma {:induction false} ParseTrees(ts: seq<Tree>, rest: seq<Item>, forest: seq<Tree>)
    requires AllWellFormed(ts)
    ensures Parse(PostfixAll(ts) + rest, forest) == Parse(rest, forest + ts)
    decreases ts, 0
  {
    if ts == [] {
      assert PostfixAll(ts) + rest == rest && forest + ts == forest;
    } else {
      var tail := PostfixAll(ts[1..]) + rest;
      assert PostfixAll(ts) + rest == Postfix(ts[0]) + tail;
      ParseTree(ts[0], tail, forest);
      ParseTrees(ts[1..], rest, forest + [ts[0]]);
      assert forest + [ts[0]] + ts[1..] == forest + ts;
    }
  }

  /** No two trees share a postfix form. */
  lemma PostfixUnique(t: Tree, u: Tree)
    requires WellFormed(t) && WellFormed(u)
    requires Postfix(t) == Postfix(u)
    ensures t == u
  {
    ParseTree(t, [], []);
    ParseTree(u, [], []);
    assert Postfix(t) + [] == Postfix(t) && Postfix(u) + [] == Postfix(u);
    assert [] + [t] == [t] && [] + [u] == [u];
    assert [t][0] == [u][0];
  }

  /** The running sum of (1 - arity). */
  function Balance(items: seq<Item>): int {
    if items == [] then 0 else (if items[0].Value? then 1 else 1 - Arity(items[0].oper)) + Balance(items[1..])
  }

  /** No counted operator finds fewer values below it than it asks for, counting from
      `d` values on the stack. A typed operator that runs short ends the reduction. */
  predicate CountsFit(items: seq<Item>, d: nat) {
    if items == [] then true
    else
      match items[0]
      case Value(_) => CountsFit(items[1..], d + 1)
      case Deref(op) =>
        if d < Arity(op) then op.operands.Typed?
        else CountsFit(items[1..], d - Arity(op) + 1)
  }

  lemma {:induction false} RunParses(items: seq<Item>, stack: seq<Ari>, forest: seq<Tree>)
    requires |forest| == |stack|
    requires Run(items, stack).code == 0
    ensures CountsFit(items, |stack|) <==> Parse(items, forest).Some?
    ensures CountsFit(items, |stack|) ==>
              |Run(items, stack).stack| == |Parse(items, forest).value| == |stack| + Balance(items)
  {
    if items == [] {
    } else {
      var m := Step(items[0], stack);
      match items[0] {
        case Value(v) =>
          RunParses(items[1..], m.stack, forest + [Leaf(v)]);
        case Deref(op) =>
          if Arity(op) <= |stack| {
            var k := |forest| - Arity(op);
            RunParses(items[1..], m.stack, forest[..k] + [Node(op, forest[k..])]);
          }
      }
    }
  }

  lemma {:induction false} RunPrefix(items: seq<Item>, stack: seq<Ari>, k: nat)
    requires k <= |items|
    requires Run(items, stack).code == 0
    ensures Run(items[..k], stack).code == 0
    ensures CountsFit(items, |stack|) ==> CountsFit(items[..k], |stack|)
  {
    if k == 0 {
    } else {
      assert items[..k][1..] == items[1..][..k - 1];
      RunPrefix(items[1..], Step(items[0], stack).stack, k - 1);
    }
  }

  /** In a reduction that gets through, the stack depth after each item is the running
      sum of (1 - arity). */
  lemma StackDepth(items: seq<Item>, k: nat)
    requires k <= |items|
    requires Run(items, []).code == 0 && CountsFit(items, 0)
    ensures Run(items[..k], []).code == 0
    ensures |Run(items[..k], []).stack| == Balance(items[..k])
  {
    RunPrefix(items, [], k);
    RunParses(items[..k], [], []);
  }

  ghost predicate IsPostfixOf(items: seq<Item>, t: Tree) {
    WellFormed(t) && Postfix(t) == items
  }

  /** A list that reduces to a value is the postfix form of a tree exactly when no counted
      operator ran short; the tree is then the only one and has that value. */
  lemma ReducesIffPostfix(items: seq<Item>)
    requires Reduce(items).Ok?
    ensures CountsFit(items, 0) <==> exists t :: IsPostfixOf(items, t)
    ensures forall t, u | IsPostfixOf(items, t) && IsPostfixOf(items, u) :: t == u
    ensures forall t | IsPostfixOf(items, t) :: TreeValue(t) == Reduce(items)
  {
    RunParses(items, [], []);
    if CountsFit(items, 0) {
      ParseSound(items, []);
      var forest := Parse(items, []).value;
      assert forest == [forest[0]];
      SingleForest(forest[0]);
      assert IsPostfixOf(items, forest[0]);
    }
    forall t | IsPostfixOf(items, t)
      ensures Parse(items, []).Some? && TreeValue(t) == Reduce(items)
    {
      ParseTree(t, [], []);
      assert Postfix(t) + [] == items;
      ReducePostfix(t);
    }
    forall t, u | IsPostfixOf(items, t) && IsPostfixOf(items, u)
      ensures t == u
    {
      PostfixUnique(t, u);
    }
  }

  /** Without operands of bare sequence type, reduction accepts postfix forms only. */
  lemma {:induction false} TypedCountsFit(items: seq<Item>, d: nat)
    requires forall i | 0 <= i < |items| :: items[i].Deref? ==> items[i].oper.operands.Typed?
    ensures CountsFit(items, d)
  {
    if items != [] && (items[0].Value? || Arity(items[0].oper) <= d) {
      TypedCountsFit(items[1..], if items[0].Value? then d + 1 else d - Arity(items[0].oper) + 1);
    }
  }

  /** A counted operator that runs short still leaves one value behind, so this two-item
      list reduces although no tree has it as postfix form. */
  lemma ShortCountReduces(v: Ari)
    ensures var op := Oper(true, true, Counted(Some(2)), (args: seq<Ari>) => Null, (a: Ari) => Some(a));
            var items := [Value(v), Deref(op)];
            && Reduce(items) == Ok(Undefined)
            && !exists t :: IsPostfixOf(items, t)
  {
    var op := Oper(true, true, Counted(Some(2)), (args: seq<Ari>) => Null, (a: Ari) => Some(a));
    var items := [Value(v), Deref(op)];
    assert items[1..] == [Deref(op)] && items[1..][1..] == [];
    assert Run(items[1..], [v]) == Machine(0, [Undefined]);
    assert [] + [v] == [v];
    ReducesIffPostfix(items);
    assert !CountsFit(items[1..], 1);
  }
}
