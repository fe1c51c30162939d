/** Expressions over references: the meaning of a whole AC expression, and the
    hygiene of label substitution in filters. */
module Expressions {
  import opened Wrappers
  import opened Values
  import opened Eval
  import opened Trees

  // ----- expression trees over references -----

  datatype Expr = Operand(a: Ari) | Application(oper: Ari, args: seq<Expr>)

  ghost predicate IsOper(env: Env, a: Ari) {
    a.Ref? && env(a).Operator?
  }

  /** Every application names an OPER that takes as many operands as it is given, and
      no operand names an OPER. */
  ghost predicate Fits(env: Env, e: Expr) {
    match e
    case Operand(a) => !IsOper(env, a)
    case Application(oper, args) =>
      IsOper(env, oper) && |args| == Arity(env(oper).oper) && AllFit(env, args)
  }

  ghost predicate AllFit(env: Env, es: seq<Expr>) {
    es == [] || (Fits(env, es[0]) && AllFit(env, es[1..]))
  }

  function Flatten(e: Expr): seq<Ari> {
    match e
    case Operand(a) => [a]
    case Application(oper, args) => FlattenAll(args) + [oper]
  }

  function FlattenAll(es: seq<Expr>): seq<Ari> {
    if es == [] then [] else Flatten(es[0]) + FlattenAll(es[1..])
  }

  /** The tree with every operand produced; the leftmost operand that cannot be
      produced decides the error. */
  ghost function Produced(env: Env, e: Expr): (r: Result<Tree>)
    requires Fits(env, e)
    ensures r.Ok? ==> WellFormed(r.value)
  {
    match e
    case Operand(a) =>
      (match ExpandItem(env, a)
       case Err(c) => Err(c)
       case Ok(x) => Ok(Leaf(x.v)))
    case Application(oper, args) =>
      match ProducedAll(env, args)
      case Err(c) => Err(c)
      case Ok(ts) => Ok(Node(env(oper).oper, ts))
  }

  ghost function ProducedAll(env: Env, es: seq<Expr>): (r: Result<seq<Tree>>)
    requires AllFit(env, es)
    ensures r.Ok? ==> AllWellFormed(r.value) && |r.value| == |es|
  {
    if es == [] then Ok([])
    else
      match Produced(env, es[0])
      case Err(c) => Err(c)
      case Ok(t) =>
        match ProducedAll(env, es[1..])
        case Err(c) => Err(c)
        case Ok(ts) => Ok([t] + ts)
  }

  ghost function ExprValue(env: Env, e: Expr): Result<Ari>
    requires Fits(env, e)
  {
    match Produced(env, e)
    case Err(c) => Err(c)
    case Ok(t) => TreeValue(t)
  }

  lemma {:induction false} ExpandFlat(env: Env, e: Expr, rest: seq<Ari>)
    requires Fits(env, e)
    ensures ExpandAll(env, Flatten(e) + rest) ==
            match Produced(env, e)
            case Err(c) => Err(c)
            case Ok(t) => Prepended(Postfix(t), ExpandAll(env, rest))
    decreases e, 1
  {
    match e
    case Operand(a) =>
      assert (Flatten(e) + rest)[1..] == rest;
    case Application(oper, args) =>
      var tail := [oper] + rest;
      assert Flatten(e) + rest == FlattenAll(args) + tail;
      ExpandFlatAll(env, args, tail);
      assert tail[1..] == rest;
      if ProducedAll(env, args).Ok? {
        PrependedTwice(PostfixAll(ProducedAll(env, args).value), [Deref(env(oper).oper)], ExpandAll(env, rest));
      }
  }

  lemma {:induction false} ExpandFlatAll(env: Env, es: seq<Expr>, rest: seq<Ari>)
    requires AllFit(env, es)
    ensures ExpandAll(env, FlattenAll(es) + rest) ==
            match ProducedAll(env, es)
            case Err(c) => Err(c)
            case Ok(ts) => Prepended(PostfixAll(ts), ExpandAll(env, rest))
    decreases es, 0
  {
    if es == [] {
      assert FlattenAll(es) + rest == rest;
      PrependedTwice([], [], ExpandAll(env, rest));
    } else {
      var tail := FlattenAll(es[1..]) + rest;
      assert FlattenAll(es) + rest == Flatten(es[0]) + tail;
      ExpandFlat(env, es[0], tail);
      ExpandFlatAll(env, es[1..], rest);
      if Produced(env, es[0]).Ok? && ProducedAll(env, es[1..]).Ok? {
        var t, ts := Produced(env, es[0]).value, ProducedAll(env, es[1..]).value;
        assert ([t] + ts)[1..] == ts;
        PrependedTwice(Postfix(t), PostfixAll(ts), ExpandAll(env, rest));
      }
    }
  }

  /** Expanding and reducing the postfix list of an expression returns its value. */
  lemma EvaluatesToValue(env: Env, e: Expr)
    requires Fits(env, e)
    ensures EvalTarget(env, Ac(Flatten(e))) == ExprValue(env, e)
  {
    ExpandFlat(env, e, []);
    assert Flatten(e) + [] == Flatten(e);
    if Produced(env, e).Ok? {
      var t := Produced(env, e).value;
      assert Postfix(t) + [] == Postfix(t);
      ReducePostfix(t);
    }
  }

  /** A reference target that cannot be found is only noticed by reduction. */
  lemma DanglingTarget(env: Env, target: Ari)
    requires target.Ref? && env(target).Missing?
    ensures ExpandTarget(env, target).Ok?
    ensures EvalTarget(env, target) == Err(ERR_NON_SINGLE)
  {
  }

  // ----- substituted labels -----

  /** The store holds OPER `ref` and it returns `v` for the parameter `v`. */
  ghost predicate RefOperYields(env: Env, v: Ari) {
    var found := env(RefOper(v));
    && found.Operator?
    && found.oper.hasEvaluate && found.oper.resValid
    && found.oper.operands == Typed([])
    && found.oper.evaluate([]) == v
    && found.oper.resConvert(v) == Some(v)
  }

  ghost predicate RefsYield(env: Env, sub: Substitution) {
    forall l | sub(l).Some? && sub(l).value.Ref? :: RefOperYields(env, sub(l).value)
  }

  /** OPER `ref` as the agent registers it: no operands, its parameter as the result, and a
      result type that takes any reference as it is. */
  function ReferenceOper(v: Ari): Oper {
    Oper(true, true, Typed([]), (args: seq<Ari>) => v, (a: Ari) => if a.Ref? then Some(a) else None)
  }

  ghost predicate HoldsRefOper(env: Env) {
    forall v: Ari | v.Ref? :: env(RefOper(v)) == Operator(ReferenceOper(v))
  }

  /** With `ref` registered, every substitution can be evaluated. */
  lemma RefOperSuffices(env: Env, sub: Substitution)
    requires HoldsRefOper(env)
    ensures RefsYield(env, sub)
  {
    forall l | sub(l).Some? && sub(l).value.Ref?
      ensures RefOperYields(env, sub(l).value)
    {
      assert env(RefOper(sub(l).value)) == Operator(ReferenceOper(sub(l).value));
    }
  }

  /** The input list in which the value of each label is put on the stack directly. */
  ghost function DirectItems(env: Env, items: seq<Ari>, whole: Ari, sub: Substitution): Result<seq<Item>>
    requires TranslateAll(items, Some(whole), 1, sub).Some?
  {
    if items == [] then Ok([])
    else
      var first :=
        if items[0].LabelLit? then
          assert Translate(items[0], Some(whole), 1, sub).Some?;
          Ok(Value(sub(items[0].lab).value))
        else ExpandItem(env, Translate(items[0], Some(whole), 1, sub).value);
      match first
      case Err(c) => Err(c)
      case Ok(x) => Prepended([x], DirectItems(env, items[1..], whole, sub))
  }

  ghost function DirectFilter(env: Env, items: seq<Ari>, sub: Substitution): Result<Ari> {
    if TranslateAll(items, Some(Ac(items)), 1, sub).None? then Err(2)
    else
      match DirectItems(env, items, Ac(items), sub)
      case Err(c) => Err(c)
      case Ok(xs) => Reduce(xs)
  }

  /** `x` stands for the value that `y` pushes. */
  ghost predicate Stands(env: Env, x: Item, y: Item) {
    x == y || (x.Value? && RefOperYields(env, x.v) && y == Deref(env(RefOper(x.v)).oper))
  }

  ghost predicate AllStand(env: Env, xs: seq<Item>, ys: seq<Item>) {
    |xs| == |ys| && forall i | 0 <= i < |xs| :: Stands(env, xs[i], ys[i])
  }

  lemma StandsStep(env: Env, x: Item, y: Item, stack: seq<Ari>)
    requires Stands(env, x, y)
    ensures Step(x, stack) == Step(y, stack)
  {
    if x != y {
      assert stack[|stack|..] == [] && stack[..|stack|] == stack;
      assert Converted([], []) == [];
    }
  }

  lemma {:induction false} StandsRun(env: Env, xs: seq<Item>, ys: seq<Item>, stack: seq<Ari>)
    requires AllStand(env, xs, ys)
    ensures Run(xs, stack) == Run(ys, stack)
  {
    if xs != [] {
      StandsStep(env, xs[0], ys[0], stack);
      StandsRun(env, xs[1..], ys[1..], Step(xs[0], stack).stack);
    }
  }

  lemma {:induction false} DirectStands(env: Env, items: seq<Ari>, whole: Ari, sub: Substitution)
    requires whole.Ac? && RefsYield(env, sub)
    requires TranslateAll(items, Some(whole), 1, sub).Some?
    ensures match (DirectItems(env, items, whole, sub), ExpandAll(env, TranslateAll(items, Some(whole), 1, sub).value))
            case (Ok(xs), Ok(ys)) => AllStand(env, xs, ys)
            case (Err(c), Err(d)) => c == d
            case _ => false
  {
    if items != [] {
      DirectStands(env, items[1..], whole, sub);
      var out := TranslateAll(items, Some(whole), 1, sub).value;
      assert out[1..] == TranslateAll(items[1..], Some(whole), 1, sub).value;
    }
  }

  /** Substitution is hygienic: evaluating a literal AC filter after substituting its labels
      is evaluating it with the label values pushed directly, whether they are literals or
      references; a substituted reference is not followed and what is inside a substituted
      value is not translated again. */
  lemma HygienicFilter(env: Env, items: seq<Ari>, sub: Substitution)
    requires RefsYield(env, sub)
    ensures EvalFilter(env, Ac(items), sub) == DirectFilter(env, items, sub)
  {
    if TranslateAll(items, Some(Ac(items)), 1, sub).Some? {
      DirectStands(env, items, Ac(items), sub);
      var ys := ExpandAll(env, TranslateAll(items, Some(Ac(items)), 1, sub).value);
      if ys.Ok? {
        StandsRun(env, DirectItems(env, items, Ac(items), sub).value, ys.value, []);
      }
    }
  }

  /** The stores agree on every reference that the filter itself holds. */
  ghost predicate AgreeOnOwnItems(env: Env, env': Env, items: seq<Ari>, whole: Ari, sub: Substitution) {
    forall i | 0 <= i < |items| && !items[i].LabelLit? ::
      var t := Translate(items[i], Some(whole), 1, sub);
      t.Some? && t.value.Ref? ==> env(t.value) == env'(t.value)
  }

  lemma {:induction false} DirectItemsAgree(env: Env, env': Env, items: seq<Ari>, whole: Ari, sub: Substitution)
    requires AgreeOnOwnItems(env, env', items, whole, sub)
    requires TranslateAll(items, Some(whole), 1, sub).Some?
    ensures DirectItems(env, items, whole, sub) == DirectItems(env', items, whole, sub)
  {
    if items != [] {
      assert forall i | 0 <= i < |items[1..]| :: items[1..][i] == items[i + 1];
      DirectItemsAgree(env, env', items[1..], whole, sub);
    }
  }

  /** A substituted reference is never looked up: the outcome does not depend on what the
      store holds for it. */
  lemma NeverDereferenced(env: Env, env': Env, items: seq<Ari>, sub: Substitution)
    requires RefsYield(env, sub) && RefsYield(env', sub)
    requires AgreeOnOwnItems(env, env', items, Ac(items), sub)
    ensures EvalFilter(env, Ac(items), sub) == EvalFilter(env', Ac(items), sub)
  {
    HygienicFilter(env, items, sub);
    HygienicFilter(env', items, sub);
    if TranslateAll(items, Some(Ac(items)), 1, sub).Some? {
      DirectItemsAgree(env, env', items, Ac(items), sub);
    }
  }

  ghost predicate AgreeOff(env: Env, env': Env, v: Ari) {
    forall a | a != v :: env(a) == env'(a)
  }

  lemma {:induction false} ExpandAgree(env: Env, env': Env, items: seq<Ari>)
    requires forall i | 0 <= i < |items| && items[i].Ref? :: env(items[i]) == env'(items[i])
    ensures ExpandAll(env, items) == ExpandAll(env', items)
  {
    if items != [] {
      assert forall i | 0 <= i < |items[1..]| :: items[1..][i] == items[i + 1];
      ExpandAgree(env, env', items[1..]);
    }
  }

  /** Two stores that differ in what they hold for `v` alone: nothing, or an expression. */
  lemma FollowedRef(v: Ari) returns (env: Env, env': Env)
    requires v.Ref?
    ensures AgreeOff(env, env', v)
    ensures EvalTarget(env, v) == Err(ERR_NON_SINGLE) && EvalTarget(env', v) == Ok(Int(1))
  {
    env := (a: Ari) => Lookup.Missing;
    env' := (a: Ari) => if a == v then Producer(Some(Ac([Int(1)]))) else Lookup.Missing;
    DanglingTarget(env, v);
    var items := [Value(Int(1))];
    assert [Int(1)][1..] == [] && items + [] == items;
    assert ExpandAll(env', []) == Ok([]) && ExpandItem(env', Int(1)) == Ok(items[0]);
    assert ExpandAll(env', [Int(1)]) == Prepended(items, Ok([])) == Ok(items);
    assert ExpandTarget(env', v) == Ok(items);
    assert items[1..] == [];
    assert Run(items, []) == Run([], [Int(1)]);
  }

  /** A filter that is itself a label is the exception: its value becomes the target and is
      evaluated. The outcome is independent of what the store holds for that value exactly
      when it is not a reference. */
  lemma BareLabelFilter(l: Label, v: Ari, sub: Substitution)
    requires sub(l) == Some(v)
    ensures (forall env: Env, env': Env | AgreeOff(env, env', v) ::
               EvalFilter(env, LabelLit(l), sub) == EvalFilter(env', LabelLit(l), sub)) <==> !v.Ref?
  {
    assert forall env: Env :: EvalFilter(env, LabelLit(l), sub) == EvalTarget(env, v);
    if v.Ref? {
      var env, env' := FollowedRef(v);
      assert EvalFilter(env, LabelLit(l), sub) != EvalFilter(env', LabelLit(l), sub);
    } else {
      forall env: Env, env': Env | AgreeOff(env, env', v)
        ensures EvalTarget(env, v) == EvalTarget(env', v)
      {
        if v.Ac? {
          forall i | 0 <= i < |v.items|
            ensures env(v.items[i]) == env'(v.items[i])
          {
            assert v.items[i] < v;
          }
          ExpandAgree(env, env', v.items);
        }
      }
    }
  }

  /** The substitution of the access control filters: label 0 is the endpoint or target. */
  function SubZero(v: Ari): Substitution {
    (l: Label) => if l == IntLabel(0) then Some(v) else None
  }

  lemma ZeroLabelOnly(v: Ari)
    ensures SubZero(v)(IntLabel(0)) == Some(v) && forall l | l != IntLabel(0) :: SubZero(v)(l) == None
  {
  }
}
