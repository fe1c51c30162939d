/** What evaluation does, said of the items, the operators' own fields and the store alone. */
module EvalLaws {
  import opened Wrappers
  import opened Values
  import opened Eval
  import opened Trees

  // ----- expansion -----

  /** What one item expands to: a literal as it is, a CONST, VAR or EDD as the value it produces,
      an OPER as itself; anything else is an error of its own. */
  lemma ItemExpands(env: Env, a: Ari)
    ensures !a.Ref? ==> ExpandItem(env, a) == Ok(Value(a))
    ensures a.Ref? && env(a).Missing? ==> ExpandItem(env, a) == Err(4)
    ensures a.Ref? && env(a).Producer? && env(a).produced.None? ==> ExpandItem(env, a) == Err(5)
    ensures a.Ref? && env(a).Producer? && env(a).produced.Some? ==>
              ExpandItem(env, a) == Ok(Value(env(a).produced.value))
    ensures a.Ref? && env(a).Operator? ==> ExpandItem(env, a) == Ok(Deref(env(a).oper))
    ensures a.Ref? && env(a).OtherObject? ==> ExpandItem(env, a) == Err(3)
  {
  }

  /** A list expands item by item, and fails with the code of its first item that fails. */
  lemma {:induction false} ListExpands(env: Env, items: seq<Ari>)
    ensures ExpandAll(env, items).Ok? ==>
              && |ExpandAll(env, items).value| == |items|
              && forall i | 0 <= i < |items| :: ExpandItem(env, items[i]) == Ok(ExpandAll(env, items).value[i])
    ensures ExpandAll(env, items).Err? ==>
              exists j | 0 <= j < |items| ::
                && ExpandItem(env, items[j]) == Err(ExpandAll(env, items).code)
                && forall i | 0 <= i < j :: ExpandItem(env, items[i]).Ok?
  {
    if items != [] && ExpandItem(env, items[0]).Ok? {
      ListExpands(env, items[1..]);
      var rest := ExpandAll(env, items[1..]);
      hide ExpandItem;
      if rest.Err? {
        var j :| 0 <= j < |items[1..]| && ExpandItem(env, items[1..][j]) == Err(rest.code) &&
                 forall i | 0 <= i < j :: ExpandItem(env, items[1..][i]).Ok?;
        assert items[j + 1] == items[1..][j];
        assert forall i | 0 < i < j + 1 :: items[i] == items[1..][i - 1];
      } else {
        assert ExpandAll(env, items).value == [ExpandItem(env, items[0]).value] + rest.value;
        assert forall i | 0 < i < |items| :: items[i] == items[1..][i - 1];
      }
    }
  }

  /** What a target expands to. */
  lemma TargetExpands(env: Env, a: Ari)
    ensures a.Ac? ==> ExpandTarget(env, a) == ExpandAll(env, a.items)
    ensures !a.Ac? && !a.Ref? ==> ExpandTarget(env, a) == Err(3)
    ensures a.Ref? && env(a).Missing? ==> ExpandTarget(env, a) == Ok([])
    ensures a.Ref? && env(a).Producer? && env(a).produced.Some? ==>
              ExpandTarget(env, a) ==
              if env(a).produced.value.Ac? then ExpandAll(env, env(a).produced.value.items) else Err(3)
    ensures a.Ref? && !env(a).Missing? && !(env(a).Producer? && env(a).produced.Some?) ==> ExpandTarget(env, a) == Err(1)
  {
  }

  // ----- one operator -----

  /** Operand i of a typed operator is the converted i-th of the values it takes from the top of the
      stack, the deepest first; the converted result takes their place. */
  lemma TypedStep(op: Oper, stack: seq<Ari>, vals: seq<Ari>)
    requires op.hasEvaluate && op.resValid && op.operands.Typed?
    requires |vals| == |op.operands.types| <= |stack|
    requires forall i | 0 <= i < |vals| :: op.operands.types[i](stack[|stack| - |vals| + i]) == Some(vals[i])
    ensures OperStep(op, stack) ==
            match op.resConvert(op.evaluate(vals))
            case Some(w) => Machine(0, stack[..|stack| - |vals|] + [w])
            case None => Machine(4, stack[..|stack| - |vals|])
  {
    assert Converted(op.operands.types, stack[|stack| - |vals|..]) == vals;
  }

  /** A typed operator fails with code 2: on a short stack, which stays, and on an operand that
      does not convert, with all operands gone. */
  lemma TypedFails(op: Oper, stack: seq<Ari>)
    requires op.hasEvaluate && op.resValid && op.operands.Typed?
    ensures |stack| < |op.operands.types| ==> OperStep(op, stack) == Machine(2, stack)
    ensures forall i | 0 <= i < |op.operands.types| <= |stack| &&
                       op.operands.types[i](stack[|stack| - |op.operands.types| + i]).None? ::
              OperStep(op, stack) == Machine(2, stack[..|stack| - |op.operands.types|])
  {
    var k := |stack| - |op.operands.types|;
    if k >= 0 {
      assert forall i | 0 <= i < |op.operands.types| :: stack[k..][i] == stack[k + i];
    }
  }

  /** A counted operator takes its count from the top of the stack, the deepest first and without
      conversion; on a short stack it takes everything and has no result, and without a usable
      count it takes nothing. */
  lemma CountedStep(op: Oper, stack: seq<Ari>)
    requires op.hasEvaluate && op.resValid && op.operands.Counted?
    ensures var (raw, left) :=
              match op.operands.count
              case None => (Undefined, stack)
              case Some(n) =>
                if |stack| < n then (Undefined, [])
                else (op.evaluate(stack[|stack| - n..]), stack[..|stack| - n]);
            OperStep(op, stack) ==
            match op.resConvert(raw)
            case Some(w) => Machine(0, left + [w])
            case None => Machine(4, left)
  {
  }

  /** An operator without a callback or without a result type is refused before anything is popped. */
  lemma RefusedStep(op: Oper, stack: seq<Ari>)
    ensures !op.hasEvaluate ==> OperStep(op, stack) == Machine(2, stack)
    ensures op.hasEvaluate && !op.resValid ==> OperStep(op, stack) == Machine(3, stack)
  {
  }

  // ----- the value of a tree -----

  lemma {:induction false} ArgsValues(args: seq<Tree>, given: seq<Ari>)
    requires AllWellFormed(args) && |given| == |args|
    requires forall i | 0 <= i < |args| :: WellFormed(args[i]) && TreeValue(args[i]) == Ok(given[i])
    ensures TreeValues(args) == Ok(given)
  {
    if args != [] {
      assert forall i | 0 <= i < |args[1..]| :: args[1..][i] == args[i + 1];
      ArgsValues(args[1..], given[1..]);
      assert [given[0]] + given[1..] == given;
    }
  }

  /** The value of a node whose arguments have values, from the fields of its operator. */
  lemma NodeValue(op: Oper, args: seq<Tree>, given: seq<Ari>, vals: seq<Ari>)
    requires WellFormed(Node(op, args)) && |given| == |args| && op.hasEvaluate && op.resValid
    requires forall i | 0 <= i < |args| :: WellFormed(args[i]) && TreeValue(args[i]) == Ok(given[i])
    requires op.operands.Typed? ==>
               |vals| == |given| && forall i | 0 <= i < |given| :: op.operands.types[i](given[i]) == Some(vals[i])
    requires op.operands.Counted? ==> op.operands.count.Some? && vals == given
    ensures TreeValue(Node(op, args)) ==
            match op.resConvert(op.evaluate(vals))
            case Some(w) => Ok(w)
            case None => Err(4)
  {
    ArgsValues(args, given);
    hide TreeValues;
    assert op.operands.Typed? ==> Converted(op.operands.types, given) == vals;
  }

  /** A node whose operator is refused or has an operand that does not convert. */
  lemma NodeFails(op: Oper, args: seq<Tree>, given: seq<Ari>)
    requires WellFormed(Node(op, args)) && |given| == |args|
    requires forall i | 0 <= i < |args| :: WellFormed(args[i]) && TreeValue(args[i]) == Ok(given[i])
    ensures !op.hasEvaluate ==> TreeValue(Node(op, args)) == Err(2)
    ensures op.hasEvaluate && !op.resValid ==> TreeValue(Node(op, args)) == Err(3)
    ensures op.hasEvaluate && op.resValid && op.operands.Typed? ==>
              forall i | 0 <= i < |given| && op.operands.types[i](given[i]).None? :: TreeValue(Node(op, args)) == Err(2)
  {
    ArgsValues(args, given);
    hide TreeValues;
  }

  /** The leftmost argument without a value decides the error of a node. */
  lemma {:induction false} ArgsError(args: seq<Tree>, j: nat)
    requires AllWellFormed(args) && j < |args|
    requires forall i | 0 <= i < |args| :: WellFormed(args[i])
    requires TreeValue(args[j]).Err? && forall i | 0 <= i < j :: TreeValue(args[i]).Ok?
    ensures TreeValues(args) == Err(TreeValue(args[j]).code)
  {
    if j > 0 {
      assert forall i | 0 <= i < |args[1..]| :: args[1..][i] == args[i + 1];
      ArgsError(args[1..], j - 1);
    }
  }

  lemma NodeError(op: Oper, args: seq<Tree>, j: nat)
    requires WellFormed(Node(op, args)) && j < |args|
    requires forall i | 0 <= i < |args| :: WellFormed(args[i])
    requires TreeValue(args[j]).Err? && forall i | 0 <= i < j :: TreeValue(args[i]).Ok?
    ensures TreeValue(Node(op, args)) == Err(TreeValue(args[j]).code)
  {
    ArgsError(args, j);
    hide TreeValues;
  }

  // ----- reduction -----

  /** A list of values alone reduces to its only value, and to the non-single error otherwise. */
  lemma {:induction false} RunValues(vs: seq<Ari>, stack: seq<Ari>)
    ensures Run(seq(|vs|, i requires 0 <= i < |vs| => Value(vs[i])), stack) == Machine(0, stack + vs)
  {
    var items := seq(|vs|, i requires 0 <= i < |vs| => Value(vs[i]));
    if vs == [] {
      assert stack + vs == stack;
    } else {
      var rest := vs[1..];
      assert items[1..] == seq(|rest|, i requires 0 <= i < |rest| => Value(rest[i]));
      RunValues(rest, stack + [vs[0]]);
      assert stack + [vs[0]] + rest == stack + vs;
    }
  }

  lemma ReduceValues(vs: seq<Ari>)
    ensures Reduce(seq(|vs|, i requires 0 <= i < |vs| => Value(vs[i]))) == if |vs| == 1 then Ok(vs[0]) else Err(6)
  {
    RunValues(vs, []);
    assert [] + vs == vs;
  }

  /** The step that fails first decides the code, whatever follows. */
  lemma {:induction false} FirstFailure(items: seq<Item>, k: nat)
    requires k < |items| && Run(items[..k], []).code == 0
    requires Step(items[k], Run(items[..k], []).stack).code != 0
    ensures Reduce(items) == Err(Step(items[k], Run(items[..k], []).stack).code)
  {
    RunParts(items[..k], items[k..], []);
    assert items[..k] + items[k..] == items;
  }

  lemma {:induction false} RunParts(xs: seq<Item>, ys: seq<Item>, stack: seq<Ari>)
    requires Run(xs, stack).code == 0
    ensures Run(xs + ys, stack) == Run(ys, Run(xs, stack).stack)
  {
    if xs == [] {
      assert xs + ys == ys;
    } else {
      assert (xs + ys)[1..] == xs[1..] + ys;
      RunParts(xs[1..], ys, Step(xs[0], stack).stack);
    }
  }

  /** A filter whose labels cannot all be substituted has code 2; else its translation is evaluated. */
  lemma FilterOutcome(env: Env, filter: Ari, sub: Substitution)
    ensures EvalFilter(env, filter, sub) ==
            match Translate(filter, None, 0, sub)
            case None => Err(2)
            case Some(t) =>
              match ExpandTarget(env, t)
              case Err(c) => Err(c)
              case Ok(items) => Reduce(items)
  {
  }

  /** The values that are not truthy. */
  lemma FalsyValues(a: Ari)
    ensures !Truthy(a) <==>
            || a == Undefined || a == Null || a == Bool(false) || a == Int(0) || a == Real64(0.0)
            || a == Text("") || a == Time(0) || a == LabelLit(TextLabel("")) || a == LabelLit(IntLabel(0))
  {
  }
}
