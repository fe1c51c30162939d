/** The two-phase postfix evaluator: expansion of an expression's references,
    then reduction on a stack. */
module Eval {
  import opened Wrappers
  import opened Values

  const ERR_BAD_TYPE := 3
  const ERR_DEREF_FAILED := 4
  const ERR_PROD_FAILED := 5
  const ERR_NON_SINGLE := 6

  /** Conversion to an AMM type; None when the value does not convert. */
  type Conversion = Ari -> Option<Ari>

  /** The operands an OPER takes. With an operand of bare sequence type nothing is
      popped for the operator: its callback pops `count` values itself, `count` being
      an actual parameter (None when that parameter is unusable). */
  datatype Operands = Typed(types: seq<Conversion>) | Counted(count: Option<nat>)

  /** An OPER looked up with its actual parameters. */
  datatype Oper = Oper(
    hasEvaluate: bool,
    resValid: bool,
    operands: Operands,
    evaluate: seq<Ari> -> Ari,
    resConvert: Conversion)

  datatype Item = Value(v: Ari) | Deref(oper: Oper)

  /** The outcome of dereferencing: a CONST, VAR or EDD comes with the value it
      produces (None when production fails). */
  datatype Lookup = Missing | Producer(produced: Option<Ari>) | Operator(oper: Oper) | OtherObject

  /** The object store as one locked region sees it. */
  type Env = Ari -> Lookup

  // ----- what expansion computes -----

  function ExpandItem(env: Env, a: Ari): Result<Item> {
    if !a.Ref? then Ok(Value(a))
    else
      match env(a)
      case Missing => Err(ERR_DEREF_FAILED)
      case Producer(None) => Err(ERR_PROD_FAILED)
      case Producer(Some(v)) => Ok(Value(v))
      case Operator(oper) => Ok(Deref(oper))
      case OtherObject => Err(ERR_BAD_TYPE)
  }

  function ExpandAll(env: Env, items: seq<Ari>): Result<seq<Item>> {
    if items == [] then Ok([])
    else
      match ExpandItem(env, items[0])
      case Err(c) => Err(c)
      case Ok(x) => Prepended([x], ExpandAll(env, items[1..]))
  }

  function Prepended(xs: seq<Item>, r: Result<seq<Item>>): Result<seq<Item>> {
    match r
    case Err(c) => Err(c)
    case Ok(ys) => Ok(xs + ys)
  }

  lemma PrependedTwice(xs: seq<Item>, ys: seq<Item>, r: Result<seq<Item>>)
    ensures Prepended([], r) == r
    ensures Prepended(xs, Prepended(ys, r)) == Prepended(xs + ys, r)
  {
    if r.Ok? {
      assert [] + r.value == r.value;
      assert xs + (ys + r.value) == xs + ys + r.value;
    }
  }

  function ExpandExpr(env: Env, a: Ari): Result<seq<Item>> {
    if a.Ac? then ExpandAll(env, a.items) else Err(ERR_BAD_TYPE)
  }

  /** A reference whose lookup fails expands to nothing, without an error. */
  function ExpandTarget(env: Env, a: Ari): Result<seq<Item>> {
    if !a.Ref? then ExpandExpr(env, a)
    else
      match env(a)
      case Missing => Ok([])
      case Producer(Some(v)) => ExpandExpr(env, v)
      case _ => Err(1)
  }

  // ----- what reduction computes -----

  function Arity(op: Oper): nat {
    match op.operands
    case Typed(types) => |types|
    case Counted(Some(n)) => n
    case Counted(None) => 0
  }

  predicate AllConvert(types: seq<Conversion>, vals: seq<Ari>)
    requires |types| == |vals|
  {
    forall i | 0 <= i < |types| :: types[i](vals[i]).Some?
  }

  /** The operands after conversion, undefined where a conversion fails. */
  function Converted(types: seq<Conversion>, vals: seq<Ari>): (r: seq<Ari>)
    requires |types| == |vals|
    ensures |r| == |vals|
  {
    seq(|vals|, i requires 0 <= i < |vals| =>
      match types[i](vals[i]) case None => Undefined case Some(w) => w)
  }

  function Finish(op: Oper, raw: Ari): Result<Ari> {
    match op.resConvert(raw)
    case None => Err(4)
    case Some(w) => Ok(w)
  }

  /** One operator on the operand values it needs. */
  function Apply(op: Oper, args: seq<Ari>): (r: Result<Ari>)
    requires |args| == Arity(op)
    ensures r.Err? ==> r.code != 0
  {
    if !op.hasEvaluate then Err(2)
    else if !op.resValid then Err(3)
    else
      match op.operands
      case Typed(types) =>
        if AllConvert(types, args) then Finish(op, op.evaluate(Converted(types, args))) else Err(2)
      case Counted(Some(_)) => Finish(op, op.evaluate(args))
      case Counted(None) => Finish(op, Undefined)
  }

  /** A status code and the evaluation stack, its top at the back. */
  datatype Machine = Machine(code: int, stack: seq<Ari>)

  function Pushed(r: Result<Ari>, stack: seq<Ari>): Machine {
    match r
    case Ok(w) => Machine(0, stack + [w])
    case Err(c) => Machine(c, stack)
  }

  function OperStep(op: Oper, stack: seq<Ari>): Machine {
    if !op.hasEvaluate then Machine(2, stack)
    else if !op.resValid then Machine(3, stack)
    else if |stack| < Arity(op) then
      // a typed operator fails; a counted one discards the whole stack and has no result
      if op.operands.Typed? then Machine(2, stack) else Pushed(Finish(op, Undefined), [])
    else
      var k := |stack| - Arity(op);
      Pushed(Apply(op, stack[k..]), stack[..k])
  }

  function Step(item: Item, stack: seq<Ari>): Machine {
    match item
    case Value(v) => Machine(0, stack + [v])
    case Deref(op) => OperStep(op, stack)
  }

  function Run(items: seq<Item>, stack: seq<Ari>): Machine {
    if items == [] then Machine(0, stack)
    else
      var m := Step(items[0], stack);
      if m.code != 0 then m else Run(items[1..], m.stack)
  }

  function Outcome(m: Machine): Result<Ari> {
    if m.code != 0 then Err(m.code)
    else if |m.stack| == 1 then Ok(m.stack[0])
    else Err(ERR_NON_SINGLE)
  }

  function Reduce(items: seq<Item>): Result<Ari> {
    Outcome(Run(items, []))
  }

  function EvalTarget(env: Env, target: Ari): Result<Ari> {
    match ExpandTarget(env, target)
    case Err(c) => Err(c)
    case Ok(items) => Reduce(items)
  }

  /** Evaluation of a filter after substituting its labels. */
  function EvalFilter(env: Env, target: Ari, sub: Substitution): Result<Ari> {
    match Translate(target, None, 0, sub)
    case None => Err(2)
    case Some(t) => EvalTarget(env, t)
  }

  predicate Matches(env: Env, filter: Ari, sub: Substitution) {
    var r := EvalFilter(env, filter, sub);
    r.Ok? && Truthy(r.value)
  }

  // ----- the evaluator itself -----

  class EvalCtx {
    const env: Env
    var input: seq<Item>
    var stack: seq<Ari>

    constructor (env: Env)
      ensures this.env == env && input == [] && stack == []
    {
      this.env := env;
      input, stack := [], [];
    }

    /** Pop and convert the operands of a typed operator, last operand first. */
    method Populate(types: seq<Conversion>) returns (res: int, operands: seq<Ari>)
      modifies this`stack
      ensures |old(stack)| < |types| ==> res == 2 && stack == old(stack)
      ensures |types| <= |old(stack)| ==>
                var k := |old(stack)| - |types|;
                && stack == old(stack)[..k]
                && operands == Converted(types, old(stack)[k..])
                && res == (if AllConvert(types, old(stack)[k..]) then 0 else 3)
    {
      operands := [];
      if |stack| < |types| {
        return 2, operands;
      }
      ghost var k := |stack| - |types|;
      ghost var vals := stack[k..];
      var failcnt := 0;
      var i := |types|;
      while i > 0
        invariant 0 <= i <= |types|
        invariant stack == old(stack)[..k + i]
        invariant operands == Converted(types, vals)[i..]
        invariant failcnt >= 0
        invariant failcnt == 0 <==> forall j | i <= j < |types| :: types[j](vals[j]).Some?
      {
        i := i - 1;
        var orig := stack[|stack| - 1];
        assert orig == vals[i];
        stack := stack[..|stack| - 1];
        match types[i](orig) {
          case None =>
            operands := [Undefined] + operands;
            failcnt := failcnt + 1;
          case Some(w) =>
            operands := [w] + operands;
        }
      }
      res := if failcnt != 0 then 3 else 0;
    }

    /** The callback of a counted operator: it pops its own operands. */
    method RunCounted(op: Oper, count: Option<nat>) returns (raw: Ari)
      requires op.operands == Counted(count)
      modifies this`stack
      ensures count.None? ==> raw == Undefined && stack == old(stack)
      ensures count.Some? && |old(stack)| < count.value ==> raw == Undefined && stack == []
      ensures count.Some? && count.value <= |old(stack)| ==>
                var k := |old(stack)| - count.value;
                stack == old(stack)[..k] && raw == op.evaluate(old(stack)[k..])
    {
      match count {
        case None =>
          raw := Undefined;
        case Some(n) =>
          if |stack| < n {
            stack := [];
            return Undefined;
          }
          var operands := [];
          for ix := 0 to n
            invariant stack == old(stack)[..|old(stack)| - ix]
            invariant operands == old(stack)[|old(stack)| - ix..]
          {
            operands := [stack[|stack| - 1]] + operands;
            stack := stack[..|stack| - 1];
          }
          raw := op.evaluate(operands);
      }
    }

    method EvalOper(op: Oper) returns (code: int)
      modifies this`stack
      ensures Machine(code, stack) == OperStep(op, old(stack))
    {
      if !op.hasEvaluate {
        return 2;
      }
      if !op.resValid {
        return 3;
      }
      var raw;
      match op.operands {
        case Typed(types) =>
          var res, operands := Populate(types);
          if res != 0 {
            return 2;
          }
          raw := op.evaluate(operands);
        case Counted(count) =>
          raw := RunCounted(op, count);
      }
      match op.resConvert(raw) {
        case None =>
          code := 4;
        case Some(w) =>
          stack := stack + [w];
          code := 0;
      }
    }

    method Expand(expr: Ari) returns (code: int)
      modifies this`input
      ensures match ExpandExpr(env, expr)
              case Ok(items) => code == 0 && input == old(input) + items
              case Err(c) => code == c && code != 0
    {
      if !expr.Ac? {
        return ERR_BAD_TYPE;
      }
      code := 0;
      ghost var done: seq<Item> := [];
      assert expr.items[0..] == expr.items;
      PrependedTwice([], [], ExpandAll(env, expr.items));
      var i := 0;
      while i < |expr.items| && code == 0
        invariant 0 <= i <= |expr.items|
        invariant input == old(input) + done
        invariant code == 0 ==> ExpandAll(env, expr.items) == Prepended(done, ExpandAll(env, expr.items[i..]))
        invariant code != 0 ==> ExpandAll(env, expr.items) == Err(code)
        decreases |expr.items| - i, code == 0
      {
        match ExpandItem(env, expr.items[i]) {
          case Err(c) =>
            code := c;
          case Ok(x) =>
            PrependedTwice(done, [x], ExpandAll(env, expr.items[i + 1..]));
            assert expr.items[i..][1..] == expr.items[i + 1..];
            input := input + [x];
            done := done + [x];
            i := i + 1;
        }
      }
    }

    method ReduceInput() returns (code: int, result: Ari)
      modifies this`stack
      ensures Outcome(Run(input, old(stack))) == if code == 0 then Ok(result) else Err(code)
    {
      result := Undefined;
      code := 0;
      var i := 0;
      while i < |input| && code == 0
        invariant 0 <= i <= |input|
        invariant code == 0 ==> Run(input, old(stack)) == Run(input[i..], stack)
        invariant code != 0 ==> Run(input, old(stack)).code == code
      {
        match input[i] {
          case Value(v) =>
            stack := stack + [v];
          case Deref(op) =>
            code := EvalOper(op);
        }
        i := i + 1;
      }
      if code == 0 {
        if |stack| == 1 {
          result := stack[0];
        } else {
          code := ERR_NON_SINGLE;
        }
      }
    }

    method ExpandTo(target: Ari) returns (code: int)
      modifies this`input
      ensures match ExpandTarget(env, target)
              case Ok(items) => code == 0 && input == old(input) + items
              case Err(c) => code == c && code != 0
    {
      if !target.Ref? {
        code := Expand(target);
        return;
      }
      match env(target) {
        case Missing =>
          code := 0;
        case Producer(Some(v)) =>
          code := Expand(v);
        case _ =>
          code := 1;
      }
    }
  }

  method EvaluateTarget(env: Env, target: Ari) returns (r: Result<Ari>)
    ensures r == EvalTarget(env, target)
  {
    var ctx := new EvalCtx(env);
    var code := ctx.ExpandTo(target);
    if code != 0 {
      return Err(code);
    }
    assert ctx.input == ExpandTarget(env, target).value;
    var res, value := ctx.ReduceInput();
    r := if res == 0 then Ok(value) else Err(res);
  }

  method EvaluateFilter(env: Env, target: Ari, sub: Substitution) returns (r: Result<Ari>)
    ensures r == EvalFilter(env, target, sub)
  {
    match Translate(target, None, 0, sub) {
      case None =>
        r := Err(2);
      case Some(t) =>
        r := EvaluateTarget(env, t);
    }
  }
}
