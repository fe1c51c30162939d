/** Collection of report values from templates that may contain templates, also cyclically. */
module Collect {
  import opened Wrappers
  import opened Arithmetic

  const LDC_MAX_NESTING := 5

  /** The number of template levels that are filled. */
  const LEVELS := LDC_MAX_NESTING + 1

  type Parms = seq<int>

  datatype ItemId =
    | Lit(v: int)
    | Cnst(id: nat, parms: Parms)
    | Edd(id: nat, parms: Parms)
    | Var(id: nat, parms: Parms)
    | RptTpl(id: nat, parms: Parms)
    | OtherType(parms: Parms)

  datatype Val = Plain(v: int) | Report(tpl: nat, parms: Parms, entries: seq<Val>)

  /** The definitions of the agent. `resolve` substitutes the parameters of a report into those
      of a template item, or yields None. */
  datatype Env = Env(
    templates: map<nat, seq<ItemId>>,
    cnst: (nat, Parms) -> Option<int>,
    edd: (nat, Parms) -> Option<int>,
    vars: nat -> Option<int>,
    resolve: (Parms, Parms) -> Option<Parms>)

  function AsVal(v: Option<int>): Option<Val> {
    if v.None? then None else Some(Plain(v.value))
  }

  /** The parameters an item is collected with, inside a report with parameters `outer`. */
  function ItemParms(env: Env, item: ItemId, outer: Parms): Parms {
    if item.Lit? then []
    else
      match env.resolve(item.parms, outer)
      case None => item.parms
      case Some(p) => p
  }

  // ----- unfolding with `left` levels to go -----

  function Unfold(env: Env, item: ItemId, parms: Parms, left: nat): Option<Val>
    decreases left, 1, 0
  {
    match item
    case Lit(v) => Some(Plain(v))
    case Cnst(id, _) => AsVal(env.cnst(id, parms))
    case Edd(id, _) => AsVal(env.edd(id, parms))
    case Var(id, _) => AsVal(env.vars(id))
    case RptTpl(id, _) =>
      if id !in env.templates then None
      else Some(Report(id, parms, Filled(env, env.templates[id], parms, left)))
    case OtherType(_) => None
  }

  /** The entries of a report: none past the limit, and none when any item fails. */
  function Filled(env: Env, contents: seq<ItemId>, parms: Parms, left: nat): seq<Val>
    decreases left, 0, 0
  {
    if left == 0 then []
    else
      match Entries(env, contents, parms, left - 1)
      case None => []
      case Some(vals) => vals
  }

  function Entries(env: Env, contents: seq<ItemId>, parms: Parms, left: nat): (r: Option<seq<Val>>)
    ensures r.Some? ==> |r.value| == |contents|
    decreases left, 2, |contents|
  {
    if contents == [] then Some([])
    else
      match Unfold(env, contents[0], ItemParms(env, contents[0], parms), left)
      case None => None
      case Some(v) =>
        match Entries(env, contents[1..], parms, left)
        case None => None
        case Some(vs) => Some([v] + vs)
  }

  // ----- what each item gives -----

  function PlainIf(v: Option<int>): Option<Val> {
    match v
    case None => None
    case Some(n) => Some(Plain(n))
  }

  /** A literal gives its value, a constant, EDD or variable what its own definition yields with the
      parameters, and anything but a report template nothing else. */
  lemma ItemGives(env: Env, item: ItemId, parms: Parms, left: nat)
    ensures item.Lit? ==> Unfold(env, item, parms, left) == Some(Plain(item.v))
    ensures forall v: int | item.Cnst? && env.cnst(item.id, parms) == Some(v) :: Unfold(env, item, parms, left) == Some(Plain(v))
    ensures item.Cnst? && env.cnst(item.id, parms) == None ==> Unfold(env, item, parms, left) == None
    ensures forall v: int | item.Edd? && env.edd(item.id, parms) == Some(v) :: Unfold(env, item, parms, left) == Some(Plain(v))
    ensures item.Edd? && env.edd(item.id, parms) == None ==> Unfold(env, item, parms, left) == None
    ensures forall v: int | item.Var? && env.vars(item.id) == Some(v) :: Unfold(env, item, parms, left) == Some(Plain(v))
    ensures item.Var? && env.vars(item.id) == None ==> Unfold(env, item, parms, left) == None
    ensures item.OtherType? ==> Unfold(env, item, parms, left) == None
    ensures item.RptTpl? && item.id !in env.templates ==> Unfold(env, item, parms, left) == None
  {
  }

  lemma {:induction false} EntriesAt(env: Env, contents: seq<ItemId>, parms: Parms, left: nat)
    ensures Entries(env, contents, parms, left).Some? <==>
            forall i | 0 <= i < |contents| :: Unfold(env, contents[i], ItemParms(env, contents[i], parms), left).Some?
    ensures forall i | Entries(env, contents, parms, left).Some? && 0 <= i < |contents| ::
              Unfold(env, contents[i], ItemParms(env, contents[i], parms), left) ==
              Some(Entries(env, contents, parms, left).value[i])
    decreases |contents|
  {
    hide Unfold, ItemParms;
    if contents != [] {
      EntriesAt(env, contents[1..], parms, left);
      assert forall i | 0 < i < |contents| :: contents[i] == contents[1..][i - 1];
      assert contents[0] == contents[0..][0];
    }
  }

  /** The parameters of an item in a report: its own with those of the report put in, or its own
      when that cannot be done. */
  lemma ItemParameters(env: Env, item: ItemId, outer: Parms)
    ensures item.Lit? ==> ItemParms(env, item, outer) == []
    ensures forall p | !item.Lit? && env.resolve(item.parms, outer) == Some(p) :: ItemParms(env, item, outer) == p
    ensures !item.Lit? && env.resolve(item.parms, outer) == None ==> ItemParms(env, item, outer) == item.parms
  {
  }

  /** A report carries its own id and parameters. Entry i is what item i of the template gives one
      level down; the report is empty exactly when it is past the limit, an item gives nothing, or
      its template is empty. */
  lemma ReportGives(env: Env, item: ItemId, parms: Parms, left: nat)
    requires item.RptTpl? && item.id in env.templates
    ensures var contents, r := env.templates[item.id], Unfold(env, item, parms, left);
            && r.Some? && r.value.Report? && r.value.tpl == item.id && r.value.parms == parms
            && (r.value.entries == [] <==>
                || left == 0 || contents == []
                || exists i | 0 <= i < |contents| ::
                     Unfold(env, contents[i], ItemParms(env, contents[i], parms), left - 1) == None)
            && (r.value.entries != [] ==>
                  && |r.value.entries| == |contents|
                  && forall i | 0 <= i < |contents| ::
                       Unfold(env, contents[i], ItemParms(env, contents[i], parms), left - 1) == Some(r.value.entries[i]))
  {
    if left > 0 {
      EntriesAt(env, env.templates[item.id], parms, left - 1);
      hide Entries, ItemParms;
    }
  }

  // ----- the collector -----

  class Collector {
    const env: Env
    var nesting: int

    constructor (env: Env)
      ensures Valid() && this.env == env && nesting == 0
    {
      this.env := env;
      nesting := 0;
    }

    ghost predicate Valid()
      reads this
    {
      0 <= nesting <= LEVELS
    }

    method Collect(item: ItemId, parms: Parms) returns (r: Option<Val>)
      requires Valid()
      modifies this
      ensures nesting == old(nesting)
      ensures r == Unfold(env, item, parms, LEVELS - nesting)
      ensures item.Lit? ==> r == Some(Plain(item.v))
      ensures item.Cnst? ==> r == PlainIf(env.cnst(item.id, parms))
      ensures item.Edd? ==> r == PlainIf(env.edd(item.id, parms))
      ensures item.Var? ==> r == PlainIf(env.vars(item.id))
      ensures item.OtherType? ==> r == None
      ensures item.RptTpl? ==>
                if item.id in env.templates then r.Some? && r.value.Report? && r.value.tpl == item.id && r.value.parms == parms
                else r == None
      decreases LEVELS - nesting, 2
    {
      match item {
        case Lit(v) =>
          r := Some(Plain(v));
        case Cnst(id, _) =>
          r := AsVal(env.cnst(id, parms));
        case Edd(id, _) =>
          r := AsVal(env.edd(id, parms));
        case Var(id, _) =>
          r := AsVal(env.vars(id));
        case RptTpl(id, _) =>
          r := CollectReport(id, parms);
        case OtherType(_) =>
          r := None;
      }
    }

    method CollectReport(id: nat, parms: Parms) returns (r: Option<Val>)
      requires Valid()
      modifies this
      ensures nesting == old(nesting)
      ensures r == Unfold(env, RptTpl(id, parms), parms, LEVELS - nesting)
      decreases LEVELS - nesting, 1
    {
      if id !in env.templates {
        return None;
      }
      // a failure to fill the report leaves it empty and is not reported further
      var ok, entries := FillReport(env.templates[id], parms);
      r := Some(Report(id, parms, entries));
    }

    method FillReport(contents: seq<ItemId>, parms: Parms) returns (ok: bool, entries: seq<Val>)
      requires Valid()
      modifies this
      ensures nesting == old(nesting)
      ensures entries == Filled(env, contents, parms, LEVELS - nesting)
      ensures ok <==> nesting <= LDC_MAX_NESTING && Entries(env, contents, parms, LEVELS - nesting - 1).Some?
      decreases LEVELS - nesting, 0
    {
      entries := [];
      if nesting > LDC_MAX_NESTING {
        return false, entries;
      }
      nesting := nesting + 1;
      ok := true;
      ghost var left := LEVELS - nesting;
      ghost var rest := contents;
      JoinedTwice([], [], Entries(env, rest, parms, left));
      var i := 0;
      while i < |contents| && ok
        invariant 0 <= i <= |contents| && rest == contents[i..]
        invariant nesting == old(nesting) + 1
        invariant ok ==> Entries(env, contents, parms, left) == Joined(entries, Entries(env, rest, parms, left))
        invariant !ok ==> Entries(env, contents, parms, left).None?
        decreases |contents| - i, ok
      {
        var value := Collect(contents[i], ItemParms(env, contents[i], parms));
        if value.None? {
          ok := false;
        } else {
          JoinedTwice(entries, [value.value], Entries(env, contents[i + 1..], parms, left));
          assert rest[1..] == contents[i + 1..];
          entries := entries + [value.value];
          i := i + 1;
          rest := contents[i..];
        }
      }
      if !ok {
        entries := [];
      }
      nesting := nesting - 1;
    }
  }

  function Joined(xs: seq<Val>, r: Option<seq<Val>>): Option<seq<Val>> {
    if r.None? then None else Some(xs + r.value)
  }

  lemma JoinedTwice(xs: seq<Val>, ys: seq<Val>, r: Option<seq<Val>>)
    ensures Joined([], r) == r
    ensures Joined(xs, Joined(ys, r)) == Joined(xs + ys, r)
  {
    if r.Some? {
      assert [] + r.value == r.value;
      assert xs + (ys + r.value) == xs + ys + r.value;
    }
  }

  // ----- how large a report can get -----

  /** All entries of a value, nested ones included. */
  function Size(v: Val): nat {
    if v.Plain? then 0 else |v.entries| + SizeAll(v.entries)
  }

  function SizeAll(vs: seq<Val>): nat {
    if vs == [] then 0 else Size(vs[0]) + SizeAll(vs[1..])
  }

  function Power(w: nat, k: nat): nat {
    if k == 0 then 1 else w * Power(w, k - 1)
  }

  /** w + w^2 + ... + w^n */
  function PowerSum(w: nat, n: nat): nat {
    if n == 0 then 0 else PowerSum(w, n - 1) + Power(w, n)
  }

  lemma {:induction false} PowerSumStep(w: nat, n: nat)
    ensures PowerSum(w, n + 1) == w * (1 + PowerSum(w, n))
  {
    if n > 0 {
      PowerSumStep(w, n - 1);
      calc {
        PowerSum(w, n + 1);
        w * (1 + PowerSum(w, n - 1)) + w * Power(w, n);
        w * (1 + PowerSum(w, n - 1) + Power(w, n));
      }
    } else {
      assert Power(w, 1) == w * Power(w, 0);
    }
  }

  ghost predicate WidthAtMost(env: Env, w: nat) {
    forall id | id in env.templates :: |env.templates[id]| <= w
  }

  lemma {:induction false} UnfoldSize(env: Env, item: ItemId, parms: Parms, left: nat, w: nat)
    requires WidthAtMost(env, w)
    ensures Unfold(env, item, parms, left).Some? ==> Size(Unfold(env, item, parms, left).value) <= PowerSum(w, left)
    decreases left, 1, 0
  {
    if item.RptTpl? && item.id in env.templates && left > 0 {
      var contents := env.templates[item.id];
      EntriesSize(env, contents, parms, left - 1, w);
      PowerSumStep(w, left - 1);
      var each := 1 + PowerSum(w, left - 1);
      assert |contents| * each <= w * each by {
        MulMonotone(|contents|, w, each);
      }
    }
  }

  lemma {:induction false} EntriesSize(env: Env, contents: seq<ItemId>, parms: Parms, left: nat, w: nat)
    requires WidthAtMost(env, w)
    ensures var r := Entries(env, contents, parms, left);
            r.Some? ==> |r.value| + SizeAll(r.value) <= |contents| * (1 + PowerSum(w, left))
    decreases left, 2, |contents|
  {
    var r := Entries(env, contents, parms, left);
    if contents != [] && r.Some? {
      UnfoldSize(env, contents[0], ItemParms(env, contents[0], parms), left, w);
      EntriesSize(env, contents[1..], parms, left, w);
      assert r.value[1..] == Entries(env, contents[1..], parms, left).value;
      MulStep(|contents|, 1 + PowerSum(w, left));
    }
  }

  /** Whatever the templates, one collection from the top yields at most w + w^2 + ... + w^6
      entries when no template has more than w items. */
  lemma ReportSizeBound(env: Env, item: ItemId, parms: Parms, w: nat)
    requires WidthAtMost(env, w)
    ensures Unfold(env, item, parms, LEVELS).Some? ==>
              Size(Unfold(env, item, parms, LEVELS).value) <=
              Power(w, 1) + Power(w, 2) + Power(w, 3) + Power(w, 4) + Power(w, 5) + Power(w, 6)
  {
    UnfoldSize(env, item, parms, LEVELS, w);
    hide Power, Unfold, Size;
    assert PowerSum(w, 1) == Power(w, 1);
    assert PowerSum(w, 2) == PowerSum(w, 1) + Power(w, 2);
    assert PowerSum(w, 4) == PowerSum(w, 2) + Power(w, 3) + Power(w, 4);
    assert PowerSum(w, 6) == PowerSum(w, 4) + Power(w, 5) + Power(w, 6);
  }

  /** A template with w copies of itself reaches the bound, so it cannot be lowered. */
  function SelfEnv(w: nat): Env {
    Env(map[0 := seq(w, _ => RptTpl(0, []))], (id: nat, p: Parms) => None, (id: nat, p: Parms) => None,
        (id: nat) => None, (p: Parms, q: Parms) => None)
  }

  lemma {:induction false} SelfSize(w: nat, left: nat)
    ensures Unfold(SelfEnv(w), RptTpl(0, []), [], left).Some?
    ensures Size(Unfold(SelfEnv(w), RptTpl(0, []), [], left).value) == PowerSum(w, left)
    decreases left, 0
  {
    if left > 0 {
      var contents := SelfEnv(w).templates[0];
      SelfEntries(w, contents, left - 1);
      PowerSumStep(w, left - 1);
    }
  }

  lemma {:induction false} SelfEntries(w: nat, contents: seq<ItemId>, left: nat)
    requires forall i | 0 <= i < |contents| :: contents[i] == RptTpl(0, [])
    ensures var r := Entries(SelfEnv(w), contents, [], left);
            r.Some? && |r.value| + SizeAll(r.value) == |contents| * (1 + PowerSum(w, left))
    decreases left, 1, |contents|
  {
    if contents != [] {
      hide PowerSum, Filled;
      SelfSize(w, left);
      SelfEntries(w, contents[1..], left);
      assert ItemParms(SelfEnv(w), contents[0], []) == [];
      var r := Entries(SelfEnv(w), contents, [], left);
      assert r.value[1..] == Entries(SelfEnv(w), contents[1..], [], left).value;
      MulStep(|contents|, 1 + PowerSum(w, left));
    }
  }

  // ----- when the limit does not show -----

  /** `rank` bounds how many further levels each template nests; such a ranking exists exactly
      when templates are not cyclic. */
  ghost predicate Ranked(env: Env, rank: nat -> nat) {
    forall id, i | id in env.templates && 0 <= i < |env.templates[id]| ::
      var item := env.templates[id][i];
      item.RptTpl? ==> rank(item.id) < rank(id)
  }

  /** A template that nests at most five further levels is unfolded completely: more levels
      would not change the report. */
  lemma {:induction false} ShallowUnfoldsFully(env: Env, rank: nat -> nat, item: ItemId, parms: Parms,
                                               left: nat, more: nat)
    requires Ranked(env, rank)
    requires item.RptTpl? ==> rank(item.id) < left && rank(item.id) < more
    ensures Unfold(env, item, parms, left) == Unfold(env, item, parms, more)
    decreases left, 1, 0
  {
    if item.RptTpl? && item.id in env.templates {
      ShallowEntries(env, rank, env.templates[item.id], parms, left - 1, more - 1);
    }
  }

  lemma {:induction false} ShallowEntries(env: Env, rank: nat -> nat, contents: seq<ItemId>, parms: Parms,
                                          left: nat, more: nat)
    requires Ranked(env, rank)
    requires forall i | 0 <= i < |contents| && contents[i].RptTpl? ::
               rank(contents[i].id) < left && rank(contents[i].id) < more
    ensures Entries(env, contents, parms, left) == Entries(env, contents, parms, more)
    decreases left, 2, |contents|
  {
    if contents != [] {
      ShallowUnfoldsFully(env, rank, contents[0], ItemParms(env, contents[0], parms), left, more);
      ShallowEntries(env, rank, contents[1..], parms, left, more);
    }
  }
}
