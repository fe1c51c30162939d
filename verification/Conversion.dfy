/** Conversion of given parameters to types made of uses and unions over two built-in types, and
    what it does to binding. Lists, maps and tables are no part of it. `depth` bounds the number of
    TYPEDEFs followed one after the other. */
module Conversion {
  import opened Wrappers
  import opened Values
  import opened Binding
  import opened BindingRuns
  import opened BindingReads
  import opened BindingPasses

  datatype Primitive = Vast | Real

  /** What a use is bound to: a built-in type or the type of a TYPEDEF. */
  datatype Base = Builtin(kind: Primitive) | Defined(typ: TypeObj)

  datatype Range = Range(lo: int, hi: int)

  /** The types by identity, and the range constraint of a use, if it has one. */
  datatype Catalog = Catalog(base: TypeId -> Base, range: Leaf -> Option<Range>)

  const INT64_MAX := 0x7fff_ffff_ffff_ffff

  /** A range is for integers and refuses everything else. */
  predicate InRange(range: Option<Range>, v: Ari) {
    range.Some? ==> v.Int? && range.value.lo <= v.n <= range.value.hi
  }

  predicate IsInteger(x: real) {
    x.Floor as real == x && 0 <= x.Floor <= INT64_MAX
  }

  /** Without conversion a typed literal matches its own type only; an untyped integer matches
      both. */
  predicate MatchesBuiltin(kind: Primitive, v: Ari) {
    match v
    case Int(n) => kind.Real? || 0 <= n <= INT64_MAX
    case Real64(_) => kind.Real?
    case _ => false
  }

  function ConvertBuiltin(kind: Primitive, v: Ari): Option<Ari> {
    match v
    case Undefined => Some(Undefined)
    case Int(n) => if kind.Real? then Some(Real64(n as real)) else if 0 <= n <= INT64_MAX then Some(v) else None
    case Real64(x) => if kind.Real? then Some(v) else if IsInteger(x) then Some(Int(x.Floor)) else None
    case _ => None
  }

  predicate MatchesType(cat: Catalog, depth: nat, t: TypeObj, v: Ari, b: Bases)
    decreases depth, t
  {
    match t
    case Use(leaf) =>
      && leaf in b && InRange(cat.range(leaf), v)
      && (match cat.base(b[leaf])
          case Builtin(kind) => MatchesBuiltin(kind, v)
          case Defined(typ) => depth > 0 && MatchesType(cat, depth - 1, typ, v, b))
    case Union(choices) => exists i | 0 <= i < |choices| :: MatchesType(cat, depth, choices[i], v, b)
    case _ => false
  }

  /** A use needs its base and constrains the result; a union takes a value that matches a choice as
      it is, and else the first conversion. */
  function Convert(cat: Catalog, depth: nat, t: TypeObj, v: Ari, b: Bases): Option<Ari>
    decreases depth, t
  {
    match t
    case Use(leaf) =>
      if leaf !in b then None
      else
        var out := match cat.base(b[leaf])
                   case Builtin(kind) => ConvertBuiltin(kind, v)
                   case Defined(typ) => if depth > 0 then Convert(cat, depth - 1, typ, v, b) else None;
        if out.Some? && InRange(cat.range(leaf), out.value) then out else None
    case Union(choices) =>
      if MatchesType(cat, depth, t, v, b) then Some(v) else FirstConversion(cat, depth, choices, v, b)
    case _ => None
  }

  function FirstConversion(cat: Catalog, depth: nat, choices: seq<TypeObj>, v: Ari, b: Bases): Option<Ari>
    decreases depth, choices
  {
    if choices == [] then None
    else
      var out := Convert(cat, depth, choices[0], v, b);
      if out.Some? then out else FirstConversion(cat, depth, choices[1..], v, b)
  }

  /** A union keeps a value that matches a choice; else it gives what the first choice that converts
      the value gives. */
  lemma UnionConverts(cat: Catalog, depth: nat, choices: seq<TypeObj>, v: Ari, b: Bases)
    ensures (exists i | 0 <= i < |choices| :: MatchesType(cat, depth, choices[i], v, b)) ==>
              Convert(cat, depth, Union(choices), v, b) == Some(v)
    ensures (forall i | 0 <= i < |choices| :: !MatchesType(cat, depth, choices[i], v, b)) ==>
              && (Convert(cat, depth, Union(choices), v, b).None? <==>
                  forall i | 0 <= i < |choices| :: Convert(cat, depth, choices[i], v, b).None?)
              && forall i | 0 <= i < |choices| && Convert(cat, depth, choices[i], v, b).Some? &&
                            (forall j | 0 <= j < i :: Convert(cat, depth, choices[j], v, b).None?) ::
                   Convert(cat, depth, Union(choices), v, b) == Convert(cat, depth, choices[i], v, b)
  {
    hide Convert;
    FirstThatConverts(cat, depth, choices, v, b);
    UnionUnfolds(cat, depth, choices, v, b);
  }

  lemma UnionUnfolds(cat: Catalog, depth: nat, choices: seq<TypeObj>, v: Ari, b: Bases)
    ensures Convert(cat, depth, Union(choices), v, b) ==
            if MatchesType(cat, depth, Union(choices), v, b) then Some(v)
            else FirstConversion(cat, depth, choices, v, b)
  {
  }

  lemma {:induction false} FirstThatConverts(cat: Catalog, depth: nat, choices: seq<TypeObj>, v: Ari, b: Bases)
    ensures FirstConversion(cat, depth, choices, v, b).None? <==>
            forall i | 0 <= i < |choices| :: Convert(cat, depth, choices[i], v, b).None?
    ensures forall i | 0 <= i < |choices| && Convert(cat, depth, choices[i], v, b).Some? &&
                       (forall j | 0 <= j < i :: Convert(cat, depth, choices[j], v, b).None?) ::
              FirstConversion(cat, depth, choices, v, b) == Convert(cat, depth, choices[i], v, b)
  {
    hide Convert;
    if choices != [] {
      FirstThatConverts(cat, depth, choices[1..], v, b);
      assert forall i | 0 < i < |choices| :: choices[i] == choices[1..][i - 1];
      assert forall i | 0 <= i < |choices[1..]| :: choices[1..][i] == choices[i + 1];
    }
  }

  // ----- what conversion reads -----

  /** With each use, the footprint holds the uses of the type it is or can be bound to. */
  ghost predicate ClosedFoot(cat: Catalog, store: Store, s: set<Leaf>, b: Bases) {
    forall u | u in s ::
      && (u in b && cat.base(b[u]).Defined? ==> UsesIn(cat.base(b[u]).typ) <= s)
      && (NamedType(store, u.name).Some? && cat.base(NamedType(store, u.name).value).Defined? ==>
            UsesIn(cat.base(NamedType(store, u.name).value).typ) <= s)
  }

  lemma {:induction false} UsesOfChoice(ts: seq<TypeObj>, i: nat)
    requires i < |ts|
    ensures UsesIn(ts[i]) <= UsesInAll(ts)
  {
    if i > 0 {
      UsesOfChoice(ts[1..], i - 1);
    }
  }

  lemma BaseInFoot(cat: Catalog, store: Store, s: set<Leaf>, b: Bases, c: Bases, u: Leaf)
    requires ClosedFoot(cat, store, s, b) && Grown(store, b, c) && u in s && u in c
    ensures cat.base(c[u]).Defined? ==> UsesIn(cat.base(c[u]).typ) <= s
  {
  }

  lemma {:induction false} MatchReads(cat: Catalog, store: Store, depth: nat, t: TypeObj, v: Ari, s: set<Leaf>,
                                      b: Bases, c: Bases, d: Bases)
    requires ClosedFoot(cat, store, s, b) && Grown(store, b, c) && Grown(store, b, d)
    requires AgreeOn(s, c, d) && UsesIn(t) <= s
    ensures MatchesType(cat, depth, t, v, c) == MatchesType(cat, depth, t, v, d)
    decreases depth, t
  {
    match t
    case Use(leaf) =>
      if leaf in c {
        BaseInFoot(cat, store, s, b, c, leaf);
        hide ClosedFoot, Grown, AgreeOn;
        if cat.base(c[leaf]).Defined? && depth > 0 {
          MatchReads(cat, store, depth - 1, cat.base(c[leaf]).typ, v, s, b, c, d);
        }
      }
    case Union(choices) =>
      hide ClosedFoot, Grown, AgreeOn;
      forall i | 0 <= i < |choices|
        ensures MatchesType(cat, depth, choices[i], v, c) == MatchesType(cat, depth, choices[i], v, d)
      {
        UsesOfChoice(choices, i);
        MatchReads(cat, store, depth, choices[i], v, s, b, c, d);
      }
    case _ =>
  }

  lemma {:induction false} ConvertReads(cat: Catalog, store: Store, depth: nat, t: TypeObj, v: Ari, s: set<Leaf>,
                                        b: Bases, c: Bases, d: Bases)
    requires ClosedFoot(cat, store, s, b) && Grown(store, b, c) && Grown(store, b, d)
    requires AgreeOn(s, c, d) && UsesIn(t) <= s
    ensures Convert(cat, depth, t, v, c) == Convert(cat, depth, t, v, d)
    decreases depth, t, 1
  {
    hide MatchesType, InRange, ConvertBuiltin, UsesInAll;
    match t
    case Use(leaf) =>
      if leaf in c {
        BaseInFoot(cat, store, s, b, c, leaf);
        hide ClosedFoot, Grown, AgreeOn;
        if cat.base(c[leaf]).Defined? && depth > 0 {
          ConvertReads(cat, store, depth - 1, cat.base(c[leaf]).typ, v, s, b, c, d);
        }
      }
    case Union(choices) =>
      hide ClosedFoot, Grown, AgreeOn;
      MatchReads(cat, store, depth, t, v, s, b, c, d);
      FirstReads(cat, store, depth, choices, v, s, b, c, d);
    case _ =>
  }

  lemma {:induction false} FirstReads(cat: Catalog, store: Store, depth: nat, choices: seq<TypeObj>, v: Ari,
                                      s: set<Leaf>, b: Bases, c: Bases, d: Bases)
    requires ClosedFoot(cat, store, s, b) && Grown(store, b, c) && Grown(store, b, d)
    requires AgreeOn(s, c, d) && UsesInAll(choices) <= s
    ensures FirstConversion(cat, depth, choices, v, c) == FirstConversion(cat, depth, choices, v, d)
    decreases depth, choices, 0
  {
    hide ClosedFoot, Grown, AgreeOn, Convert;
    if choices != [] {
      ConvertReads(cat, store, depth, choices[0], v, s, b, c, d);
      FirstReads(cat, store, depth, choices[1..], v, s, b, c, d);
    }
  }

  /** The store converts given parameters in this way. */
  ghost predicate ConvertsBy(store: Store, cat: Catalog, depth: nat) {
    forall t, v, b :: store.convert(t, v, b) == Convert(cat, depth, t, v, b).Some?
  }

  /** The footprint of each path is closed and holds the uses of its formal parameter types. */
  ghost predicate FootCovers(store: Store, cat: Catalog, foot: Footprint, b: Bases) {
    forall p ::
      && ClosedFoot(cat, store, foot(p), b)
      && (forall t | t in store.fparams(p) :: UsesIn(t) <= foot(p))
      && (forall named, g | store.keyed(p, named).Some? && g in store.keyed(p, named).value :: UsesIn(g.typ) <= foot(p))
  }

  lemma ConvertsAgree(store: Store, cat: Catalog, depth: nat, t: TypeObj, v: Ari, s: set<Leaf>,
                      b: Bases, c: Bases, d: Bases)
    requires ConvertsBy(store, cat, depth) && ClosedFoot(cat, store, s, b)
    requires Grown(store, b, c) && Grown(store, b, d) && AgreeOn(s, c, d) && UsesIn(t) <= s
    ensures Converts(store, t, v, c) == Converts(store, t, v, d)
  {
    ConvertReads(cat, store, depth, t, v, s, b, c, d);
    hide Convert, ClosedFoot, Grown;
  }

  /** Conversion reads only the uses reachable from the formal parameter types. */
  lemma ConversionReads(store: Store, cat: Catalog, depth: nat, foot: Footprint, b: Bases)
    requires ConvertsBy(store, cat, depth) && FootCovers(store, cat, foot, b)
    ensures ReadsOnly(store, foot, b)
  {
    forall path, params, c, d | Grown(store, b, c) && Grown(store, b, d) && AgreeOn(foot(path), c, d)
      ensures Accepted(store, path, params, c) == Accepted(store, path, params, d)
    {
      assert ClosedFoot(cat, store, foot(path), b);
      forall t, v | UsesIn(t) <= foot(path)
        ensures Converts(store, t, v, c) == Converts(store, t, v, d)
      {
        hide Converts, ConvertsBy, FootCovers;
        ConvertsAgree(store, cat, depth, t, v, foot(path), b, c, d);
      }
      hide Converts, ConvertsBy, ClosedFoot, Grown, AgreeOn;
      match params
      case NoParams =>
      case AcParams(given) =>
        var fparams := store.fparams(path);
        assert forall i | 0 <= i < |fparams| :: fparams[i] in fparams && UsesIn(fparams[i]) <= foot(path);
      case AmParams(named) =>
        if store.keyed(path, named).Some? {
          var gs := store.keyed(path, named).value;
          assert forall i | 0 <= i < |gs| :: gs[i] in gs && UsesIn(gs[i].typ) <= foot(path);
        }
    }
  }

  // ----- without constraints -----

  lemma {:induction false} MatchGrows(cat: Catalog, store: Store, depth: nat, t: TypeObj, v: Ari, b: Bases, c: Bases)
    requires Grown(store, b, c) && MatchesType(cat, depth, t, v, b)
    ensures MatchesType(cat, depth, t, v, c)
    decreases depth, t
  {
    match t
    case Use(leaf) =>
      if cat.base(b[leaf]).Defined? {
        MatchGrows(cat, store, depth - 1, cat.base(b[leaf]).typ, v, b, c);
      }
    case Union(choices) =>
      var i :| 0 <= i < |choices| && MatchesType(cat, depth, choices[i], v, b);
      MatchGrows(cat, store, depth, choices[i], v, b, c);
    case _ =>
  }

  lemma {:induction false} ConvertGrows(cat: Catalog, store: Store, depth: nat, t: TypeObj, v: Ari, b: Bases, c: Bases)
    requires forall u :: cat.range(u).None?
    requires Grown(store, b, c) && Convert(cat, depth, t, v, b).Some?
    ensures Convert(cat, depth, t, v, c).Some?
    decreases depth, t, 1
  {
    match t
    case Use(leaf) =>
      if cat.base(b[leaf]).Defined? {
        ConvertGrows(cat, store, depth - 1, cat.base(b[leaf]).typ, v, b, c);
      }
    case Union(choices) =>
      hide Grown;
      if MatchesType(cat, depth, t, v, b) {
        MatchGrows(cat, store, depth, t, v, b, c);
      } else {
        FirstGrows(cat, store, depth, choices, v, b, c);
      }
    case _ =>
  }

  lemma {:induction false} FirstGrows(cat: Catalog, store: Store, depth: nat, choices: seq<TypeObj>, v: Ari,
                                      b: Bases, c: Bases)
    requires forall u :: cat.range(u).None?
    requires Grown(store, b, c) && FirstConversion(cat, depth, choices, v, b).Some?
    ensures FirstConversion(cat, depth, choices, v, c).Some?
    decreases depth, choices, 0
  {
    hide Grown, Convert;
    if choices != [] {
      if Convert(cat, depth, choices[0], v, b).Some? {
        ConvertGrows(cat, store, depth, choices[0], v, b, c);
      } else {
        FirstGrows(cat, store, depth, choices[1..], v, b, c);
      }
    }
  }

  /** Where no use is constrained, binding more never makes a conversion fail. */
  lemma UnconstrainedIsMonotone(store: Store, cat: Catalog, depth: nat)
    requires ConvertsBy(store, cat, depth) && forall u :: cat.range(u).None?
    ensures Monotone(store)
  {
    forall t, v, b, c | Grown(store, b, c) && Converts(store, t, v, b)
      ensures Converts(store, t, v, c)
    {
      assert Convert(cat, depth, t, v, b).Some?;
      ConvertGrows(cat, store, depth, t, v, b, c);
    }
  }

  // ----- a constraint around a union -----

  const REAL_PATH := Path(1, 1, -12, 1)
  const NUMBER_PATH := Path(1, 1, -12, 2)
  const LIMITED_PATH := Path(1, 1, -1, 1)

  /** The type codes of the built-in types, as ARITYPE literals hold them. */
  const VAST_NAME := Int(6)
  const REAL64_NAME := Int(9)

  /** TYPEDEF real is a use of REAL64, and TYPEDEF number is a union of real and VAST. */
  const REAL64_USE := Leaf(0, REAL64_NAME)
  const VAST_USE := Leaf(1, VAST_NAME)
  const REAL_USE := Leaf(2, Ref(REAL_PATH, NoParams))
  const NUMBER := Union([Use(REAL_USE), Use(VAST_USE)])

  /** The formal parameter of IDENT limited is a use of number with a range. */
  const NUMBER_USE := Leaf(3, Ref(NUMBER_PATH, NoParams))

  const SMALL_CATALOG := Catalog(
      (id: TypeId) =>
        if id == 0 then Builtin(Real) else if id == 1 then Builtin(Vast)
        else if id == 2 then Defined(Use(REAL64_USE)) else Defined(NUMBER),
      (u: Leaf) => if u == NUMBER_USE then Some(Range(0, 100)) else None)

  /** The store with these objects, with or without TYPEDEF real. */
  function LimitedStore(withReal: bool): Store {
    Store(
      (p: Path) =>
        if p == REAL_PATH && withReal then Typedef(Some(2)) else if p == NUMBER_PATH then Typedef(Some(3))
        else if p == LIMITED_PATH then Ident(Some(0)) else Missing,
      (p: Path) => if p == LIMITED_PATH then [Use(NUMBER_USE)] else [],
      (p: Path, named: seq<Pair>) => None,
      (t: TypeObj, v: Ari, b: Bases) => Convert(SMALL_CATALOG, 2, t, v, b).Some?,
      (a: Ari) => if a == REAL64_NAME then Some(0) else if a == VAST_NAME then Some(1) else None)
  }

  const FIVE := Real64(5.0)
  const LIMITED_FIVE := Ref(LIMITED_PATH, AcParams([FIVE]))

  lemma NumberMatches(b: Bases)
    requires REAL_USE in b ==> b[REAL_USE] == 2
    requires REAL64_USE in b ==> b[REAL64_USE] == 0
    requires VAST_USE in b && b[VAST_USE] == 1
    ensures MatchesType(SMALL_CATALOG, 1, NUMBER, FIVE, b) <==> REAL_USE in b && REAL64_USE in b
  {
    var choices := NUMBER.choices;
    assert choices[0] == Use(REAL_USE) && choices[1] == Use(VAST_USE);
    assert MatchesType(SMALL_CATALOG, 0, Use(REAL64_USE), FIVE, b) <==> REAL64_USE in b;
    assert MatchesType(SMALL_CATALOG, 1, choices[0], FIVE, b) <==> REAL_USE in b && REAL64_USE in b;
    assert !MatchesType(SMALL_CATALOG, 1, choices[1], FIVE, b);
  }

  lemma NumberConverts(b: Bases)
    requires REAL_USE in b ==> b[REAL_USE] == 2
    requires REAL64_USE in b ==> b[REAL64_USE] == 0
    requires VAST_USE in b && b[VAST_USE] == 1
    ensures Convert(SMALL_CATALOG, 1, NUMBER, FIVE, b) ==
            Some(if REAL_USE in b && REAL64_USE in b then FIVE else Int(5))
  {
    NumberMatches(b);
    hide MatchesType;
    var choices := NUMBER.choices;
    assert choices[0] == Use(REAL_USE) && choices[1..] == [Use(VAST_USE)];
    assert Convert(SMALL_CATALOG, 0, Use(REAL64_USE), FIVE, b) == if REAL64_USE in b then Some(FIVE) else None;
    assert Convert(SMALL_CATALOG, 1, choices[0], FIVE, b) ==
           if REAL_USE in b && REAL64_USE in b then Some(FIVE) else None;
    assert Convert(SMALL_CATALOG, 1, Use(VAST_USE), FIVE, b) == Some(Int(5)) by {
      assert FIVE.x.Floor == 5;
    }
    assert FirstConversion(SMALL_CATALOG, 1, [Use(VAST_USE)], FIVE, b) == Some(Int(5)) by {
      assert [Use(VAST_USE)][0] == Use(VAST_USE);
    }
    assert FirstConversion(SMALL_CATALOG, 1, choices, FIVE, b) ==
           if REAL_USE in b && REAL64_USE in b then Some(FIVE) else Some(Int(5));
  }

  /** The given 5.0 is refused exactly when the real choice can be matched: then it stays real. */
  lemma LimitedAccepts(withReal: bool, b: Bases)
    requires REAL_USE in b ==> b[REAL_USE] == 2
    requires REAL64_USE in b ==> b[REAL64_USE] == 0
    requires VAST_USE in b && b[VAST_USE] == 1 && NUMBER_USE in b && b[NUMBER_USE] == 3
    ensures IdentFromName(LimitedStore(withReal), LIMITED_FIVE, b) ==
            if REAL_USE in b && REAL64_USE in b then None else Some(0)
    ensures Converts(LimitedStore(withReal), Use(NUMBER_USE), FIVE, b) <==> !(REAL_USE in b && REAL64_USE in b)
  {
    var store := LimitedStore(withReal);
    NumberConverts(b);
    var out := if REAL_USE in b && REAL64_USE in b then FIVE else Int(5);
    assert Convert(SMALL_CATALOG, 2, Use(NUMBER_USE), FIVE, b) ==
           if InRange(Some(Range(0, 100)), out) then Some(out) else None;
    hide Convert;
    assert store.fparams(LIMITED_PATH) == [Use(NUMBER_USE)];
    assert Accepted(store, LIMITED_PATH, AcParams([FIVE]), b) <==> Converts(store, Use(NUMBER_USE), FIVE, b) by {
      assert [Use(NUMBER_USE)][0] == Use(NUMBER_USE) && [FIVE][0] == FIVE;
    }
  }

  /** The two TYPEDEFs, the IDENT with the limited parameter, and an IDENT derived from it with
      5.0 given. */
  const NUMBER_TYPEDEF := Object(10, TypedefDesc(NUMBER), [])
  const REAL_TYPEDEF := Object(11, TypedefDesc(Use(REAL64_USE)), [])
  const LIMITED := Object(0, IdentDesc([]), [Use(NUMBER_USE)])
  const FIVE_IDENT := Object(1, IdentDesc([LIMITED_FIVE]), [])

  const FIVE_TASK := BaseName(1, LIMITED_FIVE)

  lemma LimitedTasks()
    ensures TasksOf(NUMBER_TYPEDEF) == [TypeUse(REAL_USE), TypeUse(VAST_USE)]
    ensures TasksOf(REAL_TYPEDEF) == [TypeUse(REAL64_USE)]
    ensures TasksOf(LIMITED) == [TypeUse(NUMBER_USE)]
    ensures TasksOf(FIVE_IDENT) == [FIVE_TASK]
  {
    assert Names(10, []) == [] && Names(11, []) == [] && Names(0, []) == [];
    OneType(Use(REAL64_USE));
    OneType(Use(NUMBER_USE));
    OneType(NUMBER);
    OneType(Use(VAST_USE));
    assert NUMBER.choices[1..] == [Use(VAST_USE)];
    assert TasksAll(NUMBER.choices) == [TypeUse(REAL_USE)] + [TypeUse(VAST_USE)];
    assert Names(1, [LIMITED_FIVE]) == [FIVE_TASK] + Names(1, []) by {
      assert [LIMITED_FIVE][1..] == [];
    }
  }

  lemma OneType(t: TypeObj)
    ensures TasksAll([t]) == Tasks(t)
  {
    assert [t][1..] == [] && Tasks(t) + [] == Tasks(t);
  }

  lemma PassOfFour(a: Object, b: Object, c: Object, d: Object)
    ensures Pass([a, b, c, d]) == TasksOf(a) + TasksOf(b) + TasksOf(c) + TasksOf(d)
  {
    hide TasksOf;
    assert [a, b, c, d][1..] == [b, c, d] && [b, c, d][1..] == [c, d] && [c, d][1..] == [d] && [d][1..] == [];
    assert Pass([d]) == TasksOf(d) + [] == TasksOf(d);
    assert Pass([b, c, d]) == TasksOf(b) + (TasksOf(c) + TasksOf(d));
  }

  lemma FailsOfFive(store: Store, s: Task, t: Task, u: Task, v: Task, w: Task, b: Bases)
    ensures var b1 := Step(store, s, b);
            var b2 := Step(store, t, b1);
            var b3 := Step(store, u, b2);
            var b4 := Step(store, v, b3);
            && Bound(store, [s, t, u, v, w], b) == Step(store, w, b4)
            && Fails(store, [s, t, u, v, w], b) ==
               Missed(store, s, b) + Missed(store, t, b1) + Missed(store, u, b2) + Missed(store, v, b3) +
               Missed(store, w, b4)
  {
    hide Answer, Step;
    var b1 := Step(store, s, b);
    var b2 := Step(store, t, b1);
    var b3 := Step(store, u, b2);
    var b4 := Step(store, v, b3);
    FirstTask(store, [s, t, u, v, w], b);
    FirstTask(store, [t, u, v, w], b1);
    FirstTask(store, [u, v, w], b2);
    FirstTask(store, [v, w], b3);
    FirstTask(store, [w], b4);
    assert [s, t, u, v, w][1..] == [t, u, v, w] && [t, u, v, w][1..] == [u, v, w] && [u, v, w][1..] == [v, w];
    assert [v, w][1..] == [w] && [w][1..] == [];
  }

  function Missed(store: Store, k: Task, b: Bases): nat {
    if Answer(store, k, b).None? then 1 else 0
  }

  const BOUND_USES: Bases := map[REAL_USE := 2, VAST_USE := 1, NUMBER_USE := 3]

  /** The type uses are found wherever they are tried. */
  lemma LimitedSteps(b: Bases)
    ensures var store := LimitedStore(true);
            && (REAL_USE !in b ==> Answer(store, TypeUse(REAL_USE), b) == Some(2))
            && (VAST_USE !in b ==> Answer(store, TypeUse(VAST_USE), b) == Some(1))
            && (NUMBER_USE !in b ==> Answer(store, TypeUse(NUMBER_USE), b) == Some(3))
            && (REAL64_USE !in b ==> Answer(store, TypeUse(REAL64_USE), b) == Some(0))
  {
  }

  lemma SameUse(store: Store, u: Leaf, b: Bases)
    requires u in b
    ensures Step(store, TypeUse(u), b) == b && Missed(store, TypeUse(u), b) == 0
  {
    assert b[u := b[u]] == b;
  }

  const ALL_USES: Bases := BOUND_USES[REAL64_USE := 0]

  /** What the four objects have to bind, with the derived IDENT before and after TYPEDEF real. */
  const EARLY := [TypeUse(REAL_USE), TypeUse(VAST_USE), TypeUse(NUMBER_USE), FIVE_TASK, TypeUse(REAL64_USE)]
  const LATE := [TypeUse(REAL_USE), TypeUse(VAST_USE), TypeUse(NUMBER_USE), TypeUse(REAL64_USE), FIVE_TASK]

  lemma LimitedPasses()
    ensures Pass([NUMBER_TYPEDEF, LIMITED, FIVE_IDENT, REAL_TYPEDEF]) == EARLY
    ensures Pass([NUMBER_TYPEDEF, LIMITED, REAL_TYPEDEF, FIVE_IDENT]) == LATE
  {
    hide Pass, TasksOf;
    LimitedTasks();
    PassOfFour(NUMBER_TYPEDEF, LIMITED, FIVE_IDENT, REAL_TYPEDEF);
    PassOfFour(NUMBER_TYPEDEF, LIMITED, REAL_TYPEDEF, FIVE_IDENT);
  }

  /** The three uses that come first are bound. */
  lemma FirstThree()
    ensures var store := LimitedStore(true);
            var b1 := Step(store, TypeUse(REAL_USE), map[]);
            var b2 := Step(store, TypeUse(VAST_USE), b1);
            && Step(store, TypeUse(NUMBER_USE), b2) == BOUND_USES
            && Step(store, TypeUse(REAL64_USE), BOUND_USES) == ALL_USES
            && Missed(store, TypeUse(REAL_USE), map[]) == Missed(store, TypeUse(VAST_USE), b1) == 0
            && Missed(store, TypeUse(NUMBER_USE), b2) == Missed(store, TypeUse(REAL64_USE), BOUND_USES) == 0
  {
    LimitedSteps(map[]);
    LimitedSteps(map[REAL_USE := 2]);
    LimitedSteps(map[REAL_USE := 2, VAST_USE := 1]);
    LimitedSteps(BOUND_USES);
    hide LimitedStore, TypeFromName;
  }

  lemma BaseMissed()
    ensures var store := LimitedStore(true);
            && Missed(store, FIVE_TASK, BOUND_USES) == 0 && Missed(store, FIVE_TASK, ALL_USES) == 1
            && forall b: Bases :: Step(store, FIVE_TASK, b) == b
  {
    LimitedAccepts(true, BOUND_USES);
    LimitedAccepts(true, ALL_USES);
    hide LimitedStore, IdentFromName;
  }

  lemma AllMissed()
    ensures var store := LimitedStore(true);
            forall u | u in {REAL_USE, VAST_USE, NUMBER_USE, REAL64_USE} ::
              Step(store, TypeUse(u), ALL_USES) == ALL_USES && Missed(store, TypeUse(u), ALL_USES) == 0
  {
    var store := LimitedStore(true);
    forall u | u in {REAL_USE, VAST_USE, NUMBER_USE, REAL64_USE}
      ensures Step(store, TypeUse(u), ALL_USES) == ALL_USES && Missed(store, TypeUse(u), ALL_USES) == 0
    {
      SameUse(store, u, ALL_USES);
    }
  }

  /** An IDENT whose given parameter is accepted before the real choice of the union is bound, and
      refused afterwards: the order matters, and a repeat counts more. */
  lemma BindingMoreCanRefuse()
    ensures var store := LimitedStore(true);
            var tasks := Pass([NUMBER_TYPEDEF, LIMITED, FIVE_IDENT, REAL_TYPEDEF]);
            && Fails(store, tasks, map[]) == 0
            && Fails(store, Pass([NUMBER_TYPEDEF, LIMITED, REAL_TYPEDEF, FIVE_IDENT]), map[]) == 1
            && Fails(store, tasks, Bound(store, tasks, map[])) == 1
            && !Monotone(store)
  {
    hide Pass, Fails, Bound, Step, Missed, Monotone, LimitedStore, Answer;
    LimitedPasses();
    FirstThree();
    BaseMissed();
    AllMissed();
    NotMonotone();
    var store := LimitedStore(true);
    var r, v, n, r64 := TypeUse(REAL_USE), TypeUse(VAST_USE), TypeUse(NUMBER_USE), TypeUse(REAL64_USE);
    FailsOfFive(store, r, v, n, FIVE_TASK, r64, map[]);
    FailsOfFive(store, r, v, n, r64, FIVE_TASK, map[]);
    FailsOfFive(store, r, v, n, FIVE_TASK, r64, ALL_USES);
  }

  lemma NotMonotone()
    ensures !Monotone(LimitedStore(true))
  {
    var store := LimitedStore(true);
    LimitedAccepts(true, BOUND_USES);
    LimitedAccepts(true, ALL_USES);
    assert Grown(store, BOUND_USES, ALL_USES);
    hide Converts;
    assert Converts(store, Use(NUMBER_USE), FIVE, BOUND_USES) && !Converts(store, Use(NUMBER_USE), FIVE, ALL_USES);
  }

  /** A larger store can count more: with TYPEDEF real the two derived IDENTs are refused. */
  lemma LargerStoreCanCountMore()
    ensures var more, less := LimitedStore(true), LimitedStore(false);
            var tasks := [TypeUse(REAL_USE), TypeUse(VAST_USE), TypeUse(NUMBER_USE), FIVE_TASK, BaseName(2, LIMITED_FIVE)];
            var b: Bases := map[REAL64_USE := 0];
            && Extends(more, less)
            && Fails(less, tasks, b) == 1 && Fails(more, tasks, b) == 2
  {
    var more, less := LimitedStore(true), LimitedStore(false);
    var r, v, n, other := TypeUse(REAL_USE), TypeUse(VAST_USE), TypeUse(NUMBER_USE), BaseName(2, LIMITED_FIVE);
    var b: Bases := map[REAL64_USE := 0];
    assert Extends(more, less);
    var found := b[REAL_USE := 2][VAST_USE := 1][NUMBER_USE := 3];
    var lost := b[VAST_USE := 1][NUMBER_USE := 3];
    LimitedAccepts(true, found);
    LimitedAccepts(false, lost);
    FailsOfFive(more, r, v, n, FIVE_TASK, other, b);
    FailsOfFive(less, r, v, n, FIVE_TASK, other, b);
    LimitedSteps(b);
    LimitedSteps(b[REAL_USE := 2]);
    LimitedSteps(b[REAL_USE := 2][VAST_USE := 1]);
    assert Answer(less, r, b) == None && Answer(less, v, b) == Some(1) &&
           Answer(less, n, b[VAST_USE := 1]) == Some(3);
    hide Fails, Bound, LimitedStore, IdentFromName, TypeFromName, Extends;
  }
}
