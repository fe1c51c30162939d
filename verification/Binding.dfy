/** Binding of type uses and IDENT bases to the objects they name. The cached pointers that
    binding writes are kept in maps keyed by the structure that holds them. */
module Binding {
  import opened Wrappers
  import opened Values
  import opened Lists

  type TypeId = nat

  /** A type use: a leaf of a type tree, with its own identity. */
  datatype Leaf = Leaf(id: nat, name: Ari)

  datatype TypeObj =
    | Invalid
    | Use(leaf: Leaf)
    | UList(item: TypeObj)
    | DList(types: seq<TypeObj>)
    | UMap(key: TypeObj, val: TypeObj)
    | Tblt(columns: seq<TypeObj>)
    | Union(choices: seq<TypeObj>)
    | Sequence(item: TypeObj)
    | OtherClass

  /** The type uses bound so far. */
  type Bases = map<Leaf, TypeId>

  /** What a path leads to, with its descriptor if it has one. */
  datatype Found = Missing | Typedef(desc: Option<TypeId>) | Ident(obj: Option<Obj>) | OtherObject(hasDesc: bool)

  /** A given parameter and the type of the formal parameter it is for. */
  datatype Given = Given(typ: TypeObj, value: Ari)

  /** The object store: the object at a path and its formal parameter types, the assignment of
      parameters given by key, which fails for a doubled or an unused key, and the built-in type
      named by an ARITYPE literal. `convert` says whether a value converts to a type, which can
      depend on every use bound so far; nothing is assumed about it. */
  datatype Store = Store(
    find: Path -> Found,
    fparams: Path -> seq<TypeObj>,
    keyed: (Path, seq<Pair>) -> Option<seq<Given>>,
    convert: (TypeObj, Ari, Bases) -> bool,
    builtin: Ari -> Option<TypeId>)

  // ----- looking up a name -----

  /** Converting with an unbound use, or with a type that was never set, fails. */
  predicate Converts(store: Store, t: TypeObj, v: Ari, b: Bases) {
    match t
    case Invalid => false
    case Use(leaf) => leaf in b && store.convert(t, v, b)
    case _ => store.convert(t, v, b)
  }

  /** Do the given parameters fit the formal ones? Without given parameters the defaults are
      taken as they are. */
  predicate Accepted(store: Store, path: Path, params: Params, b: Bases) {
    match params
    case NoParams => true
    case AcParams(given) =>
      var fparams := store.fparams(path);
      |given| <= |fparams| && forall i | 0 <= i < |given| :: Converts(store, fparams[i], given[i], b)
    case AmParams(named) =>
      (match store.keyed(path, named)
       case None => false
       case Some(gs) => forall i | 0 <= i < |gs| :: Converts(store, gs[i].typ, gs[i].value, b))
  }

  predicate Usable(store: Store, name: Ari, b: Bases) {
    name.Ref? ==> Accepted(store, name.path, name.params, b)
  }

  /** The type that a name leads to once its parameters are accepted. */
  function NamedType(store: Store, name: Ari): Option<TypeId> {
    if name.Ref? then
      match store.find(name.path)
      case Typedef(desc) => desc
      case _ => None
    else store.builtin(name)
  }

  /** The IDENT object that a name leads to once its parameters are accepted. */
  function NamedIdent(store: Store, name: Ari): Option<Obj> {
    if name.Ref? && store.find(name.path).Ident? then store.find(name.path).obj else None
  }

  function TypeFromName(store: Store, name: Ari, b: Bases): Option<TypeId> {
    if Usable(store, name, b) then NamedType(store, name) else None
  }

  function IdentFromName(store: Store, name: Ari, b: Bases): Option<Obj> {
    if Usable(store, name, b) then NamedIdent(store, name) else None
  }

  // ----- attempts -----

  /** One thing to bind: a type use, a base of an IDENT, or something that cannot be bound. */
  datatype Task = TypeUse(leaf: Leaf) | BaseName(owner: Obj, name: Ari) | Unusable

  /** A reverse link, held by `base`. */
  datatype Link = Link(base: Obj, derived: Obj)

  /** The outcome of an attempt with the uses `b` bound. */
  function Answer(store: Store, task: Task, b: Bases): Option<nat> {
    match task
    case TypeUse(leaf) => if leaf in b then Some(b[leaf]) else TypeFromName(store, leaf.name, b)
    case BaseName(_, name) => IdentFromName(store, name, b)
    case Unusable => None
  }

  function Step(store: Store, task: Task, b: Bases): Bases {
    if task.TypeUse? && Answer(store, task, b).Some? then b[task.leaf := Answer(store, task, b).value] else b
  }

  /** The uses bound after trying all tasks in order. */
  function Bound(store: Store, tasks: seq<Task>, b: Bases): Bases
    decreases |tasks|
  {
    if tasks == [] then b else Bound(store, tasks[1..], Step(store, tasks[0], b))
  }

  function Answers(store: Store, tasks: seq<Task>, b: Bases): (as': seq<Option<nat>>)
    ensures |as'| == |tasks|
    decreases |tasks|
  {
    if tasks == [] then []
    else [Answer(store, tasks[0], b)] + Answers(store, tasks[1..], Step(store, tasks[0], b))
  }

  /** How many of the attempts fail. */
  function Fails(store: Store, tasks: seq<Task>, b: Bases): nat
    decreases |tasks|
  {
    if tasks == [] then 0
    else (if Answer(store, tasks[0], b).None? then 1 else 0) + Fails(store, tasks[1..], Step(store, tasks[0], b))
  }

  /** The reverse link made by the first attempt, if any. */
  function MadeFirst(store: Store, tasks: seq<Task>, b: Bases): seq<Link>
    requires tasks != []
  {
    var a := Answer(store, tasks[0], b);
    if tasks[0].BaseName? && a.Some? then [Link(a.value, tasks[0].owner)] else []
  }

  /** The reverse links made by the attempts. */
  function Made(store: Store, tasks: seq<Task>, b: Bases): seq<Link>
    decreases |tasks|
  {
    if tasks == [] then [] else MadeFirst(store, tasks, b) + Made(store, tasks[1..], Step(store, tasks[0], b))
  }

  lemma FirstTask(store: Store, tasks: seq<Task>, b: Bases)
    requires tasks != []
    ensures var a, b' := Answer(store, tasks[0], b), Step(store, tasks[0], b);
            && Bound(store, tasks, b) == Bound(store, tasks[1..], b')
            && Answers(store, tasks, b) == [a] + Answers(store, tasks[1..], b')
            && Fails(store, tasks, b) == (if a.None? then 1 else 0) + Fails(store, tasks[1..], b')
            && Made(store, tasks, b) == MadeFirst(store, tasks, b) + Made(store, tasks[1..], b')
            && MadeFirst(store, tasks, b) ==
               if tasks[0].BaseName? && a.Some? then [Link(a.value, tasks[0].owner)] else []
  {
  }

  lemma {:induction false} Appended(store: Store, xs: seq<Task>, ys: seq<Task>, b: Bases)
    ensures Bound(store, xs + ys, b) == Bound(store, ys, Bound(store, xs, b))
    ensures Answers(store, xs + ys, b) == Answers(store, xs, b) + Answers(store, ys, Bound(store, xs, b))
    ensures Fails(store, xs + ys, b) == Fails(store, xs, b) + Fails(store, ys, Bound(store, xs, b))
    ensures Made(store, xs + ys, b) == Made(store, xs, b) + Made(store, ys, Bound(store, xs, b))
    decreases |xs|
  {
    if xs == [] {
      assert xs + ys == ys;
    } else {
      assert (xs + ys)[0] == xs[0] && (xs + ys)[1..] == xs[1..] + ys;
      hide *;
      FirstTask(store, xs, b);
      FirstTask(store, xs + ys, b);
      var b' := Step(store, xs[0], b);
      Appended(store, xs[1..], ys, b');
      var end := Bound(store, xs[1..], b');
      Grouped([Answer(store, xs[0], b)], Answers(store, xs[1..], b'), Answers(store, ys, end));
      Grouped(MadeFirst(store, xs, b), Made(store, xs[1..], b'), Made(store, ys, end));
    }
  }

  // ----- what every pass keeps -----

  /** `c` holds all that `b` holds, and any further use bound to the type it names. */
  predicate Grown(store: Store, b: Bases, c: Bases) {
    && (forall u | u in b :: u in c && c[u] == b[u])
    && (forall u | u in c && u !in b :: NamedType(store, u.name) == Some(c[u]))
  }

  /** Binding never unbinds or rebinds a use, and binds only uses it has tried. */
  lemma {:induction false} NeverRebinds(store: Store, tasks: seq<Task>, b: Bases)
    ensures Grown(store, b, Bound(store, tasks, b))
    ensures forall u | u in Bound(store, tasks, b) && u !in b :: TypeUse(u) in tasks
    decreases |tasks|
  {
    if tasks != [] {
      NeverRebinds(store, tasks[1..], Step(store, tasks[0], b));
    }
  }

  // ----- what the failures count -----

  function Uses(tasks: seq<Task>): set<Leaf> {
    set k | k in tasks && k.TypeUse? :: k.leaf
  }

  /** Each type use is visited once. */
  predicate VisitedOnce(tasks: seq<Task>) {
    forall i, j | 0 <= i < j < |tasks| && tasks[i].TypeUse? :: tasks[i] != tasks[j]
  }

  function Unusables(tasks: seq<Task>): nat {
    if tasks == [] then 0 else (if tasks[0].Unusable? then 1 else 0) + Unusables(tasks[1..])
  }

  /** How many bases are not found when they are reached. */
  function MissedBases(store: Store, tasks: seq<Task>, b: Bases): nat
    decreases |tasks|
  {
    if tasks == [] then 0
    else
      (if tasks[0].BaseName? && Answer(store, tasks[0], b).None? then 1 else 0) +
      MissedBases(store, tasks[1..], Step(store, tasks[0], b))
  }

  lemma UsesFirst(tasks: seq<Task>)
    requires tasks != [] && VisitedOnce(tasks)
    ensures VisitedOnce(tasks[1..])
    ensures Uses(tasks) == Uses(tasks[1..]) + (if tasks[0].TypeUse? then {tasks[0].leaf} else {})
    ensures tasks[0].TypeUse? ==> tasks[0].leaf !in Uses(tasks[1..])
  {
    assert tasks == [tasks[0]] + tasks[1..];
    if tasks[0].TypeUse? {
      forall i | 0 <= i < |tasks[1..]|
        ensures tasks[1..][i] != tasks[0]
      {
        assert tasks[1..][i] == tasks[i + 1];
      }
    }
  }

  lemma OneMoreUse<T>(s: set<T>, x: T, gone: set<T>)
    requires x !in s
    ensures |(s + {x}) - gone| == |s - gone| + if x in gone then 0 else 1
  {
    if x in gone {
      assert (s + {x}) - gone == s - gone;
    } else {
      assert (s + {x}) - gone == (s - gone) + {x};
    }
  }

  lemma FirstUse(store: Store, tasks: seq<Task>, b: Bases)
    requires tasks != [] && tasks[0].TypeUse? && tasks[0].leaf !in Uses(tasks[1..])
    ensures tasks[0].leaf in Bound(store, tasks, b) <==> Answer(store, tasks[0], b).Some?
  {
    NeverRebinds(store, tasks[1..], Step(store, tasks[0], b));
  }

  lemma FirstMissed(store: Store, tasks: seq<Task>, b: Bases)
    requires tasks != []
    ensures Unusables(tasks) == (if tasks[0].Unusable? then 1 else 0) + Unusables(tasks[1..])
    ensures MissedBases(store, tasks, b) ==
            (if tasks[0].BaseName? && Answer(store, tasks[0], b).None? then 1 else 0) +
            MissedBases(store, tasks[1..], Step(store, tasks[0], b))
    ensures tasks[0].Unusable? ==> Answer(store, tasks[0], b).None?
  {
  }

  /** The failures are exactly the uses left unbound, what cannot be bound at all, and the bases
      that were not found. */
  lemma {:induction false} FailsCount(store: Store, tasks: seq<Task>, b: Bases)
    requires VisitedOnce(tasks)
    ensures Fails(store, tasks, b) ==
            |Uses(tasks) - Bound(store, tasks, b).Keys| + Unusables(tasks) + MissedBases(store, tasks, b)
    decreases |tasks|
  {
    if tasks == [] {
      assert Uses(tasks) == {};
    } else {
      hide *;
      UsesFirst(tasks);
      FailsCount(store, tasks[1..], Step(store, tasks[0], b));
      FirstTask(store, tasks, b);
      FirstMissed(store, tasks, b);
      if tasks[0].TypeUse? {
        FirstUse(store, tasks, b);
        OneMoreUse(Uses(tasks[1..]), tasks[0].leaf, Bound(store, tasks, b).Keys);
      }
    }
  }

  // ----- what there is to bind, in order -----

  function Tasks(t: TypeObj): seq<Task> {
    match t
    case Invalid => [Unusable]
    case OtherClass => [Unusable]
    case Use(leaf) => [TypeUse(leaf)]
    case UList(item) => Tasks(item)
    case DList(types) => TasksAll(types)
    case UMap(key, val) => Tasks(key) + Tasks(val)
    case Tblt(columns) => TasksAll(columns)
    case Union(choices) => TasksAll(choices)
    case Sequence(item) => Tasks(item)
  }

  function TasksAll(ts: seq<TypeObj>): seq<Task> {
    if ts == [] then [] else Tasks(ts[0]) + TasksAll(ts[1..])
  }

  /** The object descriptor, its parts in the order they are bound. */
  datatype Desc =
    | NoDesc
    | IdentDesc(bases: seq<Ari>)
    | TypedefDesc(typ: TypeObj)
    | ConstDesc
    | ValueDesc(typ: TypeObj)  // VAR and EDD
    | CtrlDesc(res: TypeObj)  // an invalid result type means no result
    | OperDesc(operands: seq<TypeObj>, res: TypeObj)
    | RuleDesc  // SBR and TBR
    | UnknownKind

  datatype Object = Object(id: Obj, desc: Desc, fparams: seq<TypeObj>)

  function TypesOf(o: Object): seq<TypeObj> {
    match o.desc
    case IdentDesc(_) => o.fparams
    case TypedefDesc(typ) => [typ]
    case ConstDesc => o.fparams
    case ValueDesc(typ) => [typ] + o.fparams
    case CtrlDesc(res) => (if res.Invalid? then [] else [res]) + o.fparams
    case OperDesc(operands, res) => operands + [res] + o.fparams
    case _ => []
  }

  function BasesOf(o: Object): seq<Ari> {
    if o.desc.IdentDesc? then o.desc.bases else []
  }

  function Names(o: Obj, names: seq<Ari>): seq<Task> {
    if names == [] then [] else [BaseName(o, names[0])] + Names(o, names[1..])
  }

  function TasksOf(o: Object): seq<Task> {
    if o.desc.NoDesc? || o.desc.UnknownKind? then [Unusable]
    else TasksAll(TypesOf(o)) + Names(o.id, BasesOf(o))
  }

  function Pass(objs: seq<Object>): seq<Task> {
    if objs == [] then [] else TasksOf(objs[0]) + Pass(objs[1..])
  }

  lemma {:induction false} TypesHaveNoBases(t: TypeObj)
    ensures forall k | k in Tasks(t) :: !k.BaseName?
    decreases t, 1
  {
    match t
    case UList(item) => TypesHaveNoBases(item);
    case DList(types) => AllTypesHaveNoBases(types);
    case UMap(key, val) =>
      TypesHaveNoBases(key);
      TypesHaveNoBases(val);
    case Tblt(columns) => AllTypesHaveNoBases(columns);
    case Union(choices) => AllTypesHaveNoBases(choices);
    case Sequence(item) => TypesHaveNoBases(item);
    case _ =>
  }

  lemma {:induction false} AllTypesHaveNoBases(ts: seq<TypeObj>)
    ensures forall k | k in TasksAll(ts) :: !k.BaseName?
    decreases ts, 0
  {
    if ts != [] {
      TypesHaveNoBases(ts[0]);
      AllTypesHaveNoBases(ts[1..]);
    }
  }

  lemma {:induction false} NoBasesNoLinks(store: Store, tasks: seq<Task>, b: Bases)
    requires forall k | k in tasks :: !k.BaseName?
    ensures Made(store, tasks, b) == []
    decreases |tasks|
  {
    if tasks != [] {
      NoBasesNoLinks(store, tasks[1..], Step(store, tasks[0], b));
    }
  }

  lemma {:induction false} NamesBindNothing(store: Store, o: Obj, names: seq<Ari>, b: Bases)
    ensures Bound(store, Names(o, names), b) == b
  {
    if names != [] {
      NamesBindNothing(store, o, names[1..], b);
    }
  }

  // ----- type trees -----

  function UsesIn(t: TypeObj): set<Leaf> {
    match t
    case Use(leaf) => {leaf}
    case UList(item) => UsesIn(item)
    case DList(types) => UsesInAll(types)
    case UMap(key, val) => UsesIn(key) + UsesIn(val)
    case Tblt(columns) => UsesInAll(columns)
    case Union(choices) => UsesInAll(choices)
    case Sequence(item) => UsesIn(item)
    case _ => {}
  }

  function UsesInAll(ts: seq<TypeObj>): set<Leaf> {
    if ts == [] then {} else UsesIn(ts[0]) + UsesInAll(ts[1..])
  }

  function InvalidNodes(t: TypeObj): nat {
    match t
    case Invalid => 1
    case OtherClass => 1
    case Use(_) => 0
    case UList(item) => InvalidNodes(item)
    case DList(types) => InvalidNodesIn(types)
    case UMap(key, val) => InvalidNodes(key) + InvalidNodes(val)
    case Tblt(columns) => InvalidNodesIn(columns)
    case Union(choices) => InvalidNodesIn(choices)
    case Sequence(item) => InvalidNodes(item)
  }

  function InvalidNodesIn(ts: seq<TypeObj>): nat {
    if ts == [] then 0 else InvalidNodes(ts[0]) + InvalidNodesIn(ts[1..])
  }

  lemma {:induction false} PartsCount(xs: seq<Task>, ys: seq<Task>)
    ensures Uses(xs + ys) == Uses(xs) + Uses(ys)
    ensures Unusables(xs + ys) == Unusables(xs) + Unusables(ys)
  {
    if xs == [] {
      assert xs + ys == ys && Uses(xs) == {};
    } else {
      assert (xs + ys)[1..] == xs[1..] + ys;
      PartsCount(xs[1..], ys);
      assert xs + ys == [xs[0]] + (xs[1..] + ys) && xs == [xs[0]] + xs[1..];
      assert Uses(xs + ys) == Uses(xs) + Uses(ys);
    }
  }

  /** A type tree has its uses and its invalid nodes to bind. */
  lemma {:induction false} TreeTasks(t: TypeObj)
    ensures Uses(Tasks(t)) == UsesIn(t) && Unusables(Tasks(t)) == InvalidNodes(t)
    decreases t, 1
  {
    match t
    case Invalid => assert [Unusable][1..] == [];
    case OtherClass => assert [Unusable][1..] == [];
    case Use(leaf) => assert [TypeUse(leaf)][1..] == [] && TypeUse(leaf) in [TypeUse(leaf)];
    case UList(item) => TreeTasks(item);
    case DList(types) => TreesTasks(types);
    case UMap(key, val) =>
      TreeTasks(key);
      TreeTasks(val);
      PartsCount(Tasks(key), Tasks(val));
    case Tblt(columns) => TreesTasks(columns);
    case Union(choices) => TreesTasks(choices);
    case Sequence(item) => TreeTasks(item);
  }

  lemma {:induction false} TreesTasks(ts: seq<TypeObj>)
    ensures Uses(TasksAll(ts)) == UsesInAll(ts) && Unusables(TasksAll(ts)) == InvalidNodesIn(ts)
    decreases ts, 0
  {
    if ts == [] {
      assert Uses([]) == {};
    } else {
      TreeTasks(ts[0]);
      TreesTasks(ts[1..]);
      PartsCount(Tasks(ts[0]), TasksAll(ts[1..]));
    }
  }

  lemma {:induction false} NoBasesMissed(store: Store, tasks: seq<Task>, b: Bases)
    requires forall k | k in tasks :: !k.BaseName?
    ensures MissedBases(store, tasks, b) == 0
    decreases |tasks|
  {
    if tasks != [] {
      NoBasesMissed(store, tasks[1..], Step(store, tasks[0], b));
    }
  }

  /** Binding a type tree counts its uses left unbound and its invalid nodes. */
  lemma TreeCount(store: Store, t: TypeObj, b: Bases)
    requires VisitedOnce(Tasks(t))
    ensures Fails(store, Tasks(t), b) == |UsesIn(t) - Bound(store, Tasks(t), b).Keys| + InvalidNodes(t)
  {
    hide *;
    FailsCount(store, Tasks(t), b);
    TreeTasks(t);
    TypesHaveNoBases(t);
    NoBasesMissed(store, Tasks(t), b);
  }

  // ----- forward links -----

  /** The forward link of a base: unset, to an IDENT, or to an object of another kind, which
      counts as a failure but leaves the link set. */
  datatype Forward = Unset | ToIdent(obj: Obj) | ToOther

  function ForwardOf(store: Store, name: Ari, b: Bases): Forward {
    if !name.Ref? || !Usable(store, name, b) then Unset
    else
      match store.find(name.path)
      case Missing => Unset
      case Ident(obj) => if obj.Some? then ToIdent(obj.value) else Unset
      case Typedef(desc) => if desc.Some? then ToOther else Unset
      case OtherObject(hasDesc) => if hasDesc then ToOther else Unset
  }

  /** The forward links of a list of bases. */
  function Forwards(store: Store, names: seq<Ari>, b: Bases): (links: seq<Forward>)
    ensures |links| == |names|
  {
    if names == [] then [] else [ForwardOf(store, names[0], b)] + Forwards(store, names[1..], b)
  }

  lemma {:induction false} ForwardsSnoc(store: Store, names: seq<Ari>, name: Ari, b: Bases)
    ensures Forwards(store, names + [name], b) == Forwards(store, names, b) + [ForwardOf(store, name, b)]
  {
    hide ForwardOf;
    if names == [] {
      assert [] + [name] == [name] && [name][1..] == [];
    } else {
      assert (names + [name])[1..] == names[1..] + [name];
      ForwardsSnoc(store, names[1..], name, b);
    }
  }

  type ForwardLinks = map<Obj, seq<Forward>>

  /** The forward links after visiting one object, and after a pass. */
  function Forwarded(store: Store, o: Object, b: Bases, forward: ForwardLinks): ForwardLinks {
    if o.desc.IdentDesc? then forward[o.id := Forwards(store, o.desc.bases, Bound(store, TasksOf(o), b))] else forward
  }

  function ForwardedAll(store: Store, objs: seq<Object>, b: Bases, forward: ForwardLinks): ForwardLinks
    decreases |objs|
  {
    if objs == [] then forward
    else ForwardedAll(store, objs[1..], Bound(store, TasksOf(objs[0]), b), Forwarded(store, objs[0], b, forward))
  }

  // ----- reverse links -----

  type Derived = map<Obj, seq<Obj>>

  function Push(derived: Derived, d: Obj, o: Obj): Derived {
    derived[d := DerivedOf(derived, d) + [o]]
  }

  function DerivedOf(derived: Derived, d: Obj): seq<Obj> {
    if d in derived then derived[d] else []
  }

  function PushAll(derived: Derived, links: seq<Link>): Derived
    decreases |links|
  {
    if links == [] then derived else PushAll(Push(derived, links[0].base, links[0].derived), links[1..])
  }

  lemma {:induction false} PushedInParts(derived: Derived, xs: seq<Link>, ys: seq<Link>)
    ensures PushAll(derived, xs + ys) == PushAll(PushAll(derived, xs), ys)
    decreases |xs|
  {
    if xs == [] {
      assert xs + ys == ys;
    } else {
      assert (xs + ys)[1..] == xs[1..] + ys;
      PushedInParts(Push(derived, xs[0].base, xs[0].derived), xs[1..], ys);
    }
  }

  lemma FirstName(store: Store, o: Obj, names: seq<Ari>, b: Bases, derived: Derived)
    requires names != []
    ensures var found, rest := IdentFromName(store, names[0], b), Names(o, names[1..]);
            && Fails(store, Names(o, names), b) == (if found.None? then 1 else 0) + Fails(store, rest, b)
            && PushAll(derived, Made(store, Names(o, names), b)) ==
               PushAll(if found.Some? then Push(derived, found.value, o) else derived, Made(store, rest, b))
  {
    var tasks, rest := Names(o, names), Names(o, names[1..]);
    assert tasks[1..] == rest;
    FirstTask(store, tasks, b);
    PushedInParts(derived, MadeFirst(store, tasks, b), Made(store, rest, b));
    var first := MadeFirst(store, tasks, b);
    if first != [] {
      assert first[1..] == [];
    }
  }

  /** The types of an object, then its bases. */
  lemma ObjectParts(store: Store, o: Object, b: Bases)
    requires !o.desc.NoDesc? && !o.desc.UnknownKind?
    ensures var types, names := TasksAll(TypesOf(o)), Names(o.id, BasesOf(o));
            var mid := Bound(store, types, b);
            && Bound(store, TasksOf(o), b) == mid
            && Made(store, TasksOf(o), b) == Made(store, names, mid)
            && Fails(store, TasksOf(o), b) == Fails(store, types, b) + Fails(store, names, mid)
  {
    assert TasksOf(o) == TasksAll(TypesOf(o)) + Names(o.id, BasesOf(o));
    hide *;
    var types, names := TasksAll(TypesOf(o)), Names(o.id, BasesOf(o));
    var mid := Bound(store, types, b);
    Appended(store, types, names, b);
    AllTypesHaveNoBases(TypesOf(o));
    NoBasesNoLinks(store, types, b);
    NamesBindNothing(store, o.id, BasesOf(o), mid);
    assert [] + Made(store, names, mid) == Made(store, names, mid);
  }

  lemma ObjectLinks(store: Store, o: Object, b: Bases, derived: Derived, forward: ForwardLinks)
    ensures o.desc.IdentDesc? ==>
              && BasesOf(o) == o.desc.bases
              && Forwarded(store, o, b, forward) ==
                 forward[o.id := Forwards(store, o.desc.bases, Bound(store, TasksOf(o), b))]
    ensures !o.desc.IdentDesc? ==>
              && Forwarded(store, o, b, forward) == forward
              && forall c: Bases :: Fails(store, Names(o.id, BasesOf(o)), c) == 0 &&
                                    PushAll(derived, Made(store, Names(o.id, BasesOf(o)), c)) == derived
  {
    hide TasksOf;
  }

  lemma FirstObject(store: Store, objs: seq<Object>, b: Bases, derived: Derived)
    requires objs != []
    ensures var o, rest := TasksOf(objs[0]), Pass(objs[1..]);
            var mid := Bound(store, o, b);
            && Bound(store, Pass(objs), b) == Bound(store, rest, mid)
            && Fails(store, Pass(objs), b) == Fails(store, o, b) + Fails(store, rest, mid)
            && PushAll(derived, Made(store, Pass(objs), b)) ==
               PushAll(PushAll(derived, Made(store, o, b)), Made(store, rest, mid))
    ensures forall forward: ForwardLinks :: ForwardedAll(store, objs, b, forward) ==
              ForwardedAll(store, objs[1..], Bound(store, TasksOf(objs[0]), b), Forwarded(store, objs[0], b, forward))
  {
    hide Bound, Made, Fails, TasksOf, PushAll, Forwarded;
    var o, rest := TasksOf(objs[0]), Pass(objs[1..]);
    Appended(store, o, rest, b);
    PushedInParts(derived, Made(store, o, b), Made(store, rest, Bound(store, o, b)));
  }

  // ----- the binder -----

  class Binder {
    const store: Store
    var base: Bases
    var derived: Derived
    var forward: ForwardLinks

    method BindUse(leaf: Leaf) returns (fails: nat)
      modifies this`base
      ensures base == Bound(store, [TypeUse(leaf)], old(base))
      ensures fails == Fails(store, [TypeUse(leaf)], old(base))
    {
      assert [TypeUse(leaf)][1..] == [];
      if leaf in base {
        assert base[leaf := base[leaf]] == base;
        return 0;
      }
      var found := TypeFromName(store, leaf.name, base);
      if found.Some? {
        base := base[leaf := found.value];
        return 0;
      }
      fails := 1;
    }

    method BindType(t: TypeObj) returns (fails: nat)
      modifies this`base
      ensures base == Bound(store, Tasks(t), old(base))
      ensures fails == Fails(store, Tasks(t), old(base))
      ensures VisitedOnce(Tasks(t)) ==> fails == |UsesIn(t) - base.Keys| + InvalidNodes(t)
      decreases t, 1
    {
      if VisitedOnce(Tasks(t)) {
        TreeCount(store, t, base);
      }
      hide VisitedOnce, UsesIn, InvalidNodes;
      assert [Unusable][1..] == [];
      match t {
        case Invalid => fails := 1;
        case OtherClass => fails := 1;
        case Use(leaf) => fails := BindUse(leaf);
        case UList(item) => fails := BindType(item);
        case DList(types) => fails := BindTypes(types);
        case UMap(key, val) =>
          Appended(store, Tasks(key), Tasks(val), base);
          var k := BindType(key);
          var v := BindType(val);
          fails := k + v;
        case Tblt(columns) => fails := BindTypes(columns);
        case Union(choices) => fails := BindTypes(choices);
        case Sequence(item) => fails := BindType(item);
      }
    }

    /** Bind a list of types one after the other, adding up the failures. */
    method BindTypes(ts: seq<TypeObj>) returns (fails: nat)
      modifies this`base
      ensures base == Bound(store, TasksAll(ts), old(base))
      ensures fails == Fails(store, TasksAll(ts), old(base))
      decreases ts, 0
    {
      fails := 0;
      var i := 0;
      assert ts[0..] == ts;
      while i < |ts|
        invariant 0 <= i <= |ts|
        invariant Bound(store, TasksAll(ts[i..]), base) == Bound(store, TasksAll(ts), old(base))
        invariant fails + Fails(store, TasksAll(ts[i..]), base) == Fails(store, TasksAll(ts), old(base))
      {
        hide Bound, Fails, Tasks;
        assert ts[i..][0] == ts[i] && ts[i..][1..] == ts[i + 1..];
        Appended(store, Tasks(ts[i]), TasksAll(ts[i + 1..]), base);
        var n := BindType(ts[i]);
        fails := fails + n;
        i := i + 1;
      }
    }

    /** Link an IDENT to its bases, forward and back; a base that is not an IDENT, cannot be
        found, or does not accept the given parameters counts as a failure. */
    method BindIdentBases(o: Obj, names: seq<Ari>) returns (fails: nat)
      modifies this`derived, this`forward
      ensures derived == PushAll(old(derived), Made(store, Names(o, names), base))
      ensures forward == old(forward)[o := Forwards(store, names, base)]
      ensures fails == Fails(store, Names(o, names), base)
    {
      fails := 0;
      var links := [];
      var i := 0;
      assert names[0..] == names && names[..0] == [];
      while i < |names|
        invariant 0 <= i <= |names| && forward == old(forward)
        invariant PushAll(derived, Made(store, Names(o, names[i..]), base)) ==
                  PushAll(old(derived), Made(store, Names(o, names), base))
        invariant fails + Fails(store, Names(o, names[i..]), base) == Fails(store, Names(o, names), base)
        invariant links == Forwards(store, names[..i], base)
      {
        assert names[i..][0] == names[i] && names[i..][1..] == names[i + 1..];
        assert names[..i + 1] == names[..i] + [names[i]];
        ForwardsSnoc(store, names[..i], names[i], base);
        FirstName(store, o, names[i..], base, derived);
        hide *;
        links := links + [ForwardOf(store, names[i], base)];
        match IdentFromName(store, names[i], base) {
          case Some(d) => derived := Push(derived, d, o);
          case None => fails := fails + 1;
        }
        i := i + 1;
      }
      assert names[..|names|] == names;
      forward := forward[o := links];
    }

    method BindObject(o: Object) returns (fails: nat)
      modifies this`base, this`derived, this`forward
      ensures base == Bound(store, TasksOf(o), old(base))
      ensures derived == PushAll(old(derived), Made(store, TasksOf(o), old(base)))
      ensures forward == Forwarded(store, o, old(base), old(forward))
      ensures fails == Fails(store, TasksOf(o), old(base))
      ensures VisitedOnce(TasksOf(o)) ==>
                fails == |Uses(TasksOf(o)) - base.Keys| + Unusables(TasksOf(o)) +
                         MissedBases(store, TasksOf(o), old(base))
    {
      if VisitedOnce(TasksOf(o)) {
        FailsCount(store, TasksOf(o), base);
      }
      hide VisitedOnce, Uses, Unusables, MissedBases;
      if o.desc.NoDesc? || o.desc.UnknownKind? {
        assert [Unusable][1..] == [];
        return 1;
      }
      ObjectParts(store, o, base);
      ObjectLinks(store, o, base, derived, forward);
      hide *;
      fails := BindTypes(TypesOf(o));
      if o.desc.IdentDesc? {
        var n := BindIdentBases(o.id, o.desc.bases);
        fails := fails + n;
      }
    }

    /** Bind every object, one after the other. */
    method BindAll(objs: seq<Object>) returns (fails: nat)
      modifies this`base, this`derived, this`forward
      ensures base == Bound(store, Pass(objs), old(base))
      ensures derived == PushAll(old(derived), Made(store, Pass(objs), old(base)))
      ensures forward == ForwardedAll(store, objs, old(base), old(forward))
      ensures fails == Fails(store, Pass(objs), old(base))
      ensures VisitedOnce(Pass(objs)) ==>
                fails == |Uses(Pass(objs)) - base.Keys| + Unusables(Pass(objs)) +
                         MissedBases(store, Pass(objs), old(base))
    {
      if VisitedOnce(Pass(objs)) {
        FailsCount(store, Pass(objs), base);
      }
      hide VisitedOnce, Uses, Unusables, MissedBases;
      fails := 0;
      var i := 0;
      assert objs[0..] == objs;
      while i < |objs|
        invariant 0 <= i <= |objs|
        invariant Bound(store, Pass(objs[i..]), base) == Bound(store, Pass(objs), old(base))
        invariant PushAll(derived, Made(store, Pass(objs[i..]), base)) ==
                  PushAll(old(derived), Made(store, Pass(objs), old(base)))
        invariant ForwardedAll(store, objs[i..], base, forward) == ForwardedAll(store, objs, old(base), old(forward))
        invariant fails + Fails(store, Pass(objs[i..]), base) == Fails(store, Pass(objs), old(base))
      {
        assert objs[i..][0] == objs[i] && objs[i..][1..] == objs[i + 1..];
        FirstObject(store, objs[i..], base, derived);
        hide *;
        var n := BindObject(objs[i]);
        fails := fails + n;
        i := i + 1;
      }
    }
  }
}
