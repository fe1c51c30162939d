/** Conditions on repeats and orders that can be checked before a pass, from the names alone. They
    are for type uses whose names are accepted or refused whatever is bound, as they are when
    nothing is given: no TYPEDEF binds its own formal parameters. */
module BindingChecks {
  import opened Wrappers
  import opened Values
  import opened Lists
  import opened Binding
  import opened BindingRuns
  import opened BindingOrder
  import opened BindingPasses

  /** Whether the name of a use is accepted does not depend on what is bound beyond `b`. */
  ghost predicate Steady(store: Store, u: Leaf, b: Bases) {
    forall c | Grown(store, b, c) :: Usable(store, u.name, c) == Usable(store, u.name, b)
  }

  ghost predicate AllSteady(store: Store, uses: set<Leaf>, b: Bases) {
    forall u | u in uses :: Steady(store, u, b)
  }

  lemma PlainIsSteady(store: Store, u: Leaf, b: Bases)
    requires PlainName(u.name)
    ensures Steady(store, u, b)
  {
  }

  /** What trying the uses will bind, read off their names. */
  function Closed(store: Store, uses: set<Leaf>, b: Bases): Bases {
    map u | u in b.Keys + uses && (u in b || TypeFromName(store, u.name, b).Some?) ::
      if u in b then b[u] else TypeFromName(store, u.name, b).value
  }

  lemma ClosedGrown(store: Store, uses: set<Leaf>, more: set<Leaf>, b: Bases)
    requires uses <= more
    ensures Grown(store, b, Closed(store, uses, b)) && Grown(store, Closed(store, uses, b), Closed(store, more, b))
  {
    hide Usable;
  }

  lemma ClosedNone(store: Store, b: Bases)
    ensures Closed(store, {}, b) == b
  {
  }

  /** One use more. */
  lemma ClosedStep(store: Store, done: set<Leaf>, u: Leaf, b: Bases)
    requires Steady(store, u, b)
    ensures Answer(store, TypeUse(u), Closed(store, done, b)) ==
            if u in b then Some(b[u]) else TypeFromName(store, u.name, b)
    ensures Step(store, TypeUse(u), Closed(store, done, b)) == Closed(store, done + {u}, b)
  {
    var c := Closed(store, done, b);
    ClosedGrown(store, done, done, b);
    assert Usable(store, u.name, c) == Usable(store, u.name, b);
    hide Usable, Steady, Grown;
    var d := Closed(store, done + {u}, b);
    if u in c || TypeFromName(store, u.name, b).Some? {
      assert c[u := d[u]] == d;
    } else {
      assert c == d;
    }
  }

  /** A pass binds what can be read off the names. */
  lemma {:induction false} BoundIsClosed(store: Store, tasks: seq<Task>, done: set<Leaf>, b: Bases)
    requires AllSteady(store, Uses(tasks), b)
    ensures Bound(store, tasks, Closed(store, done, b)) == Closed(store, done + Uses(tasks), b)
    decreases |tasks|
  {
    if tasks == [] {
      assert done + Uses(tasks) == done;
    } else {
      FirstTask(store, tasks, Closed(store, done, b));
      PartsCount([tasks[0]], tasks[1..]);
      assert [tasks[0]] + tasks[1..] == tasks;
      var first := Uses([tasks[0]]);
      assert tasks[0].TypeUse? ==> tasks[0] in [tasks[0]];
      assert first == if tasks[0].TypeUse? then {tasks[0].leaf} else {};
      hide Steady, Bound, Closed, Answer, Grown;
      BoundIsClosed(store, tasks[1..], done + first, b);
      assert done + first + Uses(tasks[1..]) == done + Uses(tasks);
      if tasks[0].TypeUse? {
        ClosedStep(store, done, tasks[0].leaf, b);
      } else {
        assert done + first == done;
      }
    }
  }

  lemma PassIsClosed(store: Store, tasks: seq<Task>, b: Bases)
    requires AllSteady(store, Uses(tasks), b)
    ensures Bound(store, tasks, b) == Closed(store, Uses(tasks), b)
  {
    hide *;
    ClosedNone(store, b);
    BoundIsClosed(store, tasks, {}, b);
    assert {} + Uses(tasks) == Uses(tasks);
  }

  // ----- repeating a pass -----

  /** Each base leads to the same object with the uses before it as with all of them. */
  predicate FoundWhenReached(store: Store, tasks: seq<Task>, b: Bases) {
    forall i | 0 <= i < |tasks| && tasks[i].BaseName? ::
      IdentFromName(store, tasks[i].name, Closed(store, Uses(tasks[..i]), b)) ==
      IdentFromName(store, tasks[i].name, Closed(store, Uses(tasks), b))
  }

  lemma UsesOfPrefix(tasks: seq<Task>, i: nat)
    requires i <= |tasks|
    ensures Uses(tasks[..i]) <= Uses(tasks)
  {
  }

  lemma AnsweredAt(store: Store, tasks: seq<Task>, b: Bases, i: nat)
    requires AllSteady(store, Uses(tasks), b) && i < |tasks|
    ensures Answers(store, tasks, b)[i] == Answer(store, tasks[i], Closed(store, Uses(tasks[..i]), b))
  {
    UsesOfPrefix(tasks, i);
    hide Steady, Answer, Closed, Bound, Answers;
    AnsweredWhenReached(store, tasks, b, i);
    PassIsClosed(store, tasks[..i], b);
  }

  /** A repeat gives the same answers exactly when each base leads, with the types visited before
      it, where it leads with all of them. */
  lemma RepeatByNames(store: Store, tasks: seq<Task>, b: Bases)
    requires AllSteady(store, Uses(tasks), b)
    ensures Settled(store, tasks, b) <==> FoundWhenReached(store, tasks, b)
  {
    PassIsClosed(store, tasks, b);
    var end := Closed(store, Uses(tasks), b);
    forall i | 0 <= i < |tasks|
      ensures (Answer(store, tasks[i], end) == Answers(store, tasks, b)[i]) <==>
              (tasks[i].BaseName? ==> IdentFromName(store, tasks[i].name, Closed(store, Uses(tasks[..i]), b)) ==
                                      IdentFromName(store, tasks[i].name, end))
    {
      AnsweredAt(store, tasks, b, i);
      hide Closed, Bound, Answers, IdentFromName, Steady;
      if tasks[i].TypeUse? {
        assert tasks[i] in tasks && tasks[i].leaf in Uses(tasks);
        hide Answer;
        ClosedStep(store, Uses(tasks[..i]), tasks[i].leaf, b);
        ClosedStep(store, Uses(tasks), tasks[i].leaf, b);
      }
    }
    hide Closed, Bound, Answers, IdentFromName, Steady, Answer;
  }

  /** One repeat is enough: whatever the order and the store, the first pass binds the same uses,
      and every later pass finds the same and counts the same. */
  lemma OneRepeatSuffices(store: Store, tasks: seq<Task>, tasks': seq<Task>, b: Bases)
    requires AllSteady(store, Uses(tasks), b) && multiset(tasks) == multiset(tasks')
    ensures var end := Bound(store, tasks, b);
            && Bound(store, tasks', b) == end && Bound(store, tasks, end) == end
            && Settled(store, tasks, end)
            && Fails(store, tasks, end) == Fails(store, tasks', end)
  {
    hide Steady, Answer, Bound, Closed, Answers, Fails;
    assert Uses(tasks) == Uses(tasks') by {
      forall k
        ensures k in tasks <==> k in tasks'
      {
        Member(k, tasks);
        Member(k, tasks');
      }
    }
    var end := Bound(store, tasks, b);
    PassIsClosed(store, tasks, b);
    PassIsClosed(store, tasks', b);
    BoundIsClosed(store, tasks, Uses(tasks), b);
    BoundIsClosed(store, tasks', Uses(tasks), b);
    assert Uses(tasks) + Uses(tasks) == Uses(tasks);
    StaysPut(store, tasks, end);
    StaysPut(store, tasks', end);
    FailsAtRest(store, tasks, end);
    FailsAtRest(store, tasks', end);
    SumReordered(Miss(store, end), tasks, tasks');
  }

  // ----- the order of the objects -----

  lemma {:induction false} NamesAnswered(store: Store, o: Obj, names: seq<Ari>, b: Bases, c: Bases)
    ensures Answers(store, Names(o, names), b) == Answers(store, Names(o, names), c) <==>
            forall n | n in names :: IdentFromName(store, n, b) == IdentFromName(store, n, c)
  {
    if names == [] {
    } else {
      var tasks := Names(o, names);
      assert tasks[1..] == Names(o, names[1..]);
      FirstTask(store, tasks, b);
      FirstTask(store, tasks, c);
      NamesAnswered(store, o, names[1..], b, c);
      assert names == [names[0]] + names[1..];
      hide IdentFromName, Answers;
      ConsEqual(IdentFromName(store, names[0], b), Answers(store, tasks[1..], b),
                IdentFromName(store, names[0], c), Answers(store, tasks[1..], c));
    }
  }

  lemma ConsEqual<T>(x: T, xs: seq<T>, y: T, ys: seq<T>)
    ensures [x] + xs == [y] + ys <==> x == y && xs == ys
  {
    if [x] + xs == [y] + ys {
      assert ([x] + xs)[0] == ([y] + ys)[0] && ([x] + xs)[1..] == xs && ([y] + ys)[1..] == ys;
    }
  }

  lemma AppendEqual<T>(xs: seq<T>, ys: seq<T>, zs: seq<T>)
    ensures xs + ys == xs + zs <==> ys == zs
  {
    if xs + ys == xs + zs {
      assert (xs + ys)[|xs|..] == ys && (xs + zs)[|xs|..] == zs;
    }
  }

  /** Type uses are answered alike whatever else has been tried. */
  lemma {:induction false} TypesAnswered(store: Store, tasks: seq<Task>, b: Bases, done: set<Leaf>, done': set<Leaf>)
    requires AllSteady(store, Uses(tasks), b) && forall k | k in tasks :: !k.BaseName?
    ensures Answers(store, tasks, Closed(store, done, b)) == Answers(store, tasks, Closed(store, done', b))
    decreases |tasks|
  {
    if tasks == [] {
    } else {
      var k, c, c' := tasks[0], Closed(store, done, b), Closed(store, done', b);
      FirstTask(store, tasks, c);
      FirstTask(store, tasks, c');
      assert forall x | x in tasks[1..] :: x in tasks;
      assert k in tasks;
      hide Steady, Closed, Answers;
      if k.TypeUse? {
        assert k.leaf in Uses(tasks);
        ClosedStep(store, done, k.leaf, b);
        ClosedStep(store, done', k.leaf, b);
        TypesAnswered(store, tasks[1..], b, done + {k.leaf}, done' + {k.leaf});
      } else {
        TypesAnswered(store, tasks[1..], b, done, done');
      }
    }
  }

  lemma {:induction false} NamesUseNothing(o: Obj, names: seq<Ari>)
    ensures Uses(Names(o, names)) == {}
  {
    if names != [] {
      NamesUseNothing(o, names[1..]);
      PartsCount([BaseName(o, names[0])], Names(o, names[1..]));
    }
  }

  /** An object is answered alike after two selections of others exactly when its bases lead to
      the same objects. */
  lemma ObjectAnswered(store: Store, o: Object, b: Bases, done: set<Leaf>, done': set<Leaf>)
    requires AllSteady(store, Uses(TasksOf(o)), b)
    ensures Answers(store, TasksOf(o), Closed(store, done, b)) == Answers(store, TasksOf(o), Closed(store, done', b)) <==>
            forall n | n in BasesOf(o) ::
              IdentFromName(store, n, Closed(store, done + Uses(TasksOf(o)), b)) ==
              IdentFromName(store, n, Closed(store, done' + Uses(TasksOf(o)), b))
  {
    if o.desc.NoDesc? || o.desc.UnknownKind? {
      assert [Unusable][1..] == [] && BasesOf(o) == [];
    } else {
      var types, names := TasksAll(TypesOf(o)), Names(o.id, BasesOf(o));
      assert TasksOf(o) == types + names;
      hide *;
      var c, c' := Closed(store, done, b), Closed(store, done', b);
      PartsCount(types, names);
      NamesUseNothing(o.id, BasesOf(o));
      assert Uses(TasksOf(o)) == Uses(types);
      Appended(store, types, names, c);
      Appended(store, types, names, c');
      AllTypesHaveNoBases(TypesOf(o));
      TypesAnswered(store, types, b, done, done');
      BoundIsClosed(store, types, done, b);
      BoundIsClosed(store, types, done', b);
      AppendEqual(Answers(store, types, c), Answers(store, names, Bound(store, types, c)),
                  Answers(store, names, Bound(store, types, c')));
      NamesAnswered(store, o.id, BasesOf(o), Bound(store, types, c), Bound(store, types, c'));
    }
  }

  /** Each base leads to the same object after any selection of the others. */
  ghost predicate FoundAnywhere(store: Store, objs: seq<Object>, b: Bases) {
    forall o, xs, n | Others(objs, xs, o) && n in BasesOf(o) ::
      IdentFromName(store, n, Closed(store, Uses(Pass(xs)) + Uses(TasksOf(o)), b)) ==
      IdentFromName(store, n, Closed(store, Uses(TasksOf(o)), b))
  }

  /** Each base leads to the same object with the types of its own object bound as with all. */
  predicate FoundAlone(store: Store, objs: seq<Object>, b: Bases) {
    forall o, n | o in objs && n in BasesOf(o) ::
      IdentFromName(store, n, Closed(store, Uses(TasksOf(o)), b)) ==
      IdentFromName(store, n, Closed(store, Uses(Pass(objs)), b))
  }

  lemma UsesOfObject(objs: seq<Object>, o: Object)
    requires o in objs
    ensures Uses(TasksOf(o)) <= Uses(Pass(objs))
  {
    hide TasksOf, Pass;
    TasksInPass(objs, o);
  }

  lemma UsesOfSelection(objs: seq<Object>, xs: seq<Object>)
    requires multiset(xs) <= multiset(objs)
    ensures Uses(Pass(xs)) <= Uses(Pass(objs))
  {
    hide TasksOf, Pass;
    var ys := Completed(objs, xs);
    PassReordered(xs + ys, objs);
    PassParts(xs, ys);
    forall k | k in Pass(xs)
      ensures k in Pass(objs)
    {
      assert k in Pass(xs + ys);
      Member(k, Pass(xs + ys));
      Member(k, Pass(objs));
    }
  }

  lemma SelectionBound(store: Store, objs: seq<Object>, xs: seq<Object>, b: Bases)
    requires AllSteady(store, Uses(Pass(objs)), b) && multiset(xs) <= multiset(objs)
    ensures Bound(store, Pass(xs), b) == Closed(store, Uses(Pass(xs)), b)
  {
    UsesOfSelection(objs, xs);
    hide Steady, Uses, Bound, Closed;
    PassIsClosed(store, Pass(xs), b);
  }

  lemma ObjectAfter(store: Store, objs: seq<Object>, xs: seq<Object>, o: Object, b: Bases)
    requires AllSteady(store, Uses(Pass(objs)), b) && multiset(xs) + multiset{o} <= multiset(objs)
    ensures Answers(store, TasksOf(o), Bound(store, Pass(xs), b)) == Answers(store, TasksOf(o), b) <==>
            forall n | n in BasesOf(o) ::
              IdentFromName(store, n, Closed(store, Uses(Pass(xs)) + Uses(TasksOf(o)), b)) ==
              IdentFromName(store, n, Closed(store, Uses(TasksOf(o)), b))
  {
    Member(o, objs);
    UsesOfObject(objs, o);
    hide Steady, Uses, Bound, Closed, TasksOf, Pass, Answers, BasesOf, IdentFromName;
    SelectionBound(store, objs, xs, b);
    ClosedNone(store, b);
    ObjectAnswered(store, o, b, Uses(Pass(xs)), {});
    assert {} + Uses(TasksOf(o)) == Uses(TasksOf(o));
  }

  /** For every store, the order of the objects does not matter exactly when each base leads to
      the same object whatever others have been visited. */
  lemma OrderByNames(store: Store, objs: seq<Object>, b: Bases)
    requires AllSteady(store, Uses(Pass(objs)), b)
    ensures OrderFree(store, objs, b) <==> FoundAnywhere(store, objs, b)
  {
    hide Steady, Uses, Bound, Closed, TasksOf, Pass, Answers, BasesOf, IdentFromName, AllSteady;
    if OrderFree(store, objs, b) {
      forall o, xs, n | Others(objs, xs, o) && n in BasesOf(o)
        ensures IdentFromName(store, n, Closed(store, Uses(Pass(xs)) + Uses(TasksOf(o)), b)) ==
                IdentFromName(store, n, Closed(store, Uses(TasksOf(o)), b))
      {
        assert multiset(xs + [o]) == multiset(xs) + multiset{o};
        hide OrderFree;
        OrderFreeAlone(store, objs, b, xs, o);
        ObjectAfter(store, objs, xs, o, b);
      }
    }
    if FoundAnywhere(store, objs, b) {
      forall o, xs, ys, xs', ys' | Ordered(objs, xs, o, ys) && Ordered(objs, xs', o, ys')
        ensures Answers(store, TasksOf(o), Bound(store, Pass(xs), b)) ==
                Answers(store, TasksOf(o), Bound(store, Pass(xs'), b))
      {
        FoundAfter(store, objs, xs, o, ys, b);
        FoundAfter(store, objs, xs', o, ys', b);
      }
    }
  }

  lemma FoundAfter(store: Store, objs: seq<Object>, xs: seq<Object>, o: Object, ys: seq<Object>, b: Bases)
    requires AllSteady(store, Uses(Pass(objs)), b) && FoundAnywhere(store, objs, b) && Ordered(objs, xs, o, ys)
    ensures Answers(store, TasksOf(o), Bound(store, Pass(xs), b)) == Answers(store, TasksOf(o), b)
  {
    hide Steady, Uses, Bound, Closed, TasksOf, Pass, Answers, BasesOf, IdentFromName, AllSteady;
    OthersOfPrefix(objs, xs, o, ys);
    assert multiset(xs + [o]) == multiset(xs) + multiset{o};
    ObjectAfter(store, objs, xs, o, b);
  }

  lemma FoundBetween(store: Store, n: Ari, b: Bases, few: set<Leaf>, some: set<Leaf>, all: set<Leaf>)
    requires Monotone(store) && few <= some <= all
    requires IdentFromName(store, n, Closed(store, few, b)) == IdentFromName(store, n, Closed(store, all, b))
    ensures IdentFromName(store, n, Closed(store, some, b)) == IdentFromName(store, n, Closed(store, few, b))
  {
    SelfAtLeast(store);
    ClosedGrown(store, few, some, b);
    ClosedGrown(store, some, all, b);
    hide Monotone, Closed, AtLeast;
    StepAtLeast(store, store, BaseName(0, n), Closed(store, few, b), Closed(store, some, b));
    StepAtLeast(store, store, BaseName(0, n), Closed(store, some, b), Closed(store, all, b));
  }

  /** When binding more never makes a conversion fail, one lookup for each base decides: does it
      lead, with only the types of its own object bound, where it leads with all of them? */
  lemma OrderByOwnNames(store: Store, objs: seq<Object>, b: Bases)
    requires AllSteady(store, Uses(Pass(objs)), b) && Monotone(store)
    ensures OrderFree(store, objs, b) <==> FoundAlone(store, objs, b)
  {
    OrderByNames(store, objs, b);
    hide Steady, Uses, Closed, TasksOf, Pass, BasesOf, IdentFromName, AllSteady, OrderFree, Monotone;
    if FoundAnywhere(store, objs, b) {
      forall o, n | o in objs && n in BasesOf(o)
        ensures IdentFromName(store, n, Closed(store, Uses(TasksOf(o)), b)) ==
                IdentFromName(store, n, Closed(store, Uses(Pass(objs)), b))
      {
        var k :| 0 <= k < |objs| && objs[k] == o;
        TakenOut(objs, k);
        OthersAndOwn(objs, k);
        assert Others(objs, Without(objs, k), o);
      }
    }
    if FoundAlone(store, objs, b) {
      forall o, xs, n | Others(objs, xs, o) && n in BasesOf(o)
        ensures IdentFromName(store, n, Closed(store, Uses(Pass(xs)) + Uses(TasksOf(o)), b)) ==
                IdentFromName(store, n, Closed(store, Uses(TasksOf(o)), b))
      {
        assert multiset(xs + [o]) == multiset(xs) + multiset{o};
        Member(o, objs);
        UsesOfObject(objs, o);
        UsesOfSelection(objs, xs);
        FoundBetween(store, n, b, Uses(TasksOf(o)), Uses(Pass(xs)) + Uses(TasksOf(o)), Uses(Pass(objs)));
      }
    }
  }

  lemma OthersAndOwn(objs: seq<Object>, k: nat)
    requires k < |objs|
    ensures Uses(Pass(Without(objs, k))) + Uses(TasksOf(objs[k])) == Uses(Pass(objs))
  {
    hide TasksOf, Without;
    var o, rest := objs[k], Without(objs, k);
    TakenOut(objs, k);
    assert multiset(rest + [o]) == multiset(objs);
    PassReordered(rest + [o], objs);
    PassSnoc(rest, o);
    PartsCount(Pass(rest), TasksOf(o));
    hide Pass;
    forall x
      ensures x in Pass(rest) + TasksOf(o) <==> x in Pass(objs)
    {
      Member(x, Pass(rest + [o]));
      Member(x, Pass(objs));
    }
    assert Uses(Pass(rest) + TasksOf(o)) == Uses(Pass(objs));
  }
}
