/** When the order of the objects does not matter to a pass of binding. */
module BindingOrder {
  import opened Wrappers
  import opened Lists
  import opened Binding
  import opened BindingRuns

  // ----- the order of the objects -----

  /** `xs`, then `o`, then `ys` is an order of the objects. */
  ghost predicate Ordered(objs: seq<Object>, xs: seq<Object>, o: Object, ys: seq<Object>) {
    multiset(xs + [o] + ys) == multiset(objs)
  }

  /** What an object is answered is the same in every order of the objects. */
  ghost predicate OrderFree(store: Store, objs: seq<Object>, b: Bases) {
    forall o, xs, ys, xs', ys' | Ordered(objs, xs, o, ys) && Ordered(objs, xs', o, ys') ::
      Answers(store, TasksOf(o), Bound(store, Pass(xs), b)) == Answers(store, TasksOf(o), Bound(store, Pass(xs'), b))
  }

  /** What the objects bind when each is tried on its own, starting from `b`. */
  function Merged(store: Store, objs: seq<Object>, b: Bases): Bases {
    if objs == [] then b
    else Merged(store, objs[..|objs| - 1], b) + Bound(store, TasksOf(objs[|objs| - 1]), b)
  }

  /** Some of the objects, apart from `o`. */
  ghost predicate Others(objs: seq<Object>, xs: seq<Object>, o: Object) {
    multiset(xs + [o]) <= multiset(objs)
  }

  /** No object is answered otherwise when some of the others have been tried, each on its own. */
  ghost predicate Independent(store: Store, objs: seq<Object>, b: Bases) {
    forall o, xs | Others(objs, xs, o) ::
      Answers(store, TasksOf(o), Merged(store, xs, b)) == Answers(store, TasksOf(o), b)
  }

  lemma {:induction false} PassSnoc(xs: seq<Object>, o: Object)
    ensures Pass(xs + [o]) == Pass(xs) + TasksOf(o)
  {
    hide TasksOf;
    if xs == [] {
      assert xs + [o] == [o] && [o][1..] == [];
      assert Pass([o]) == TasksOf(o) + Pass([]);
    } else {
      PassSnoc(xs[1..], o);
      assert (xs + [o])[1..] == xs[1..] + [o];
      assert TasksOf(xs[0]) + (Pass(xs[1..]) + TasksOf(o)) == TasksOf(xs[0]) + Pass(xs[1..]) + TasksOf(o);
    }
  }

  lemma MergedSnoc(store: Store, xs: seq<Object>, o: Object, b: Bases)
    ensures Merged(store, xs + [o], b) == Merged(store, xs, b) + Bound(store, TasksOf(o), b)
  {
    assert (xs + [o])[..|xs|] == xs;
  }

  lemma BoundSnoc(store: Store, xs: seq<Object>, o: Object, b: Bases)
    ensures Bound(store, Pass(xs + [o]), b) == Bound(store, TasksOf(o), Bound(store, Pass(xs), b))
  {
    PassSnoc(xs, o);
    Appended(store, Pass(xs), TasksOf(o), b);
  }

  /** `c` and `d` hold what they have beyond `b` under the same names. */
  lemma GrownMerge(store: Store, b: Bases, c: Bases, d: Bases)
    requires Grown(store, b, c) && Grown(store, b, d)
    ensures Grown(store, b, c + d)
  {
  }

  lemma {:induction false} MergedGrown(store: Store, xs: seq<Object>, b: Bases)
    ensures Grown(store, b, Merged(store, xs, b))
    decreases |xs|
  {
    if xs != [] {
      var o := xs[|xs| - 1];
      MergedGrown(store, xs[..|xs| - 1], b);
      NeverRebinds(store, TasksOf(o), b);
      GrownMerge(store, b, Merged(store, xs[..|xs| - 1], b), Bound(store, TasksOf(o), b));
    }
  }

  /** What is in `Merged`, whatever the order. */
  lemma {:induction false} MergedKeys(store: Store, xs: seq<Object>, b: Bases, u: Leaf)
    ensures u in Merged(store, xs, b) <==> u in b || exists o | o in xs :: u in Bound(store, TasksOf(o), b)
    decreases |xs|
  {
    hide Bound, TasksOf;
    if xs != [] {
      var front, o := LastOf(xs);
      MergedKeys(store, front, b, u);
      MergedSnoc(store, front, o, b);
      hide Merged;
      assert forall p :: p in xs <==> p in front || p == o;
    }
  }

  lemma OthersOfPrefix(objs: seq<Object>, xs: seq<Object>, o: Object, ys: seq<Object>)
    requires Ordered(objs, xs, o, ys)
    ensures Others(objs, xs, o)
  {
    assert multiset(xs + [o] + ys) == multiset(xs + [o]) + multiset(ys);
  }

  lemma IndependentHere(store: Store, objs: seq<Object>, b: Bases, xs: seq<Object>, o: Object)
    requires Independent(store, objs, b) && multiset(xs) + multiset{o} <= multiset(objs)
    ensures Answers(store, TasksOf(o), Merged(store, xs, b)) == Answers(store, TasksOf(o), b)
  {
    assert Others(objs, xs, o);
  }

  /** With the answers that the last object gets alone, a pass binds in addition what it binds
      alone. */
  lemma PassMerges(store: Store, front: seq<Object>, o: Object, b: Bases)
    requires Bound(store, Pass(front), b) == Merged(store, front, b)
    requires Answers(store, TasksOf(o), Merged(store, front, b)) == Answers(store, TasksOf(o), b)
    ensures Bound(store, Pass(front + [o]), b) == Merged(store, front + [o], b)
  {
    hide *;
    NeverRebinds(store, Pass(front), b);
    BoundSnoc(store, front, o, b);
    MergedSnoc(store, front, o, b);
    SameAnswersMerge(store, TasksOf(o), b, Bound(store, Pass(front), b));
  }

  lemma {:induction false} IndependentPasses(store: Store, objs: seq<Object>, b: Bases, xs: seq<Object>)
    requires Independent(store, objs, b) && multiset(xs) <= multiset(objs)
    ensures Bound(store, Pass(xs), b) == Merged(store, xs, b)
    decreases |xs|
  {
    if xs == [] {
    } else {
      hide *;
      var front, o := LastOf(xs);
      IndependentPasses(store, objs, b, front);
      IndependentHere(store, objs, b, front, o);
      PassMerges(store, front, o, b);
    }
  }

  lemma {:induction false} OrderFreePasses(store: Store, objs: seq<Object>, b: Bases, xs: seq<Object>)
    requires OrderFree(store, objs, b) && multiset(xs) <= multiset(objs)
    ensures Bound(store, Pass(xs), b) == Merged(store, xs, b)
    decreases |xs|
  {
    if xs == [] {
    } else {
      hide *;
      var front, o := LastOf(xs);
      OrderFreePasses(store, objs, b, front);
      OrderFreeAlone(store, objs, b, front, o);
      PassMerges(store, front, o, b);
    }
  }

  lemma NothingYet(store: Store, b: Bases)
    ensures Bound(store, Pass([]), b) == b
  {
  }

  lemma SameInTwoOrders(store: Store, objs: seq<Object>, b: Bases, o: Object, xs: seq<Object>, ys: seq<Object>,
                        xs': seq<Object>, ys': seq<Object>)
    requires OrderFree(store, objs, b)
    requires multiset(xs + [o] + ys) == multiset(objs) && multiset(xs' + [o] + ys') == multiset(objs)
    ensures Answers(store, TasksOf(o), Bound(store, Pass(xs), b)) ==
            Answers(store, TasksOf(o), Bound(store, Pass(xs'), b))
  {
    hide Answers, Bound, TasksOf, Pass;
    assert Ordered(objs, xs, o, ys) && Ordered(objs, xs', o, ys');
  }

  /** In some order the object comes first. */
  lemma OrderFreeAlone(store: Store, objs: seq<Object>, b: Bases, xs: seq<Object>, o: Object)
    requires OrderFree(store, objs, b) && multiset(xs) + multiset{o} <= multiset(objs)
    ensures Answers(store, TasksOf(o), Bound(store, Pass(xs), b)) == Answers(store, TasksOf(o), b)
  {
    hide *;
    NothingYet(store, b);
    var ys := Completed(objs, xs + [o]);
    BroughtForward(xs, o, ys);
    SameInTwoOrders(store, objs, b, o, xs, ys, [], xs + ys);
  }

  /** For every store: the order of the objects does not matter exactly when no object is
      answered otherwise because some of the others have been tried. */
  lemma OrderIff(store: Store, objs: seq<Object>, b: Bases)
    ensures OrderFree(store, objs, b) <==> Independent(store, objs, b)
  {
    if OrderFree(store, objs, b) {
      forall o, xs | Others(objs, xs, o)
        ensures Answers(store, TasksOf(o), Merged(store, xs, b)) == Answers(store, TasksOf(o), b)
      {
        assert multiset(xs + [o]) == multiset(xs) + multiset{o};
        OrderFreePasses(store, objs, b, xs);
        OrderFreeAlone(store, objs, b, xs, o);
      }
    }
    if Independent(store, objs, b) {
      forall o, xs, ys, xs', ys' | Ordered(objs, xs, o, ys) && Ordered(objs, xs', o, ys')
        ensures Answers(store, TasksOf(o), Bound(store, Pass(xs), b)) ==
                Answers(store, TasksOf(o), Bound(store, Pass(xs'), b))
      {
        IndependentAnswer(store, objs, b, xs, o, ys);
        IndependentAnswer(store, objs, b, xs', o, ys');
      }
    }
  }

  lemma IndependentAnswer(store: Store, objs: seq<Object>, b: Bases, xs: seq<Object>, o: Object, ys: seq<Object>)
    requires Independent(store, objs, b) && Ordered(objs, xs, o, ys)
    ensures Answers(store, TasksOf(o), Bound(store, Pass(xs), b)) == Answers(store, TasksOf(o), b)
  {
    OthersOfPrefix(objs, xs, o, ys);
    assert multiset(xs + [o]) == multiset(xs) + multiset{o};
    IndependentPasses(store, objs, b, xs);
  }

  /** Every object counts the same alone and after all the others. */
  predicate SameLast(store: Store, objs: seq<Object>, b: Bases) {
    forall k | 0 <= k < |objs| ::
      Fails(store, TasksOf(objs[k]), Merged(store, Without(objs, k), b)) == Fails(store, TasksOf(objs[k]), b)
  }

  lemma IndependentSameLast(store: Store, objs: seq<Object>, b: Bases, k: nat)
    requires Independent(store, objs, b) && k < |objs|
    ensures Fails(store, TasksOf(objs[k]), Merged(store, Without(objs, k), b)) == Fails(store, TasksOf(objs[k]), b)
  {
    hide *;
    TakenOut(objs, k);
    IndependentHere(store, objs, b, Without(objs, k), objs[k]);
    SameAnswersSameFails(store, TasksOf(objs[k]), b, Merged(store, Without(objs, k), b));
  }

  lemma SameLastHere(store: Store, objs: seq<Object>, b: Bases, xs: seq<Object>, o: Object)
    requires Monotone(store) && SameLast(store, objs, b) && Others(objs, xs, o)
    ensures Answers(store, TasksOf(o), Merged(store, xs, b)) == Answers(store, TasksOf(o), b)
  {
    hide Monotone, Fails, Answers, TasksOf, Merged, Without;
    assert multiset(xs + [o]) == multiset(xs) + multiset{o};
    Member(o, objs);
    var k :| 0 <= k < |objs| && objs[k] == o;
    TakenOut(objs, k);
    OneLess(multiset(xs), multiset(Without(objs, k)), o);
    Between(store, xs, Without(objs, k), o, b);
  }

  /** When binding more never makes a lookup fail, one check for each object decides: does it
      count the same alone and after all the others? */
  lemma OrderCountIff(store: Store, objs: seq<Object>, b: Bases)
    requires Monotone(store)
    ensures OrderFree(store, objs, b) <==> SameLast(store, objs, b)
  {
    OrderIff(store, objs, b);
    hide OrderFree, Monotone, Fails, Answers, TasksOf, Merged, Without, Others;
    if Independent(store, objs, b) {
      forall k | 0 <= k < |objs|
        ensures Fails(store, TasksOf(objs[k]), Merged(store, Without(objs, k), b)) == Fails(store, TasksOf(objs[k]), b)
      {
        IndependentSameLast(store, objs, b, k);
      }
    }
    if SameLast(store, objs, b) {
      forall o, xs | Others(objs, xs, o)
        ensures Answers(store, TasksOf(o), Merged(store, xs, b)) == Answers(store, TasksOf(o), b)
      {
        SameLastHere(store, objs, b, xs, o);
      }
    }
  }

  lemma {:induction false} SameAnswersSameFails(store: Store, tasks: seq<Task>, b: Bases, c: Bases)
    requires Answers(store, tasks, b) == Answers(store, tasks, c)
    ensures Fails(store, tasks, b) == Fails(store, tasks, c)
    ensures Made(store, tasks, b) == Made(store, tasks, c)
    decreases |tasks|
  {
    if tasks == [] {
    } else {
      SameTails(store, tasks, b, c);
      FirstTask(store, tasks, b);
      FirstTask(store, tasks, c);
      hide *;
      SameAnswersSameFails(store, tasks[1..], Step(store, tasks[0], b), Step(store, tasks[0], c));
    }
  }

  lemma MergedWithin(store: Store, xs: seq<Object>, all: seq<Object>, b: Bases, u: Leaf)
    requires multiset(xs) <= multiset(all) && u in Merged(store, xs, b)
    ensures u in Merged(store, all, b)
  {
    hide Merged, Bound, TasksOf;
    MergedKeys(store, xs, b, u);
    MergedKeys(store, all, b, u);
    if u !in b {
      var o :| o in xs && u in Bound(store, TasksOf(o), b);
      Member(o, xs);
      Member(o, all);
    }
  }

  lemma MergedChain(store: Store, xs: seq<Object>, all: seq<Object>, b: Bases)
    requires multiset(xs) <= multiset(all)
    ensures Grown(store, b, Merged(store, xs, b)) && Grown(store, Merged(store, xs, b), Merged(store, all, b))
  {
    MergedGrown(store, xs, b);
    MergedGrown(store, all, b);
    hide Merged;
    forall u | u in Merged(store, xs, b)
      ensures u in Merged(store, all, b)
    {
      MergedWithin(store, xs, all, b, u);
    }
  }

  /** Fewer of the others have been tried: the count lies between the two extremes. */
  lemma Between(store: Store, xs: seq<Object>, all: seq<Object>, o: Object, b: Bases)
    requires Monotone(store) && multiset(xs) <= multiset(all)
    requires Fails(store, TasksOf(o), Merged(store, all, b)) == Fails(store, TasksOf(o), b)
    ensures Answers(store, TasksOf(o), Merged(store, xs, b)) == Answers(store, TasksOf(o), b)
  {
    var some, every := Merged(store, xs, b), Merged(store, all, b);
    MergedChain(store, xs, all, b);
    SelfAtLeast(store);
    hide *;
    FailsFewer(store, store, TasksOf(o), b, some);
    FailsFewer(store, store, TasksOf(o), some, every);
    SameOutcomesSameAnswers(store, TasksOf(o), b, some);
  }

  // ----- an order that does not matter -----

  function FailsAlone(store: Store, objs: seq<Object>, b: Bases): nat {
    if objs == [] then 0 else Fails(store, TasksOf(objs[0]), b) + FailsAlone(store, objs[1..], b)
  }

  function MadeAlone(store: Store, objs: seq<Object>, b: Bases): multiset<Link> {
    if objs == [] then multiset{} else multiset(Made(store, TasksOf(objs[0]), b)) + MadeAlone(store, objs[1..], b)
  }

  lemma {:induction false} AloneParts(store: Store, xs: seq<Object>, ys: seq<Object>, b: Bases)
    ensures FailsAlone(store, xs + ys, b) == FailsAlone(store, xs, b) + FailsAlone(store, ys, b)
    ensures MadeAlone(store, xs + ys, b) == MadeAlone(store, xs, b) + MadeAlone(store, ys, b)
  {
    hide Fails, Made, TasksOf;
    if xs == [] {
      assert xs + ys == ys;
    } else {
      assert (xs + ys)[1..] == xs[1..] + ys;
      AloneParts(store, xs[1..], ys, b);
    }
  }

  lemma AloneOne(store: Store, o: Object, b: Bases)
    ensures FailsAlone(store, [o], b) == Fails(store, TasksOf(o), b)
    ensures MadeAlone(store, [o], b) == multiset(Made(store, TasksOf(o), b))
  {
    hide Fails, Made, TasksOf;
    assert [o][1..] == [];
  }

  lemma AloneWithout(store: Store, objs: seq<Object>, i: nat, b: Bases)
    requires i < |objs|
    ensures FailsAlone(store, objs, b) == Fails(store, TasksOf(objs[i]), b) + FailsAlone(store, Without(objs, i), b)
    ensures MadeAlone(store, objs, b) ==
            multiset(Made(store, TasksOf(objs[i]), b)) + MadeAlone(store, Without(objs, i), b)
  {
    hide Fails, Made, TasksOf, FailsAlone, MadeAlone;
    assert objs == objs[..i] + [objs[i]] + objs[i + 1..];
    AloneParts(store, objs[..i] + [objs[i]], objs[i + 1..], b);
    AloneParts(store, objs[..i], [objs[i]], b);
    AloneParts(store, objs[..i], objs[i + 1..], b);
    AloneOne(store, objs[i], b);
  }

  lemma {:induction false} AloneReordered(store: Store, objs: seq<Object>, objs': seq<Object>, b: Bases)
    requires multiset(objs) == multiset(objs')
    ensures FailsAlone(store, objs, b) == FailsAlone(store, objs', b)
    ensures MadeAlone(store, objs, b) == MadeAlone(store, objs', b)
    decreases |objs|
  {
    hide *;
    if objs == [] {
      assert |multiset(objs')| == 0;
    } else {
      var x, rest := FirstOf(objs);
      Member(x, objs');
      var i :| 0 <= i < |objs'| && objs'[i] == x;
      TakenOut(objs', i);
      OneLess(multiset(rest), multiset(Without(objs', i)), x);
      OneLess(multiset(Without(objs', i)), multiset(rest), x);
      AloneReordered(store, rest, Without(objs', i), b);
      AloneParts(store, [x], rest, b);
      AloneOne(store, x, b);
      AloneWithout(store, objs', i, b);
    }
  }

  lemma {:induction false} IndependentTotals(store: Store, objs: seq<Object>, b: Bases, xs: seq<Object>)
    requires Independent(store, objs, b) && multiset(xs) <= multiset(objs)
    ensures Fails(store, Pass(xs), b) == FailsAlone(store, xs, b)
    ensures multiset(Made(store, Pass(xs), b)) == MadeAlone(store, xs, b)
    decreases |xs|
  {
    if xs == [] {
    } else {
      hide *;
      var front, o := LastOf(xs);
      IndependentTotals(store, objs, b, front);
      IndependentPasses(store, objs, b, front);
      PassSnoc(front, o);
      Appended(store, Pass(front), TasksOf(o), b);
      IndependentHere(store, objs, b, front, o);
      SameAnswersSameFails(store, TasksOf(o), b, Bound(store, Pass(front), b));
      AloneParts(store, front, [o], b);
      AloneOne(store, o, b);
    }
  }

  /** When the order does not matter, any order binds the same uses, counts the same failures
      and makes the same links. */
  lemma AnyOrder(store: Store, objs: seq<Object>, objs': seq<Object>, b: Bases)
    requires OrderFree(store, objs, b) && multiset(objs) == multiset(objs')
    ensures Bound(store, Pass(objs), b) == Bound(store, Pass(objs'), b)
    ensures Fails(store, Pass(objs), b) == Fails(store, Pass(objs'), b)
    ensures multiset(Made(store, Pass(objs), b)) == multiset(Made(store, Pass(objs'), b))
  {
    hide Fails, Bound, Made, Pass, TasksOf, OrderFree, Independent;
    OrderIff(store, objs, b);
    IndependentPasses(store, objs, b, objs);
    IndependentPasses(store, objs, b, objs');
    IndependentTotals(store, objs, b, objs);
    IndependentTotals(store, objs, b, objs');
    AloneReordered(store, objs, objs', b);
    MergedReordered(store, objs, objs', b);
  }

  lemma MergedReordered(store: Store, objs: seq<Object>, objs': seq<Object>, b: Bases)
    requires multiset(objs) == multiset(objs')
    ensures Merged(store, objs, b) == Merged(store, objs', b)
  {
    MergedGrown(store, objs, b);
    MergedGrown(store, objs', b);
    hide Bound, TasksOf, Merged;
    var x, y := Merged(store, objs, b), Merged(store, objs', b);
    forall u
      ensures u in x <==> u in y
    {
      if u in x {
        MergedWithin(store, objs, objs', b, u);
      }
      if u in y {
        MergedWithin(store, objs', objs, b, u);
      }
    }
    assert x.Keys == y.Keys;
    assert forall u | u in x :: x[u] == y[u];
  }
}
