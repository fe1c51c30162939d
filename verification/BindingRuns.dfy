/** What a pass of binding keeps, when a repeat gives the same answers, and what a larger store
    changes. */
module BindingRuns {
  import opened Wrappers
  import opened Values
  import opened Binding

  // ----- what every pass keeps -----

  lemma GrownTwice(store: Store, b: Bases, c: Bases, d: Bases)
    requires Grown(store, b, c) && Grown(store, c, d)
    ensures Grown(store, b, d)
  {
  }

  /** The i-th attempt is answered with what the attempts before it have bound. */
  lemma {:induction false} AnsweredWhenReached(store: Store, tasks: seq<Task>, b: Bases, i: nat)
    requires i < |tasks|
    ensures Answers(store, tasks, b)[i] == Answer(store, tasks[i], Bound(store, tasks[..i], b))
    decreases i
  {
    hide Answer, Step;
    if i > 0 {
      AnsweredWhenReached(store, tasks[1..], Step(store, tasks[0], b), i - 1);
      assert tasks[..i][1..] == tasks[1..][..i - 1];
    }
  }

  /** A use is counted as a failure exactly when it is unbound at the end of the pass, each use
      being visited once. */
  lemma {:induction false} UnboundAtEnd(store: Store, tasks: seq<Task>, b: Bases, i: nat)
    requires VisitedOnce(tasks) && i < |tasks| && tasks[i].TypeUse?
    ensures Answers(store, tasks, b)[i].None? <==> tasks[i].leaf !in Bound(store, tasks, b)
    decreases i
  {
    var b' := Step(store, tasks[0], b);
    if i > 0 {
      UnboundAtEnd(store, tasks[1..], b', i - 1);
    } else {
      NeverRebinds(store, tasks[1..], b');
    }
  }

  // ----- repeating a pass -----

  /** Every name is answered at the end of the pass as it was when it was reached. */
  predicate Settled(store: Store, tasks: seq<Task>, b: Bases) {
    forall i | 0 <= i < |tasks| ::
      Answer(store, tasks[i], Bound(store, tasks, b)) == Answers(store, tasks, b)[i]
  }

  /** Nothing more to bind: the pass leaves everything as it is, and each task is answered with
      all of it. */
  lemma {:induction false} Quiet(store: Store, tasks: seq<Task>, c: Bases)
    requires forall k | k in tasks && k.TypeUse? && Answer(store, k, c).Some? :: k.leaf in c
    ensures Bound(store, tasks, c) == c
    ensures forall i | 0 <= i < |tasks| :: Answers(store, tasks, c)[i] == Answer(store, tasks[i], c)
    decreases |tasks|
  {
    if tasks != [] {
      var k := tasks[0];
      if k.TypeUse? && Answer(store, k, c).Some? {
        assert c[k.leaf := c[k.leaf]] == c;
      }
      assert Step(store, k, c) == c;
      Quiet(store, tasks[1..], c);
    }
  }

  lemma {:induction false} AnsweredIsBound(store: Store, tasks: seq<Task>, b: Bases)
    ensures forall i | 0 <= i < |tasks| && tasks[i].TypeUse? && Answers(store, tasks, b)[i].Some? ::
              tasks[i].leaf in Bound(store, tasks, b)
    decreases |tasks|
  {
    if tasks != [] {
      var b' := Step(store, tasks[0], b);
      AnsweredIsBound(store, tasks[1..], b');
      NeverRebinds(store, tasks[1..], b');
    }
  }

  lemma SameTails(store: Store, tasks: seq<Task>, b: Bases, c: Bases)
    requires tasks != [] && Answers(store, tasks, b) == Answers(store, tasks, c)
    ensures Answer(store, tasks[0], b) == Answer(store, tasks[0], c)
    ensures Answers(store, tasks[1..], Step(store, tasks[0], b)) == Answers(store, tasks[1..], Step(store, tasks[0], c))
  {
    hide Answer, Step;
    assert Answers(store, tasks, b)[0] == Answers(store, tasks, c)[0];
    assert Answers(store, tasks, b)[1..] == Answers(store, tasks[1..], Step(store, tasks[0], b));
    assert Answers(store, tasks, c)[1..] == Answers(store, tasks[1..], Step(store, tasks[0], c));
  }

  lemma GrownStep(store: Store, task: Task, b: Bases, c: Bases)
    requires Grown(store, b, c) && Answer(store, task, b) == Answer(store, task, c)
    ensures Grown(store, Step(store, task, b), Step(store, task, c))
  {
  }

  /** With equal answers, what is bound from `b` is added to `c`. */
  lemma {:induction false} SameAnswersMerge(store: Store, tasks: seq<Task>, b: Bases, c: Bases)
    requires Grown(store, b, c) && Answers(store, tasks, b) == Answers(store, tasks, c)
    ensures Bound(store, tasks, c) == c + Bound(store, tasks, b)
    decreases |tasks|
  {
    if tasks == [] {
      assert c + b == c;
    } else {
      var b', c' := Step(store, tasks[0], b), Step(store, tasks[0], c);
      SameTails(store, tasks, b, c);
      GrownStep(store, tasks[0], b, c);
      SameAnswersMerge(store, tasks[1..], b', c');
      NeverRebinds(store, tasks[1..], b');
      assert c' + Bound(store, tasks, b) == c + Bound(store, tasks, b);
    }
  }

  /** A repeat of a pass gives the same answers exactly when each name is answered at the end of
      the pass as when it was reached; and then it binds nothing more. */
  lemma RepeatIff(store: Store, tasks: seq<Task>, b: Bases)
    ensures var end := Bound(store, tasks, b);
            && (Answers(store, tasks, end) == Answers(store, tasks, b) <==> Settled(store, tasks, b))
            && (Settled(store, tasks, b) ==> Bound(store, tasks, end) == end)
  {
    var end := Bound(store, tasks, b);
    NeverRebinds(store, tasks, b);
    if Settled(store, tasks, b) {
      SettledQuiet(store, tasks, b);
    }
    if Answers(store, tasks, end) == Answers(store, tasks, b) {
      SameAnswersMerge(store, tasks, b, end);
      assert end + end == end;
      StaysPut(store, tasks, end);
    }
  }

  lemma SettledQuiet(store: Store, tasks: seq<Task>, b: Bases)
    requires Settled(store, tasks, b)
    ensures var end := Bound(store, tasks, b);
            Bound(store, tasks, end) == end && Answers(store, tasks, end) == Answers(store, tasks, b)
  {
    var end := Bound(store, tasks, b);
    AnsweredIsBound(store, tasks, b);
    forall k | k in tasks && k.TypeUse? && Answer(store, k, end).Some?
      ensures k.leaf in end
    {
      var i :| 0 <= i < |tasks| && tasks[i] == k;
      assert Answer(store, tasks[i], end) == Answers(store, tasks, b)[i];
    }
    Quiet(store, tasks, end);
  }

  /** A pass that binds nothing answers every task with what was bound before. */
  lemma {:induction false} StaysPut(store: Store, tasks: seq<Task>, c: Bases)
    requires Bound(store, tasks, c) == c
    ensures forall i | 0 <= i < |tasks| :: Answers(store, tasks, c)[i] == Answer(store, tasks[i], c)
    ensures forall k | k in tasks && k.TypeUse? && Answer(store, k, c).Some? :: k.leaf in c
    decreases |tasks|
  {
    if tasks != [] {
      var c' := Step(store, tasks[0], c);
      NeverRebinds(store, tasks[1..], c');
      assert c' == c;
      StaysPut(store, tasks[1..], c);
    }
  }

  // ----- growing stores and growing bindings -----

  /** A value that converts to a type still does when more uses are bound. */
  ghost predicate Monotone(store: Store) {
    forall t, v, b, c | Grown(store, b, c) && Converts(store, t, v, b) :: Converts(store, t, v, c)
  }

  /** `more` holds every object of `less`, unchanged, and converts alike. */
  ghost predicate Extends(more: Store, less: Store) {
    && (forall p | !less.find(p).Missing? :: SameObject(more, less, p))
    && (forall a | less.builtin(a).Some? :: more.builtin(a) == less.builtin(a))
    && (forall t, v, b :: more.convert(t, v, b) == less.convert(t, v, b))
  }

  ghost predicate SameObject(more: Store, less: Store, p: Path) {
    && more.find(p) == less.find(p) && more.fparams(p) == less.fparams(p)
    && forall named :: more.keyed(p, named) == less.keyed(p, named)
  }

  /** Whatever one attempt gets from the store `less`, it gets from the store `more` with at
      least the same uses bound. */
  ghost predicate AtLeast(more: Store, less: Store) {
    forall k, b, c | Grown(more, b, c) && Answer(less, k, b).Some? :: Answer(more, k, c) == Answer(less, k, b)
  }

  lemma AcceptedAtLeast(more: Store, less: Store, path: Path, params: Params, b: Bases, c: Bases)
    requires Extends(more, less) && Monotone(more) && Grown(more, b, c) && !less.find(path).Missing?
    requires Accepted(less, path, params, b)
    ensures Accepted(more, path, params, c)
  {
    assert SameObject(more, less, path);
    assert forall t, v | Converts(less, t, v, b) :: Converts(more, t, v, c) by {
      forall t, v | Converts(less, t, v, b)
        ensures Converts(more, t, v, c)
      {
        assert Converts(more, t, v, b);
      }
    }
    hide Grown, Monotone, Extends, Converts;
  }

  lemma UsableAtLeast(more: Store, less: Store, name: Ari, b: Bases, c: Bases)
    requires Extends(more, less) && Monotone(more) && Grown(more, b, c) && Usable(less, name, b)
    requires NamedType(less, name).Some? || NamedIdent(less, name).Some?
    ensures Usable(more, name, c)
    ensures NamedType(less, name).Some? ==> NamedType(more, name) == NamedType(less, name)
    ensures NamedIdent(less, name).Some? ==> NamedIdent(more, name) == NamedIdent(less, name)
  {
    if name.Ref? {
      AcceptedAtLeast(more, less, name.path, name.params, b, c);
      assert SameObject(more, less, name.path);
    }
    hide Accepted, Monotone, Grown;
  }

  lemma ExtendsAtLeast(more: Store, less: Store)
    requires Extends(more, less) && Monotone(more)
    ensures AtLeast(more, less)
  {
    forall k, b, c | Grown(more, b, c) && Answer(less, k, b).Some?
      ensures Answer(more, k, c) == Answer(less, k, b)
    {
      hide Monotone, Extends, Usable, NamedType, NamedIdent;
      if k.TypeUse? && k.leaf !in b {
        UsableAtLeast(more, less, k.leaf.name, b, c);
      } else if k.BaseName? {
        UsableAtLeast(more, less, k.name, b, c);
      }
    }
  }

  lemma SelfAtLeast(store: Store)
    requires Monotone(store)
    ensures AtLeast(store, store)
  {
    hide Monotone, AtLeast;
    assert forall p :: SameObject(store, store, p);
    ExtendsAtLeast(store, store);
  }

  lemma StepAtLeast(more: Store, less: Store, k: Task, b: Bases, c: Bases)
    requires AtLeast(more, less) && Grown(more, b, c)
    ensures Answer(less, k, b).Some? ==> Answer(more, k, c).Some?
    ensures Grown(more, Step(less, k, b), Step(more, k, c))
  {
  }

  /** The same attempts succeed. */
  predicate SameOutcomes(xs: seq<Option<nat>>, ys: seq<Option<nat>>) {
    |xs| == |ys| && forall i | 0 <= i < |xs| :: xs[i].Some? <==> ys[i].Some?
  }

  lemma SameOutcomesCons(x: Option<nat>, xs: seq<Option<nat>>, y: Option<nat>, ys: seq<Option<nat>>)
    ensures SameOutcomes([x] + xs, [y] + ys) <==> (x.Some? <==> y.Some?) && SameOutcomes(xs, ys)
  {
    var xs', ys' := [x] + xs, [y] + ys;
    assert xs'[0] == x && ys'[0] == y && |xs'| == |xs| + 1 && |ys'| == |ys| + 1;
    assert forall i | 0 < i < |xs'| :: xs'[i] == xs[i - 1];
    assert forall i | 0 < i < |ys'| :: ys'[i] == ys[i - 1];
    if |xs| == |ys| && SameOutcomes(xs', ys') {
      forall i | 0 <= i < |xs|
        ensures xs[i].Some? <==> ys[i].Some?
      {
        assert xs'[i + 1] == xs[i] && ys'[i + 1] == ys[i];
      }
    }
  }

  lemma {:induction false} FailsFewer(more: Store, less: Store, tasks: seq<Task>, b: Bases, c: Bases)
    requires AtLeast(more, less) && Grown(more, b, c)
    ensures Fails(more, tasks, c) <= Fails(less, tasks, b)
    ensures Grown(more, Bound(less, tasks, b), Bound(more, tasks, c))
    ensures Fails(more, tasks, c) == Fails(less, tasks, b) <==>
            SameOutcomes(Answers(more, tasks, c), Answers(less, tasks, b))
    decreases |tasks|
  {
    if tasks == [] {
    } else {
      hide *;
      var b', c' := Step(less, tasks[0], b), Step(more, tasks[0], c);
      StepAtLeast(more, less, tasks[0], b, c);
      FailsFewer(more, less, tasks[1..], b', c');
      FirstTask(more, tasks, c);
      FirstTask(less, tasks, b);
      SameOutcomesCons(Answer(more, tasks[0], c), Answers(more, tasks[1..], c'),
                       Answer(less, tasks[0], b), Answers(less, tasks[1..], b'));
    }
  }

  /** A store that holds more objects binds at least the same uses to the same types and never
      counts more failures; it counts the same exactly when the same attempts succeed. */
  lemma LargerStore(more: Store, less: Store, tasks: seq<Task>, b: Bases)
    requires Extends(more, less) && Monotone(more)
    ensures Fails(more, tasks, b) <= Fails(less, tasks, b)
    ensures Grown(more, Bound(less, tasks, b), Bound(more, tasks, b))
    ensures Fails(more, tasks, b) == Fails(less, tasks, b) <==>
            SameOutcomes(Answers(more, tasks, b), Answers(less, tasks, b))
  {
    assert Grown(more, b, b);
    hide *;
    ExtendsAtLeast(more, less);
    FailsFewer(more, less, tasks, b, b);
  }

  lemma {:induction false} SameOutcomesSameAnswers(store: Store, tasks: seq<Task>, b: Bases, c: Bases)
    requires Grown(store, b, c) && SameOutcomes(Answers(store, tasks, c), Answers(store, tasks, b))
    ensures Answers(store, tasks, c) == Answers(store, tasks, b)
    decreases |tasks|
  {
    if tasks == [] {
    } else {
      FirstTask(store, tasks, b);
      FirstTask(store, tasks, c);
      var b', c' := Step(store, tasks[0], b), Step(store, tasks[0], c);
      SameOutcomesCons(Answer(store, tasks[0], c), Answers(store, tasks[1..], c'),
                       Answer(store, tasks[0], b), Answers(store, tasks[1..], b'));
      hide Answers, SameOutcomes;
      assert Answer(store, tasks[0], b) == Answer(store, tasks[0], c);
      GrownStep(store, tasks[0], b, c);
      SameOutcomesSameAnswers(store, tasks[1..], b', c');
    }
  }

  /** When binding more never makes a lookup fail, a repeat never counts more, and it counts the
      same exactly when no name is found at the end of the pass that was not found when it was
      reached. */
  lemma RepeatCountIff(store: Store, tasks: seq<Task>, b: Bases)
    requires Monotone(store)
    ensures var end := Bound(store, tasks, b);
            && Fails(store, tasks, end) <= Fails(store, tasks, b)
            && (Fails(store, tasks, end) == Fails(store, tasks, b) <==>
                forall i | 0 <= i < |tasks| && Answer(store, tasks[i], end).Some? :: Answers(store, tasks, b)[i].Some?)
  {
    var end := Bound(store, tasks, b);
    NeverRebinds(store, tasks, b);
    SelfAtLeast(store);
    hide Monotone, AtLeast;
    FailsFewer(store, store, tasks, b, end);
    if Fails(store, tasks, end) == Fails(store, tasks, b) {
      SameOutcomesSameAnswers(store, tasks, b, end);
      RepeatIff(store, tasks, b);
    }
    if forall i | 0 <= i < |tasks| && Answer(store, tasks[i], end).Some? :: Answers(store, tasks, b)[i].Some? {
      AnsweredIsBound(store, tasks, b);
      forall k | k in tasks && k.TypeUse? && Answer(store, k, end).Some?
        ensures k.leaf in end
      {
        var i :| 0 <= i < |tasks| && tasks[i] == k;
        assert Answers(store, tasks, b)[i].Some?;
      }
      Quiet(store, tasks, end);
      OutcomesGrow(store, tasks, b, end);
    }
  }

  lemma {:induction false} OutcomesGrow(store: Store, tasks: seq<Task>, b: Bases, c: Bases)
    requires Monotone(store) && Grown(store, b, c)
    ensures forall i | 0 <= i < |tasks| && Answers(store, tasks, b)[i].Some? :: Answers(store, tasks, c)[i].Some?
    decreases |tasks|
  {
    if tasks != [] {
      SelfAtLeast(store);
      hide Monotone;
      StepAtLeast(store, store, tasks[0], b, c);
      OutcomesGrow(store, tasks[1..], Step(store, tasks[0], b), Step(store, tasks[0], c));
    }
  }
}
