/** Repeated passes of binding: the reverse links they pile up and where they end. */
module BindingPasses {
  import opened Wrappers
  import opened Values
  import opened Arithmetic
  import opened Lists
  import opened Binding
  import opened BindingRuns
  import opened BindingOrder

  // ----- the links of a pass -----

  /** How many bases of `o` were answered with `d`. */
  function LinksTo(tasks: seq<Task>, answers: seq<Option<nat>>, d: Obj, o: Obj): nat
    requires |answers| == |tasks|
  {
    if tasks == [] then 0
    else
      (if tasks[0].BaseName? && tasks[0].owner == o && answers[0] == Some(d) then 1 else 0) +
      LinksTo(tasks[1..], answers[1..], d, o)
  }

  lemma {:induction false} MadeCount(store: Store, tasks: seq<Task>, b: Bases, d: Obj, o: Obj)
    ensures multiset(Made(store, tasks, b))[Link(d, o)] == LinksTo(tasks, Answers(store, tasks, b), d, o)
    decreases |tasks|
  {
    if tasks == [] {
    } else {
      FirstTask(store, tasks, b);
      hide Answer, Step, Made, Answers;
      var b' := Step(store, tasks[0], b);
      MadeCount(store, tasks[1..], b', d, o);
      assert Answers(store, tasks, b)[1..] == Answers(store, tasks[1..], b');
    }
  }

  lemma {:induction false} PushedCount(derived: Derived, links: seq<Link>, d: Obj, o: Obj)
    ensures multiset(DerivedOf(PushAll(derived, links), d))[o] ==
            multiset(DerivedOf(derived, d))[o] + multiset(links)[Link(d, o)]
    decreases |links|
  {
    if links != [] {
      var derived' := Push(derived, links[0].base, links[0].derived);
      PushedCount(derived', links[1..], d, o);
      assert links == [links[0]] + links[1..];
    }
  }

  /** A pass adds to the reverse links of `d` each object as often as its bases were answered
      with `d` in that pass. */
  lemma ReverseLinks(store: Store, tasks: seq<Task>, b: Bases, derived: Derived, d: Obj, o: Obj)
    ensures multiset(DerivedOf(PushAll(derived, Made(store, tasks, b)), d))[o] ==
            multiset(DerivedOf(derived, d))[o] + LinksTo(tasks, Answers(store, tasks, b), d, o)
  {
    PushedCount(derived, Made(store, tasks, b), d, o);
    MadeCount(store, tasks, b, d, o);
  }

  /** The reverse links made for an object are the forward links of its bases. */
  lemma {:induction false} NamesLinkBothWays(store: Store, o: Obj, names: seq<Ari>, b: Bases, d: Obj)
    ensures multiset(Made(store, Names(o, names), b))[Link(d, o)] == multiset(Forwards(store, names, b))[ToIdent(d)]
  {
    if names == [] {
    } else {
      var tasks := Names(o, names);
      assert tasks[1..] == Names(o, names[1..]);
      assert Forwards(store, names, b) == [ForwardOf(store, names[0], b)] + Forwards(store, names[1..], b);
      NameLinksBothWays(store, o, names, b, d);
      hide *;
      FirstTask(store, tasks, b);
      NamesLinkBothWays(store, o, names[1..], b, d);
      CountCons(ForwardOf(store, names[0], b), Forwards(store, names[1..], b), ToIdent(d));
    }
  }

  lemma NameLinksBothWays(store: Store, o: Obj, names: seq<Ari>, b: Bases, d: Obj)
    requires names != []
    ensures var tasks := Names(o, names);
            && Step(store, tasks[0], b) == b
            && multiset(MadeFirst(store, tasks, b))[Link(d, o)] ==
               if ForwardOf(store, names[0], b) == ToIdent(d) then 1 else 0
  {
    hide Accepted;
  }

  lemma CountCons<T>(x: T, xs: seq<T>, y: T)
    ensures multiset([x] + xs)[y] == (if x == y then 1 else 0) + multiset(xs)[y]
  {
  }

  lemma ObjectLinksBothWays(store: Store, o: Object, b: Bases, d: Obj)
    requires o.desc.IdentDesc?
    ensures multiset(Made(store, TasksOf(o), b))[Link(d, o.id)] ==
            multiset(Forwards(store, o.desc.bases, Bound(store, TasksOf(o), b)))[ToIdent(d)]
  {
    ObjectParts(store, o, b);
    hide Made, Forwards, TasksOf, Bound;
    NamesLinkBothWays(store, o.id, o.desc.bases, Bound(store, TasksOf(o), b), d);
  }

  lemma {:induction false} NamesOwner(store: Store, o: Obj, names: seq<Ari>, b: Bases)
    ensures forall l | l in Made(store, Names(o, names), b) :: l.derived == o
  {
    if names == [] {
    } else {
      var tasks := Names(o, names);
      assert tasks[1..] == Names(o, names[1..]);
      FirstTask(store, tasks, b);
      NamesOwner(store, o, names[1..], b);
    }
  }

  lemma MadeOwner(store: Store, o: Object, b: Bases)
    ensures forall l | l in Made(store, TasksOf(o), b) :: l.derived == o.id
  {
    if o.desc.NoDesc? || o.desc.UnknownKind? {
      assert [Unusable][1..] == [];
    } else {
      ObjectParts(store, o, b);
      hide Made, TasksOf;
      NamesOwner(store, o.id, BasesOf(o), Bound(store, TasksAll(TypesOf(o)), b));
    }
  }

  lemma {:induction false} OthersLeaveAlone(store: Store, objs: seq<Object>, b: Bases, forward: ForwardLinks, x: Obj, d: Obj)
    requires forall o | o in objs :: o.id != x
    ensures multiset(Made(store, Pass(objs), b))[Link(d, x)] == 0
    ensures x in forward ==>
              x in ForwardedAll(store, objs, b, forward) && ForwardedAll(store, objs, b, forward)[x] == forward[x]
    decreases |objs|
  {
    if objs == [] {
    } else {
      var mid := Bound(store, TasksOf(objs[0]), b);
      var now := Forwarded(store, objs[0], b, forward);
      MadeOwner(store, objs[0], b);
      Appended(store, TasksOf(objs[0]), Pass(objs[1..]), b);
      assert objs[0] in objs && forall o | o in objs[1..] :: o in objs;
      assert x in forward ==> x in now && now[x] == forward[x];
      hide Made, Bound, TasksOf, Forwarded;
      OthersLeaveAlone(store, objs[1..], mid, now, x, d);
      assert Link(d, x) !in multiset(Made(store, TasksOf(objs[0]), b)) by {
        Member(Link(d, x), Made(store, TasksOf(objs[0]), b));
      }
    }
  }

  lemma OwnIds(objs: seq<Object>)
    requires objs != [] && forall i, j | 0 <= i < j < |objs| :: objs[i].id != objs[j].id
    ensures forall p | p in objs[1..] :: p.id != objs[0].id
    ensures forall p | p in objs && p != objs[0] :: p in objs[1..]
  {
    forall p | p in objs[1..]
      ensures p.id != objs[0].id
    {
      var i :| 0 <= i < |objs[1..]| && objs[1..][i] == p;
      assert objs[i + 1] == p;
    }
    assert objs == [objs[0]] + objs[1..];
  }

  /** After a pass over objects with their own identities, each IDENT is held back by its bases
      exactly as often as its bases point forward to them. */
  lemma {:induction false} LinksBothWays(store: Store, objs: seq<Object>, b: Bases, forward: ForwardLinks, o: Object, d: Obj)
    requires forall i, j | 0 <= i < j < |objs| :: objs[i].id != objs[j].id
    requires o in objs && o.desc.IdentDesc?
    ensures o.id in ForwardedAll(store, objs, b, forward)
    ensures multiset(Made(store, Pass(objs), b))[Link(d, o.id)] ==
            multiset(ForwardedAll(store, objs, b, forward)[o.id])[ToIdent(d)]
    decreases |objs|
  {
    hide Made, Bound, TasksOf, Forwards;
    var mid := Bound(store, TasksOf(objs[0]), b);
    var now := Forwarded(store, objs[0], b, forward);
    Appended(store, TasksOf(objs[0]), Pass(objs[1..]), b);
    OwnIds(objs);
    if objs[0] == o {
      ObjectLinksBothWays(store, o, b, d);
      OthersLeaveAlone(store, objs[1..], mid, now, o.id, d);
    } else {
      MadeOwner(store, objs[0], b);
      hide Forwarded;
      assert Link(d, o.id) !in multiset(Made(store, TasksOf(objs[0]), b)) by {
        Member(Link(d, o.id), Made(store, TasksOf(objs[0]), b));
      }
      LinksBothWays(store, objs[1..], mid, now, o, d);
    }
  }

  // ----- repeated passes -----

  function PassBases(store: Store, tasks: seq<Task>, b: Bases, k: nat): Bases {
    if k == 0 then b else Bound(store, tasks, PassBases(store, tasks, b, k - 1))
  }

  function PassDerived(store: Store, tasks: seq<Task>, b: Bases, derived: Derived, k: nat): Derived {
    if k == 0 then derived
    else
      PushAll(PassDerived(store, tasks, b, derived, k - 1), Made(store, tasks, PassBases(store, tasks, b, k - 1)))
  }

  /** The links from `d` to `o` made in the first k passes. */
  function LinksInPasses(store: Store, tasks: seq<Task>, b: Bases, k: nat, d: Obj, o: Obj): nat {
    if k == 0 then 0
    else
      LinksInPasses(store, tasks, b, k - 1, d, o) +
      LinksTo(tasks, Answers(store, tasks, PassBases(store, tasks, b, k - 1)), d, o)
  }

  /** Type uses are not rebound but reverse links are added again: the lists hold what each pass
      resolved, one after the other. */
  lemma {:induction false} RepeatedPasses(store: Store, tasks: seq<Task>, b: Bases, derived: Derived, k: nat,
                                          d: Obj, o: Obj)
    ensures multiset(DerivedOf(PassDerived(store, tasks, b, derived, k), d))[o] ==
            multiset(DerivedOf(derived, d))[o] + LinksInPasses(store, tasks, b, k, d, o)
  {
    hide Bound, Made, Answers, LinksTo, PushAll, DerivedOf;
    if k > 0 {
      RepeatedPasses(store, tasks, b, derived, k - 1, d, o);
      ReverseLinks(store, tasks, PassBases(store, tasks, b, k - 1), PassDerived(store, tasks, b, derived, k - 1), d, o);
    }
  }

  lemma {:induction false} SettledStays(store: Store, tasks: seq<Task>, b: Bases, k: nat)
    requires Settled(store, tasks, b) && k > 0
    ensures PassBases(store, tasks, b, k) == Bound(store, tasks, b)
    ensures Answers(store, tasks, PassBases(store, tasks, b, k)) == Answers(store, tasks, b)
  {
    RepeatIff(store, tasks, b);
    hide Bound, Answers, Settled;
    if k > 1 {
      SettledStays(store, tasks, b, k - 1);
    }
  }

  /** All passes give the answers of the first one exactly when the first one is settled. */
  lemma EveryPassIff(store: Store, tasks: seq<Task>, b: Bases)
    ensures Settled(store, tasks, b) <==>
            forall k: nat :: Answers(store, tasks, PassBases(store, tasks, b, k)) == Answers(store, tasks, b)
  {
    RepeatIff(store, tasks, b);
    hide Bound, Answers, Settled;
    assert PassBases(store, tasks, b, 1) == Bound(store, tasks, PassBases(store, tasks, b, 0));
    if Settled(store, tasks, b) {
      forall k: nat
        ensures Answers(store, tasks, PassBases(store, tasks, b, k)) == Answers(store, tasks, b)
      {
        if k > 0 {
          SettledStays(store, tasks, b, k);
        }
      }
    } else {
      assert Answers(store, tasks, PassBases(store, tasks, b, 1)) != Answers(store, tasks, b);
    }
  }

  /** After a settled first pass, k passes hold each of its links k times. */
  lemma {:induction false} SettledPasses(store: Store, tasks: seq<Task>, b: Bases, k: nat, d: Obj, o: Obj)
    requires Settled(store, tasks, b)
    ensures LinksInPasses(store, tasks, b, k, d, o) == k * LinksTo(tasks, Answers(store, tasks, b), d, o)
  {
    hide Bound, Answers, Settled, LinksTo;
    if k > 0 {
      SettledPasses(store, tasks, b, k - 1, d, o);
      MulStep(k, LinksTo(tasks, Answers(store, tasks, b), d, o));
      if k > 1 {
        SettledStays(store, tasks, b, k - 1);
      }
    }
  }

  // ----- where repeated passes end -----

  /** How many uses are unbound. */
  function Needed(tasks: seq<Task>, b: Bases): nat {
    |Uses(tasks) - b.Keys|
  }

  /** How many uses are still unbound after k passes. */
  function Left(store: Store, tasks: seq<Task>, b: Bases, k: nat): nat {
    Needed(tasks, PassBases(store, tasks, b, k))
  }

  lemma NextPass(store: Store, tasks: seq<Task>, b: Bases, k: nat)
    ensures PassBases(store, tasks, b, k + 1) == Bound(store, tasks, PassBases(store, tasks, b, k))
  {
    hide Bound;
  }

  lemma PassGrows(store: Store, tasks: seq<Task>, b: Bases, k: nat)
    ensures PassBases(store, tasks, b, k + 1) == PassBases(store, tasks, b, k) ||
            Left(store, tasks, b, k + 1) < Left(store, tasks, b, k)
  {
    var x, y := PassBases(store, tasks, b, k), PassBases(store, tasks, b, k + 1);
    NextPass(store, tasks, b, k);
    NeverRebinds(store, tasks, x);
    hide Bound, PassBases;
    if y.Keys <= x.Keys {
      assert x.Keys == y.Keys;
      assert x == y;
    } else {
      var u :| u in y && u !in x;
      assert TypeUse(u) in tasks;
      Shrinks(Uses(tasks) - y.Keys, Uses(tasks) - x.Keys, u);
    }
  }

  lemma Shrinks<T>(a: set<T>, b: set<T>, u: T)
    requires a <= b && u in b && u !in a
    ensures |a| < |b|
  {
    assert a <= b - {u};
    SubsetSize(a, b - {u});
  }

  lemma {:induction false} SubsetSize<T>(a: set<T>, b: set<T>)
    requires a <= b
    ensures |a| <= |b|
  {
    if a != {} {
      var x :| x in a;
      SubsetSize(a - {x}, b - {x});
    }
  }

  lemma {:induction false} StillOrShrunk(store: Store, tasks: seq<Task>, b: Bases, k: nat)
    ensures PassBases(store, tasks, b, k + 1) == PassBases(store, tasks, b, k) ||
            Left(store, tasks, b, k + 1) + k + 1 <= Left(store, tasks, b, 0)
  {
    hide *;
    PassGrows(store, tasks, b, k);
    if k > 0 {
      StillOrShrunk(store, tasks, b, k - 1);
      NextPass(store, tasks, b, k);
      NextPass(store, tasks, b, k - 1);
    }
  }

  /** What is bound after as many passes as there are unbound uses. */
  function AtEnd(store: Store, tasks: seq<Task>, b: Bases): Bases {
    PassBases(store, tasks, b, Needed(tasks, b))
  }

  lemma EndIs(store: Store, tasks: seq<Task>, b: Bases)
    ensures Left(store, tasks, b, 0) == Needed(tasks, b)
    ensures AtEnd(store, tasks, b) == PassBases(store, tasks, b, Needed(tasks, b))
  {
  }

  /** After as many passes as there are unbound uses, further passes bind nothing and give the
      same answers, whatever the store. */
  lemma {:induction false} PassesEnd(store: Store, tasks: seq<Task>, b: Bases, k: nat)
    requires k >= Needed(tasks, b)
    ensures Bound(store, tasks, PassBases(store, tasks, b, k)) == PassBases(store, tasks, b, k)
    ensures PassBases(store, tasks, b, k) == AtEnd(store, tasks, b)
    decreases k
  {
    hide *;
    EndIs(store, tasks, b);
    StillOrShrunk(store, tasks, b, k);
    NextPass(store, tasks, b, k);
    if k > Needed(tasks, b) {
      PassesEnd(store, tasks, b, k - 1);
      NextPass(store, tasks, b, k - 1);
    }
  }

  lemma {:induction false} PassesGrown(store: Store, tasks: seq<Task>, b: Bases, k: nat)
    ensures Grown(store, b, PassBases(store, tasks, b, k))
  {
    if k > 0 {
      PassesGrown(store, tasks, b, k - 1);
      NeverRebinds(store, tasks, PassBases(store, tasks, b, k - 1));
      GrownTwice(store, b, PassBases(store, tasks, b, k - 1), PassBases(store, tasks, b, k));
    }
  }

  /** A pass below a set of bindings that is at rest stays below it. */
  lemma {:induction false} StaysBelow(store: Store, tasks: seq<Task>, b: Bases, rest: Bases)
    requires AtLeast(store, store) && Grown(store, b, rest)
    requires forall k | k in tasks && k.TypeUse? && Answer(store, k, rest).Some? :: k.leaf in rest
    ensures Grown(store, Bound(store, tasks, b), rest)
    decreases |tasks|
  {
    if tasks != [] {
      var k := tasks[0];
      StepAtLeast(store, store, k, b, rest);
      assert Step(store, k, rest) == rest by {
        if k.TypeUse? && Answer(store, k, rest).Some? {
          assert rest[k.leaf := rest[k.leaf]] == rest;
        }
      }
      StaysBelow(store, tasks[1..], Step(store, k, b), rest);
    }
  }

  lemma {:induction false} PassesStayBelow(store: Store, tasks: seq<Task>, b: Bases, rest: Bases, k: nat)
    requires AtLeast(store, store) && Grown(store, b, rest)
    requires forall t | t in tasks && t.TypeUse? && Answer(store, t, rest).Some? :: t.leaf in rest
    ensures Grown(store, PassBases(store, tasks, b, k), rest)
  {
    hide Answer, AtLeast, Grown;
    if k > 0 {
      PassesStayBelow(store, tasks, b, rest, k - 1);
      StaysBelow(store, tasks, PassBases(store, tasks, b, k - 1), rest);
    }
  }

  lemma AtRestAbove(store: Store, tasks: seq<Task>, tasks': seq<Task>, b: Bases, n: nat, n': nat)
    requires Monotone(store) && multiset(tasks) == multiset(tasks')
    requires Bound(store, tasks', PassBases(store, tasks', b, n')) == PassBases(store, tasks', b, n')
    ensures PassBases(store, tasks, b, n).Keys <= PassBases(store, tasks', b, n').Keys
  {
    var rest := PassBases(store, tasks', b, n');
    StaysPut(store, tasks', rest);
    PassesGrown(store, tasks', b, n');
    SelfAtLeast(store);
    hide Answer, Bound, PassBases, Monotone, AtLeast;
    forall t | t in tasks && t.TypeUse? && Answer(store, t, rest).Some?
      ensures t.leaf in rest
    {
      Member(t, tasks);
      Member(t, tasks');
    }
    PassesStayBelow(store, tasks, b, rest, n);
  }

  function Miss(store: Store, b: Bases): Task -> nat {
    (k: Task) => if Answer(store, k, b).None? then 1 else 0
  }

  lemma {:induction false} FailsAtRest(store: Store, tasks: seq<Task>, b: Bases)
    requires forall k | k in tasks && k.TypeUse? && Answer(store, k, b).Some? :: k.leaf in b
    ensures Fails(store, tasks, b) == Sum(Miss(store, b), tasks)
    decreases |tasks|
  {
    if tasks != [] {
      var k := tasks[0];
      if k.TypeUse? && Answer(store, k, b).Some? {
        assert b[k.leaf := b[k.leaf]] == b;
      }
      assert Step(store, k, b) == b;
      FailsAtRest(store, tasks[1..], b);
    }
  }

  /** When binding more never makes a lookup fail, passes repeated to their end bind the same
      uses and count the same failures in every order. */
  lemma PassesAgree(store: Store, objs: seq<Object>, objs': seq<Object>, b: Bases)
    requires Monotone(store) && multiset(objs) == multiset(objs')
    ensures var end := AtEnd(store, Pass(objs), b);
            && AtEnd(store, Pass(objs'), b) == end
            && Fails(store, Pass(objs), end) == Fails(store, Pass(objs'), end)
  {
    var tasks, tasks' := Pass(objs), Pass(objs');
    var n, n' := Needed(tasks, b), Needed(tasks', b);
    hide Pass, Answer, Bound, Fails, PassBases, Monotone;
    PassReordered(objs, objs');
    PassesEnd(store, tasks, b, n);
    PassesEnd(store, tasks', b, n');
    AtRestAbove(store, tasks, tasks', b, n, n');
    AtRestAbove(store, tasks', tasks, b, n', n);
    PassesGrown(store, tasks, b, n);
    PassesGrown(store, tasks', b, n');
    var end := AtEnd(store, tasks, b);
    SameKeys(store, b, end, AtEnd(store, tasks', b));
    StaysPut(store, tasks, end);
    StaysPut(store, tasks', end);
    FailsAtRest(store, tasks, end);
    FailsAtRest(store, tasks', end);
    SumReordered(Miss(store, end), tasks, tasks');
  }

  lemma SameKeys(store: Store, b: Bases, c: Bases, d: Bases)
    requires Grown(store, b, c) && Grown(store, b, d) && c.Keys == d.Keys
    ensures c == d
  {
    assert forall u | u in c :: c[u] == d[u];
  }

  lemma {:induction false} PassParts(xs: seq<Object>, ys: seq<Object>)
    ensures Pass(xs + ys) == Pass(xs) + Pass(ys)
  {
    hide TasksOf;
    if xs == [] {
      assert xs + ys == ys;
    } else {
      assert (xs + ys)[1..] == xs[1..] + ys;
      PassParts(xs[1..], ys);
    }
  }

  lemma {:induction false} PassReordered(objs: seq<Object>, objs': seq<Object>)
    requires multiset(objs) == multiset(objs')
    ensures multiset(Pass(objs)) == multiset(Pass(objs'))
    decreases |objs|
  {
    if objs == [] {
      assert |multiset(objs')| == 0;
    } else {
      hide *;
      var x, rest := FirstOf(objs);
      Member(x, objs');
      var i :| 0 <= i < |objs'| && objs'[i] == x;
      TakenOut(objs', i);
      OneLess(multiset(rest), multiset(Without(objs', i)), x);
      OneLess(multiset(Without(objs', i)), multiset(rest), x);
      PassReordered(rest, Without(objs', i));
      PassParts([x], rest);
      PassTakenOut(objs', i);
    }
  }

  lemma PassTakenOut(objs: seq<Object>, i: nat)
    requires i < |objs|
    ensures multiset(Pass(objs)) == multiset(Pass([objs[i]])) + multiset(Pass(Without(objs, i)))
  {
    hide Pass;
    assert objs == objs[..i] + ([objs[i]] + objs[i + 1..]);
    PassParts(objs[..i], [objs[i]] + objs[i + 1..]);
    PassParts([objs[i]], objs[i + 1..]);
    PassParts(objs[..i], objs[i + 1..]);
  }

  // ----- when each link is held once for each pass -----

  predicate SameBases(tasks: seq<Task>, xs: seq<Option<nat>>, ys: seq<Option<nat>>)
    requires |xs| == |ys| == |tasks|
  {
    forall i | 0 <= i < |tasks| && tasks[i].BaseName? :: xs[i] == ys[i]
  }

  /** What was found for the bases in `xs` was found in `ys`. */
  predicate BasesWithin(tasks: seq<Task>, xs: seq<Option<nat>>, ys: seq<Option<nat>>)
    requires |xs| == |ys| == |tasks|
  {
    forall i | 0 <= i < |tasks| && tasks[i].BaseName? && xs[i].Some? :: ys[i] == xs[i]
  }

  lemma {:induction false} LinksWithin(tasks: seq<Task>, xs: seq<Option<nat>>, ys: seq<Option<nat>>, d: Obj, o: Obj)
    requires |xs| == |ys| == |tasks| && BasesWithin(tasks, xs, ys)
    ensures LinksTo(tasks, xs, d, o) <= LinksTo(tasks, ys, d, o)
    ensures SameBases(tasks, xs, ys) ==> LinksTo(tasks, xs, d, o) == LinksTo(tasks, ys, d, o)
  {
    if tasks != [] {
      LinksWithin(tasks[1..], xs[1..], ys[1..], d, o);
    }
  }

  lemma {:induction false} LinksMore(tasks: seq<Task>, xs: seq<Option<nat>>, ys: seq<Option<nat>>, i: nat)
    requires |xs| == |ys| == |tasks| && BasesWithin(tasks, xs, ys)
    requires i < |tasks| && tasks[i].BaseName? && xs[i].None? && ys[i].Some?
    ensures LinksTo(tasks, xs, ys[i].value, tasks[i].owner) < LinksTo(tasks, ys, ys[i].value, tasks[i].owner)
  {
    LinksWithin(tasks[1..], xs[1..], ys[1..], ys[i].value, tasks[i].owner);
    if i > 0 {
      LinksMore(tasks[1..], xs[1..], ys[1..], i - 1);
    }
  }

  lemma {:induction false} PassesChain(store: Store, tasks: seq<Task>, b: Bases, j: nat, k: nat)
    requires j <= k
    ensures Grown(store, PassBases(store, tasks, b, j), PassBases(store, tasks, b, k))
    decreases k
  {
    if j < k {
      var x, y := PassBases(store, tasks, b, k - 1), PassBases(store, tasks, b, k);
      PassesChain(store, tasks, b, j, k - 1);
      NeverRebinds(store, tasks, x);
      GrownTwice(store, PassBases(store, tasks, b, j), x, y);
    }
  }

  function InPass(store: Store, tasks: seq<Task>, b: Bases, k: nat): (answers: seq<Option<nat>>)
    ensures |answers| == |tasks|
  {
    Answers(store, tasks, PassBases(store, tasks, b, k))
  }

  /** The pass after as many passes as there are unbound uses finds no other bases than the
      first one. */
  predicate FirstFindsAll(store: Store, tasks: seq<Task>, b: Bases) {
    SameBases(tasks, InPass(store, tasks, b, 0), InPass(store, tasks, b, Needed(tasks, b)))
  }

  lemma LaterFindsMore(store: Store, tasks: seq<Task>, b: Bases, j: nat, k: nat)
    requires Monotone(store) && j <= k
    ensures BasesWithin(tasks, InPass(store, tasks, b, j), InPass(store, tasks, b, k))
  {
    var x, y := PassBases(store, tasks, b, j), PassBases(store, tasks, b, k);
    PassesChain(store, tasks, b, j, k);
    OutcomesGrow(store, tasks, x, y);
    hide Monotone, Bound, Answers, PassBases;
    forall i | 0 <= i < |tasks| && tasks[i].BaseName? && Answers(store, tasks, x)[i].Some?
      ensures Answers(store, tasks, y)[i] == Answers(store, tasks, x)[i]
    {
      AnsweredWhenReached(store, tasks, x, i);
      AnsweredWhenReached(store, tasks, y, i);
    }
  }

  lemma SandwichedBases(store: Store, tasks: seq<Task>, b: Bases, k: nat)
    requires Monotone(store)
    requires FirstFindsAll(store, tasks, b)
    ensures SameBases(tasks, InPass(store, tasks, b, 0), InPass(store, tasks, b, k))
  {
    var n := Needed(tasks, b);
    if k > n {
      PassesEnd(store, tasks, b, k);
    } else {
      hide Monotone, InPass;
      LaterFindsMore(store, tasks, b, 0, k);
      LaterFindsMore(store, tasks, b, k, n);
    }
  }

  lemma {:induction false} SameInEveryPass(store: Store, tasks: seq<Task>, b: Bases, k: nat, d: Obj, o: Obj)
    requires Monotone(store)
    requires FirstFindsAll(store, tasks, b)
    ensures LinksInPasses(store, tasks, b, k, d, o) == k * LinksTo(tasks, InPass(store, tasks, b, 0), d, o)
  {
    hide *;
    MoreInPass(store, tasks, b, if k == 0 then 0 else k - 1, d, o);
    if k > 0 {
      SameInEveryPass(store, tasks, b, k - 1, d, o);
      SameLinksInPass(store, tasks, b, k - 1, d, o);
      OneMoreTerm(k, LinksInPasses(store, tasks, b, k - 1, d, o), LinksTo(tasks, InPass(store, tasks, b, 0), d, o));
    }
  }

  lemma SameLinksInPass(store: Store, tasks: seq<Task>, b: Bases, k: nat, d: Obj, o: Obj)
    requires Monotone(store) && FirstFindsAll(store, tasks, b)
    ensures LinksTo(tasks, InPass(store, tasks, b, k), d, o) == LinksTo(tasks, InPass(store, tasks, b, 0), d, o)
  {
    hide *;
    SandwichedBases(store, tasks, b, k);
    LaterFindsMore(store, tasks, b, 0, k);
    LinksWithin(tasks, InPass(store, tasks, b, 0), InPass(store, tasks, b, k), d, o);
  }

  /** When binding more never makes a lookup fail: k passes hold each link of the first pass k
      times, and no other, exactly when the pass at the end of repetition finds no base that the
      first one missed. */
  lemma LinksOncePerPassIff(store: Store, tasks: seq<Task>, b: Bases)
    requires Monotone(store)
    ensures (forall k: nat, d: Obj, o: Obj ::
               LinksInPasses(store, tasks, b, k, d, o) == k * LinksTo(tasks, InPass(store, tasks, b, 0), d, o)) <==>
            FirstFindsAll(store, tasks, b)
  {
    var n := Needed(tasks, b);
    var first, last := InPass(store, tasks, b, 0), InPass(store, tasks, b, n);
    if SameBases(tasks, first, last) {
      forall k: nat, d: Obj, o: Obj
        ensures LinksInPasses(store, tasks, b, k, d, o) == k * LinksTo(tasks, first, d, o)
      {
        SameInEveryPass(store, tasks, b, k, d, o);
      }
    } else {
      LaterFindsMore(store, tasks, b, 0, n);
      hide Monotone, Answers, InPass, LinksTo, PassBases;
      var i :| 0 <= i < |tasks| && tasks[i].BaseName? && first[i] != last[i];
      LinksMore(tasks, first, last, i);
      var d, o := last[i].value, tasks[i].owner;
      MoreInPass(store, tasks, b, n, d, o);
      MulStep(n + 1, LinksTo(tasks, first, d, o));
      assert LinksInPasses(store, tasks, b, n, d, o) != n * LinksTo(tasks, first, d, o) ||
             LinksInPasses(store, tasks, b, n + 1, d, o) != (n + 1) * LinksTo(tasks, first, d, o);
    }
  }

  lemma MoreInPass(store: Store, tasks: seq<Task>, b: Bases, k: nat, d: Obj, o: Obj)
    ensures LinksInPasses(store, tasks, b, 0, d, o) == 0
    ensures LinksInPasses(store, tasks, b, k + 1, d, o) ==
            LinksInPasses(store, tasks, b, k, d, o) + LinksTo(tasks, InPass(store, tasks, b, k), d, o)
  {
    hide Answers, PassBases, LinksTo;
  }

  // ----- names without given parameters -----

  predicate PlainName(name: Ari) {
    name.Ref? ==> name.params.NoParams?
  }

  predicate NothingGiven(k: Task) {
    match k
    case TypeUse(leaf) => PlainName(leaf.name)
    case BaseName(_, name) => PlainName(name)
    case Unusable => true
  }

  lemma {:induction false} PlainAnswers(store: Store, tasks: seq<Task>, b: Bases, c: Bases)
    requires Grown(store, b, c) && forall k | k in tasks :: NothingGiven(k)
    ensures Answers(store, tasks, b) == Answers(store, tasks, c)
    decreases |tasks|
  {
    if tasks != [] {
      assert NothingGiven(tasks[0]);
      assert Answer(store, tasks[0], b) == Answer(store, tasks[0], c);
      GrownStep(store, tasks[0], b, c);
      PlainAnswers(store, tasks[1..], Step(store, tasks[0], b), Step(store, tasks[0], c));
    }
  }

  lemma {:induction false} TasksInPass(objs: seq<Object>, o: Object)
    requires o in objs
    ensures forall k | k in TasksOf(o) :: k in Pass(objs)
  {
    hide TasksOf;
    if objs[0] != o {
      TasksInPass(objs[1..], o);
    }
  }

  /** Names without given parameters are always safe, in every store: neither the order of the
      objects nor a repeat matters. */
  lemma PlainIsSafe(store: Store, objs: seq<Object>, b: Bases)
    requires forall k | k in Pass(objs) :: NothingGiven(k)
    ensures OrderFree(store, objs, b) && Settled(store, Pass(objs), b)
  {
    hide NothingGiven, TasksOf, Pass, Bound, Answers, Merged;
    NeverRebinds(store, Pass(objs), b);
    PlainAnswers(store, Pass(objs), b, Bound(store, Pass(objs), b));
    RepeatIff(store, Pass(objs), b);
    forall o, xs | Others(objs, xs, o)
      ensures Answers(store, TasksOf(o), Merged(store, xs, b)) == Answers(store, TasksOf(o), b)
    {
      assert multiset(xs + [o]) == multiset(xs) + multiset{o};
      Member(o, objs);
      TasksInPass(objs, o);
      MergedGrown(store, xs, b);
      PlainAnswers(store, TasksOf(o), b, Merged(store, xs, b));
    }
    OrderIff(store, objs, b);
  }

  // ----- where order and repetition matter -----

  const TYPEDEF_PATH := Path(1, 1, -12, 0)
  const IDENT_PATH := Path(1, 1, -1, 0)
  const PARAM_USE := Leaf(0, Ref(TYPEDEF_PATH, NoParams))

  /** A TYPEDEF, and an IDENT with one formal parameter of that type; every value converts to
      the type once it is bound. */
  const SMALL_STORE := Store(
      (p: Path) => if p == TYPEDEF_PATH then Typedef(Some(0)) else if p == IDENT_PATH then Ident(Some(0)) else Missing,
      (p: Path) => if p == IDENT_PATH then [Use(PARAM_USE)] else [],
      (p: Path, named: seq<Pair>) => None,
      (t: TypeObj, v: Ari, b: Bases) => true,
      (a: Ari) => None)

  /** The IDENT with the parameter, and one derived from it with the parameter given. */
  const GENERAL := Object(0, IdentDesc([]), [Use(PARAM_USE)])
  const SPECIAL := Object(1, IdentDesc([Ref(IDENT_PATH, AcParams([Null]))]), [])

  const USE_TASK := TypeUse(PARAM_USE)
  const BASE_TASK := BaseName(1, Ref(IDENT_PATH, AcParams([Null])))

  lemma SmallPasses()
    ensures Pass([SPECIAL, GENERAL]) == [BASE_TASK, USE_TASK]
    ensures Pass([GENERAL, SPECIAL]) == [USE_TASK, BASE_TASK]
  {
    assert TasksOf(GENERAL) == [USE_TASK] by {
      assert TasksAll([Use(PARAM_USE)]) == Tasks(Use(PARAM_USE)) + TasksAll([]);
    }
    assert TasksOf(SPECIAL) == [BASE_TASK] by {
      assert Names(1, SPECIAL.desc.bases) == [BASE_TASK] + Names(1, []);
    }
    hide TasksOf;
    PassParts([SPECIAL], [GENERAL]);
    PassParts([GENERAL], [SPECIAL]);
    assert Pass([GENERAL]) == TasksOf(GENERAL) + Pass([]);
    assert Pass([SPECIAL]) == TasksOf(SPECIAL) + Pass([]);
  }

  /** The base with a given parameter is refused until the parameter type is bound. */
  lemma SmallAnswers(b: Bases)
    ensures Answer(SMALL_STORE, BASE_TASK, b) == (if PARAM_USE in b then Some(0) else None)
    ensures PARAM_USE !in b ==> Answer(SMALL_STORE, USE_TASK, b) == Some(0)
  {
    assert SMALL_STORE.fparams(IDENT_PATH) == [Use(PARAM_USE)];
    assert Converts(SMALL_STORE, Use(PARAM_USE), Null, b) <==> PARAM_USE in b;
    assert Accepted(SMALL_STORE, IDENT_PATH, AcParams([Null]), b) <==> PARAM_USE in b by {
      assert [Use(PARAM_USE)][0] == Use(PARAM_USE) && [Null][0] == Null;
    }
  }

  lemma TwoTasks(store: Store, j: Task, k: Task, b: Bases)
    ensures Bound(store, [j, k], b) == Step(store, k, Step(store, j, b))
    ensures Fails(store, [j, k], b) ==
            (if Answer(store, j, b).None? then 1 else 0) + (if Answer(store, k, Step(store, j, b)).None? then 1 else 0)
  {
    hide Answer, Step;
    assert [j, k][1..] == [k] && [k][1..] == [];
    assert Bound(store, [k], Step(store, j, b)) == Step(store, k, Step(store, j, b));
    assert Fails(store, [k], Step(store, j, b)) == if Answer(store, k, Step(store, j, b)).None? then 1 else 0;
  }

  /** The derived IDENT visited first counts a failure and gets no link; visited last it counts
      none. */
  lemma OrderMatters()
    ensures Fails(SMALL_STORE, Pass([SPECIAL, GENERAL]), map[]) == 1
    ensures Fails(SMALL_STORE, Pass([GENERAL, SPECIAL]), map[]) == 0
  {
    SmallPasses();
    TwoTasks(SMALL_STORE, BASE_TASK, USE_TASK, map[]);
    TwoTasks(SMALL_STORE, USE_TASK, BASE_TASK, map[]);
    hide Answer, Pass, Fails;
    SmallAnswers(map[]);
    SmallAnswers(map[PARAM_USE := 0]);
    assert Step(SMALL_STORE, USE_TASK, map[]) == map[PARAM_USE := 0];
  }

  /** A repeat over the same store finds the base that the first pass missed. */
  lemma RepeatMatters()
    ensures var tasks := Pass([SPECIAL, GENERAL]);
            && Fails(SMALL_STORE, tasks, map[]) == 1
            && Fails(SMALL_STORE, tasks, Bound(SMALL_STORE, tasks, map[])) == 0
  {
    SmallPasses();
    TwoTasks(SMALL_STORE, BASE_TASK, USE_TASK, map[]);
    TwoTasks(SMALL_STORE, BASE_TASK, USE_TASK, map[PARAM_USE := 0]);
    SmallAnswers(map[]);
    SmallAnswers(map[PARAM_USE := 0]);
    hide Pass, Fails, Bound;
    assert Step(SMALL_STORE, USE_TASK, map[]) == map[PARAM_USE := 0];
    assert Answer(SMALL_STORE, USE_TASK, map[PARAM_USE := 0]) == Some(0);
  }
}
