/** Repeats and orders when only some uses matter to a lookup: acceptance at a path reads the uses
    of a footprint, such as those reachable from its formal parameter types. */
module BindingReads {
  import opened Wrappers
  import opened Values
  import opened Lists
  import opened Binding
  import opened BindingRuns
  import opened BindingOrder

  type Footprint = Path -> set<Leaf>

  predicate AgreeOn(s: set<Leaf>, b: Bases, c: Bases) {
    forall u | u in s :: (u in b <==> u in c) && (u in b ==> b[u] == c[u])
  }

  /** From `b` on, acceptance at a path depends only on the uses of its footprint. */
  ghost predicate ReadsOnly(store: Store, foot: Footprint, b: Bases) {
    forall path, params, c, d | Grown(store, b, c) && Grown(store, b, d) && AgreeOn(foot(path), c, d) ::
      Accepted(store, path, params, c) == Accepted(store, path, params, d)
  }

  function ReadByName(foot: Footprint, name: Ari): set<Leaf> {
    if name.Ref? && !name.params.NoParams? then foot(name.path) else {}
  }

  /** The uses that a lookup reads: those of the footprint, if parameters are given. */
  function ReadBy(foot: Footprint, k: Task): set<Leaf> {
    match k
    case TypeUse(leaf) => ReadByName(foot, leaf.name)
    case BaseName(_, name) => ReadByName(foot, name)
    case Unusable => {}
  }

  /** A use that is unbound in `b` and can be found. */
  predicate CanBind(store: Store, u: Leaf, b: Bases) {
    u !in b && NamedType(store, u.name).Some?
  }

  lemma UsableAgree(store: Store, foot: Footprint, b: Bases, name: Ari, c: Bases, d: Bases)
    requires ReadsOnly(store, foot, b) && Grown(store, b, c) && Grown(store, b, d)
    requires AgreeOn(ReadByName(foot, name), c, d)
    ensures Usable(store, name, c) == Usable(store, name, d)
  {
    if name.Ref? && !name.params.NoParams? {
      assert Accepted(store, name.path, name.params, c) == Accepted(store, name.path, name.params, d);
    }
  }

  // ----- repeating a pass -----

  /** Nothing that a lookup reads is bound by an attempt at or after it. */
  predicate ReadsBefore(store: Store, foot: Footprint, tasks: seq<Task>, b: Bases) {
    forall i, j | 0 <= i <= j < |tasks| && tasks[j].TypeUse? && tasks[j].leaf in ReadBy(foot, tasks[i]) ::
      !CanBind(store, tasks[j].leaf, b)
  }

  ghost predicate Untouched(store: Store, s: set<Leaf>, tasks: seq<Task>, b: Bases) {
    forall u | u in s && u in Uses(tasks) :: !CanBind(store, u, b)
  }

  /** What a pass binds leaves alone what is untouched. */
  lemma UntouchedAgree(store: Store, s: set<Leaf>, tasks: seq<Task>, b: Bases, c: Bases)
    requires Untouched(store, s, tasks, b) && Grown(store, b, c)
    ensures AgreeOn(s, c, Bound(store, tasks, c)) && Grown(store, c, Bound(store, tasks, c))
    ensures Grown(store, b, Bound(store, tasks, c))
  {
    NeverRebinds(store, tasks, c);
    GrownTwice(store, b, c, Bound(store, tasks, c));
    hide Bound, NamedType;
    forall u | u in s && u !in c
      ensures u !in Bound(store, tasks, c)
    {
      assert u in Bound(store, tasks, c) ==> TypeUse(u) in tasks && u in Uses(tasks);
    }
  }

  /** A use whose name is refused stays unbound. */
  lemma {:induction false} StaysRefused(store: Store, foot: Footprint, tasks: seq<Task>, b: Bases, c: Bases, u: Leaf)
    requires ReadsOnly(store, foot, b) && Grown(store, b, c)
    requires Untouched(store, ReadByName(foot, u.name), tasks, b)
    requires u !in c && TypeFromName(store, u.name, c).None?
    ensures u !in Bound(store, tasks, c)
    decreases |tasks|
  {
    if tasks != [] {
      var c' := Step(store, tasks[0], c);
      assert Uses([tasks[0]]) <= Uses(tasks) && Uses(tasks[1..]) <= Uses(tasks) by {
        assert tasks == [tasks[0]] + tasks[1..];
        PartsCount([tasks[0]], tasks[1..]);
      }
      assert c' == Bound(store, [tasks[0]], c) by {
        assert [tasks[0]][1..] == [];
      }
      UntouchedAgree(store, ReadByName(foot, u.name), [tasks[0]], b, c);
      UsableAgree(store, foot, b, u.name, c, c');
      assert u !in c';
      hide ReadsOnly, Grown, Uses;
      assert Untouched(store, ReadByName(foot, u.name), tasks[1..], b);
      StaysRefused(store, foot, tasks[1..], b, c', u);
    }
  }

  /** The first attempt is answered at the end as it was at the start. */
  lemma FirstSettled(store: Store, foot: Footprint, tasks: seq<Task>, b: Bases, c: Bases)
    requires tasks != [] && ReadsOnly(store, foot, b) && Grown(store, b, c)
    requires Untouched(store, ReadBy(foot, tasks[0]), tasks, b)
    ensures Answer(store, tasks[0], Bound(store, tasks, c)) == Answer(store, tasks[0], c)
  {
    var k, end := tasks[0], Bound(store, tasks, c);
    UntouchedAgree(store, ReadBy(foot, k), tasks, b, c);
    AnsweredIsBound(store, tasks, c);
    FirstTask(store, tasks, c);
    hide Bound, Untouched, ReadsOnly;
    if k.TypeUse? {
      UsableAgree(store, foot, b, k.leaf.name, c, end);
      if k.leaf !in c && Answer(store, k, c).None? {
        StaysRefused(store, foot, tasks, b, c, k.leaf);
      } else {
        assert Answers(store, tasks, c)[0] == Answer(store, k, c);
      }
    } else if k.BaseName? {
      UsableAgree(store, foot, b, k.name, c, end);
    }
  }

  /** If no lookup reads a use that is still to be bound, a repeat gives the same answers. */
  lemma SafeRepeat(store: Store, foot: Footprint, tasks: seq<Task>, b: Bases)
    requires ReadsOnly(store, foot, b) && ReadsBefore(store, foot, tasks, b)
    ensures Settled(store, tasks, b)
  {
    hide *;
    forall i | 0 <= i < |tasks|
      ensures Answer(store, tasks[i], Bound(store, tasks, b)) == Answers(store, tasks, b)[i]
    {
      AnsweredWhenReached(store, tasks, b, i);
      assert tasks == tasks[..i] + tasks[i..] && tasks[i..][0] == tasks[i];
      Appended(store, tasks[..i], tasks[i..], b);
      NeverRebinds(store, tasks[..i], b);
      UntouchedFrom(store, foot, tasks, b, i);
      FirstSettled(store, foot, tasks[i..], b, Bound(store, tasks[..i], b));
    }
    SettledIs(store, tasks, b);
  }

  lemma SettledIs(store: Store, tasks: seq<Task>, b: Bases)
    requires forall i | 0 <= i < |tasks| :: Answer(store, tasks[i], Bound(store, tasks, b)) == Answers(store, tasks, b)[i]
    ensures Settled(store, tasks, b)
  {
  }

  lemma UntouchedFrom(store: Store, foot: Footprint, tasks: seq<Task>, b: Bases, i: nat)
    requires ReadsBefore(store, foot, tasks, b) && i < |tasks|
    ensures Untouched(store, ReadBy(foot, tasks[i]), tasks[i..], b)
  {
    hide ReadBy, CanBind;
    forall u | u in ReadBy(foot, tasks[i]) && u in Uses(tasks[i..])
      ensures !CanBind(store, u, b)
    {
      var k :| k in tasks[i..] && k.TypeUse? && k.leaf == u;
      var j :| 0 <= j < |tasks[i..]| && tasks[i..][j] == k;
      assert tasks[i + j] == k;
    }
  }

  // ----- the order of the objects -----

  /** All that the lookups of some attempts read, their own uses included. */
  function AllReads(foot: Footprint, tasks: seq<Task>): set<Leaf> {
    if tasks == [] then {}
    else ReadBy(foot, tasks[0]) + (if tasks[0].TypeUse? then {tasks[0].leaf} else {}) + AllReads(foot, tasks[1..])
  }

  /** No object reads a use that another can bind. */
  predicate ReadsApart(store: Store, foot: Footprint, objs: seq<Object>, b: Bases) {
    forall i, j, u | 0 <= i < |objs| && 0 <= j < |objs| && i != j &&
                     u in AllReads(foot, TasksOf(objs[i])) && u in Uses(TasksOf(objs[j])) ::
      !CanBind(store, u, b)
  }

  lemma {:induction false} AnswersAgree(store: Store, foot: Footprint, tasks: seq<Task>, b: Bases, c: Bases, d: Bases)
    requires ReadsOnly(store, foot, b) && Grown(store, b, c) && Grown(store, b, d)
    requires AgreeOn(AllReads(foot, tasks), c, d)
    ensures Answers(store, tasks, c) == Answers(store, tasks, d)
    decreases |tasks|
  {
    if tasks == [] {
    } else {
      var k := tasks[0];
      var c', d' := Step(store, k, c), Step(store, k, d);
      assert Answer(store, k, c) == Answer(store, k, d) by {
        if k.TypeUse? {
          UsableAgree(store, foot, b, k.leaf.name, c, d);
        } else if k.BaseName? {
          UsableAgree(store, foot, b, k.name, c, d);
        }
      }
      GrownAfter(store, k, b, c);
      GrownAfter(store, k, b, d);
      assert AgreeOn(AllReads(foot, tasks[1..]), c', d');
      FirstTask(store, tasks, c);
      FirstTask(store, tasks, d);
      hide *;
      AnswersAgree(store, foot, tasks[1..], b, c', d');
    }
  }

  lemma GrownAfter(store: Store, k: Task, b: Bases, c: Bases)
    requires Grown(store, b, c)
    ensures Grown(store, b, Step(store, k, c))
  {
  }

  lemma TwoPlaces<T>(all: seq<T>, xs: seq<T>, x: T, y: T) returns (i: nat, j: nat)
    requires multiset(xs) + multiset{x} <= multiset(all) && y in xs
    ensures i < |all| && j < |all| && i != j && all[i] == x && all[j] == y
  {
    Member(x, all);
    i :| 0 <= i < |all| && all[i] == x;
    TakenOut(all, i);
    OneLess(multiset(xs), multiset(Without(all, i)), x);
    Member(y, xs);
    Member(y, Without(all, i));
    var k :| 0 <= k < |Without(all, i)| && Without(all, i)[k] == y;
    j := if k < i then k else k + 1;
  }

  lemma ApartAgree(store: Store, foot: Footprint, objs: seq<Object>, b: Bases, xs: seq<Object>, o: Object)
    requires ReadsApart(store, foot, objs, b) && multiset(xs) + multiset{o} <= multiset(objs)
    ensures AgreeOn(AllReads(foot, TasksOf(o)), b, Merged(store, xs, b))
  {
    MergedGrown(store, xs, b);
    hide TasksOf, Merged, AllReads, CanBind;
    forall u | u in AllReads(foot, TasksOf(o)) && u !in b
      ensures u !in Merged(store, xs, b)
    {
      MergedKeys(store, xs, b, u);
      if u in Merged(store, xs, b) {
        var p :| p in xs && u in Bound(store, TasksOf(p), b);
        NeverRebinds(store, TasksOf(p), b);
        hide Bound;
        assert TypeUse(u) in TasksOf(p) && u in Uses(TasksOf(p));
        assert CanBind(store, u, b) by { Bindable(store, u, TasksOf(p), b); }
        var i, j := TwoPlaces(objs, xs, o, p);
        assert false;
      }
    }
  }

  lemma Bindable(store: Store, u: Leaf, tasks: seq<Task>, b: Bases)
    requires u !in b && u in Bound(store, tasks, b)
    ensures CanBind(store, u, b)
  {
    NeverRebinds(store, tasks, b);
  }

  /** If no object reads a use that another can bind, the order does not matter. */
  lemma SafeOrder(store: Store, foot: Footprint, objs: seq<Object>, b: Bases)
    requires ReadsOnly(store, foot, b) && ReadsApart(store, foot, objs, b)
    ensures OrderFree(store, objs, b)
  {
    hide ReadsOnly, ReadsApart, AgreeOn, AllReads, Answers, Merged, TasksOf;
    forall o, xs | Others(objs, xs, o)
      ensures Answers(store, TasksOf(o), Merged(store, xs, b)) == Answers(store, TasksOf(o), b)
    {
      assert multiset(xs + [o]) == multiset(xs) + multiset{o};
      ApartAgree(store, foot, objs, b, xs, o);
      MergedGrown(store, xs, b);
      AnswersAgree(store, foot, TasksOf(o), b, b, Merged(store, xs, b));
    }
    OrderIff(store, objs, b);
  }
}
