/** Whole runs of the alarm store: every interleaving of its critical sections, and runs in
    which whole calls are atomic. */
module AlarmRuns {
  import opened Wrappers
  import opened Values
  import opened Lists
  import opened Eval
  import opened AlarmRows
  import opened Alarms

  /** A call that has passed the shelf check and waits for the alarm lock. */
  datatype Waiting = Waiting(resource: IdentRef, category: IdentRef, severity: int)
  {
    function Key(): EntryKey {
      EntryKey(resource.obj, category.obj)
    }
  }

  /** The critical sections. Reporting an alarm is Check then Insert. Adding a shelf row is
      Probe, which looks for the row in the shelf, then Apply, which purges the alarms it
      matches, then Push; they are separate because the control releases the shelf lock it
      means to take. */
  datatype Section =
    | Check(call: Waiting)
    | Insert(i: nat, now: int)
    | Purge(env: Env, filter: Ari)
    | Compress(env: Env, filter: Ari)
    | Manage(env: Env, filter: Ari, state: int, mgr: Ari, clock: nat -> int)
    | Probe(s: ShelfEntry)
    | Apply(i: nat)
    | Push(i: nat)
    | Discard(s: ShelfEntry)

  /** The tables, with the calls that are between two sections: reports that passed the check,
      and shelf rows that were not found or have been applied. */
  datatype State = State(
    rows: seq<Row>, shelf: set<ShelfEntry>,
    waiting: seq<Waiting>, absent: seq<ShelfEntry>, applied: seq<ShelfEntry>)

  function Next(pm: PatternMatch, st: State, sec: Section): State {
    match sec
    case Check(call) =>
      if Shelved(pm, st.shelf, call.Key()) then st else st.(waiting := st.waiting + [call])
    case Insert(i, now) =>
      if i < |st.waiting| then
        var c := st.waiting[i];
        st.(rows := Recorded(st.rows, c.resource, c.category, c.severity, now), waiting := Without(st.waiting, i))
      else st
    case Purge(env, filter) => st.(rows := Kept(st.rows, Hitting(env, filter)))
    case Compress(env, filter) => st.(rows := Compressed(Hitting(env, filter), st.rows))
    case Manage(env, filter, state, mgr, clock) =>
      st.(rows := Managed(Hitting(env, filter), state, mgr, clock, st.rows))
    case Probe(s) => if s in st.shelf then st else st.(absent := st.absent + [s])
    case Apply(i) =>
      if i < |st.absent| then
        var s := st.absent[i];
        st.(rows := Kept(st.rows, OnShelf(pm, s)), absent := Without(st.absent, i), applied := st.applied + [s])
      else st
    case Push(i) =>
      if i < |st.applied| then st.(shelf := st.shelf + {st.applied[i]}, applied := Without(st.applied, i)) else st
    case Discard(s) => st.(shelf := st.shelf - {s})
  }

  function Play(pm: PatternMatch, st: State, run: seq<Section>): State
    decreases |run|
  {
    if run == [] then st else Play(pm, Next(pm, st, run[0]), run[1..])
  }

  const EMPTY := State([], {}, [], [], [])

  // ----- the store under every interleaving -----

  /** Run one critical section on the store. */
  method Execute(store: AlarmStore, ghost st: State, waiting: seq<Waiting>, absent: seq<ShelfEntry>,
                 applied: seq<ShelfEntry>, sec: Section)
    returns (waiting': seq<Waiting>, absent': seq<ShelfEntry>, applied': seq<ShelfEntry>)
    requires store.Valid() && st == State(store.rows, store.shelf, waiting, absent, applied)
    modifies store, store.repr
    ensures store.Valid() && store.repr >= old(store.repr) && fresh(store.repr - old(store.repr))
    ensures State(store.rows, store.shelf, waiting', absent', applied') == Next(store.pm, st, sec)
  {
    hide Hitting;
    waiting', absent', applied' := waiting, absent, applied;
    match sec {
      case Check(call) =>
        var anyMatch := store.CheckShelf(call.Key());
        if !anyMatch {
          waiting' := waiting + [call];
        }
      case Insert(i, now) =>
        if i < |waiting| {
          store.Record(waiting[i].resource, waiting[i].category, waiting[i].severity, now);
          waiting' := Without(waiting, i);
        }
      case Purge(env, filter) =>
        var affected := store.Purge(env, filter);
      case Compress(env, filter) =>
        var affected := store.Compress(env, filter);
      case Manage(env, filter, state, mgr, clock) =>
        var affected := store.SetManagerState(env, filter, state, mgr, clock);
      case Probe(s) =>
        if s !in store.shelf {
          absent' := absent + [s];
        }
      case Apply(i) =>
        if i < |absent| {
          var affected := store.ApplyShelf(absent[i]);
          absent', applied' := Without(absent, i), applied + [absent[i]];
        }
      case Push(i) =>
        if i < |applied| {
          store.shelf := store.shelf + {applied[i]};
          applied' := Without(applied, i);
        }
      case Discard(s) =>
        store.shelf := store.shelf - {s};
    }
  }

  /** Under every interleaving of the critical sections the list and the index stay coherent,
      and the rows are the ones the sections prescribe. */
  method ExecuteAll(store: AlarmStore, run: seq<Section>)
    requires store.Valid()
    modifies store, store.repr
    ensures store.Valid()
    ensures store.rows == Play(store.pm, State(old(store.rows), old(store.shelf), [], [], []), run).rows
    ensures store.shelf == Play(store.pm, State(old(store.rows), old(store.shelf), [], [], []), run).shelf
  {
    var waiting: seq<Waiting>, absent: seq<ShelfEntry>, applied: seq<ShelfEntry> := [], [], [];
    ghost var st0 := State(store.rows, store.shelf, [], [], []);
    ghost var st := st0;
    for i := 0 to |run|
      invariant store.Valid() && store.repr >= old(store.repr) && fresh(store.repr - old(store.repr))
      invariant st == State(store.rows, store.shelf, waiting, absent, applied)
      invariant Play(store.pm, st0, run) == Play(store.pm, st, run[i..])
    {
      hide Next;
      assert run[i..][1..] == run[i + 1..];
      waiting, absent, applied := Execute(store, st, waiting, absent, applied, run[i]);
      st := Next(store.pm, st, run[i]);
    }
  }

  // ----- histories -----

  /** The newest history item is the current state. */
  predicate HeadIsCurrent(r: Row) {
    && r.history != [] && r.createdAt.Some?
    && r.updatedAt == Some(r.history[0].at) && r.severity == r.history[0].severity
  }

  /** Timestamps do not increase from the head on and lie between creation and `now`. */
  predicate Chronological(r: Row, now: int) {
    && r.createdAt.Some? && r.createdAt.value <= now
    && (forall i | 0 <= i < |r.history| :: r.createdAt.value <= r.history[i].at <= now)
    && (forall i, j | 0 <= i < j < |r.history| :: r.history[j].at <= r.history[i].at)
  }

  predicate AllHeads(rows: seq<Row>) {
    forall r | r in rows :: HeadIsCurrent(r)
  }

  predicate AllChronological(rows: seq<Row>, now: int) {
    forall r | r in rows :: Chronological(r, now)
  }

  /** The clock, read in Insert, does not run backwards. */
  predicate ClockMonotone(run: seq<Section>, now: int) {
    run == [] ||
    (if run[0].Insert? then now <= run[0].now && ClockMonotone(run[1..], run[0].now) else ClockMonotone(run[1..], now))
  }

  function ClockAfter(run: seq<Section>, now: int): int {
    if run == [] then now else ClockAfter(run[1..], if run[0].Insert? then run[0].now else now)
  }

  lemma {:induction false} RecordedRows(rows: seq<Row>, c: Waiting, now: int, r: Row)
    requires r in Recorded(rows, c.resource, c.category, c.severity, now)
    ensures r in rows || (exists o | o in rows :: r == Touched(o, c.severity, now)) ||
            r == Touched(NewRow(c.resource, c.category), c.severity, now)
  {
    if rows != [] {
      if rows[0].Key() == c.Key() {
        assert r == Touched(rows[0], c.severity, now) || r in rows[1..];
      } else if r != rows[0] {
        RecordedRows(rows[1..], c, now, r);
      }
    }
  }

  /** Where a row of the next state comes from. */
  lemma NextRow(pm: PatternMatch, st: State, sec: Section, r: Row) returns (o: Row)
    requires r in Next(pm, st, sec).rows
    ensures sec.Insert? && sec.i < |st.waiting| ==>
              var c := st.waiting[sec.i];
              || (o in st.rows && (r == o || r == Touched(o, c.severity, sec.now)))
              || (o == NewRow(c.resource, c.category) && r == Touched(o, c.severity, sec.now))
    ensures !(sec.Insert? && sec.i < |st.waiting|) ==>
              && o in st.rows
              && (|| r == o
                  || (o.history != [] && r == o.(history := [o.history[0]]))
                  || r == o.(mgrState := r.mgrState, mgrIdent := r.mgrIdent, mgrTime := r.mgrTime))
  {
    hide Hitting, Shelved, OnShelf;
    o := r;
    if sec.Insert? && sec.i < |st.waiting| {
      var c := st.waiting[sec.i];
      RecordedRows(st.rows, c, sec.now, r);
      if r !in st.rows {
        if x :| x in st.rows && r == Touched(x, c.severity, sec.now) {
          o := x;
        } else {
          o := NewRow(c.resource, c.category);
        }
      }
    } else if sec.Purge? {
      KeptExactly(st.rows, Hitting(sec.env, sec.filter));
    } else if sec.Apply? && sec.i < |st.absent| {
      KeptExactly(st.rows, OnShelf(pm, st.absent[sec.i]));
    } else if sec.Compress? {
      var i :| 0 <= i < |st.rows| && Compressed(Hitting(sec.env, sec.filter), st.rows)[i] == r;
      CompressedAt(Hitting(sec.env, sec.filter), st.rows, i);
      o := st.rows[i];
      if |o.history| > 1 {
        assert o.history[..1] == [o.history[0]];
      }
    } else if sec.Manage? {
      var i :| 0 <= i < |st.rows| &&
               Managed(Hitting(sec.env, sec.filter), sec.state, sec.mgr, sec.clock, st.rows)[i] == r;
      ManagedAt(Hitting(sec.env, sec.filter), sec.state, sec.mgr, sec.clock, st.rows, i);
      o := st.rows[i];
    }
  }

  lemma NextHeads(pm: PatternMatch, st: State, sec: Section)
    requires AllHeads(st.rows)
    ensures AllHeads(Next(pm, st, sec).rows)
  {
    hide Next;
    forall r | r in Next(pm, st, sec).rows
      ensures HeadIsCurrent(r)
    {
      var o := NextRow(pm, st, sec, r);
    }
  }

  lemma NextChronological(pm: PatternMatch, st: State, sec: Section, now: int)
    requires AllChronological(st.rows, now)
    requires sec.Insert? ==> now <= sec.now
    ensures AllChronological(Next(pm, st, sec).rows, if sec.Insert? then sec.now else now)
  {
    hide Next;
    forall r | r in Next(pm, st, sec).rows
      ensures Chronological(r, if sec.Insert? then sec.now else now)
    {
      var o := NextRow(pm, st, sec, r);
    }
  }

  /** In every state that any interleaving reaches, each history is nonempty with the current
      state at its head; with a clock that does not run backwards it is in time order. */
  lemma {:induction false} HistoriesInEveryRun(pm: PatternMatch, st: State, run: seq<Section>, now: int)
    requires AllHeads(st.rows) && AllChronological(st.rows, now)
    ensures AllHeads(Play(pm, st, run).rows)
    ensures ClockMonotone(run, now) ==> AllChronological(Play(pm, st, run).rows, ClockAfter(run, now))
    decreases |run|
  {
    if run != [] {
      NextHeads(pm, st, run[0]);
      if ClockMonotone(run, now) {
        NextChronological(pm, st, run[0], now);
        HistoriesInEveryRun(pm, Next(pm, st, run[0]), run[1..], if run[0].Insert? then run[0].now else now);
      } else {
        HeadsInEveryRun(pm, Next(pm, st, run[0]), run[1..]);
      }
    }
  }

  lemma {:induction false} HeadsInEveryRun(pm: PatternMatch, st: State, run: seq<Section>)
    requires AllHeads(st.rows)
    ensures AllHeads(Play(pm, st, run).rows)
    decreases |run|
  {
    if run != [] {
      NextHeads(pm, st, run[0]);
      HeadsInEveryRun(pm, Next(pm, st, run[0]), run[1..]);
    }
  }

  /** Compressing keeps exactly the head of each history it touches. */
  lemma CompressKeepsHead(hit: Row -> bool, r: Row)
    requires HeadIsCurrent(r) && hit(r)
    ensures CompressedRow(hit, r) == r.(history := [r.history[0]])
    ensures HeadIsCurrent(CompressedRow(hit, r))
  {
    if |r.history| > 1 {
      assert r.history[..1] == [r.history[0]];
    } else {
      assert r.history == [r.history[0]];
    }
  }

  // ----- the shelf -----

  predicate Pushes(st: State, sec: Section, e: ShelfEntry) {
    sec.Push? && sec.i < |st.applied| && st.applied[sec.i] == e
  }

  /** Section k of the run pushes the entry and no later section discards it. */
  predicate LastPush(pm: PatternMatch, st: State, run: seq<Section>, k: nat, e: ShelfEntry) {
    k < |run| && Pushes(Play(pm, st, run[..k]), run[k], e) && forall j | k < j < |run| :: run[j] != Discard(e)
  }

  lemma LastPushLater(pm: PatternMatch, st: State, run: seq<Section>, k: nat, e: ShelfEntry)
    requires run != []
    ensures LastPush(pm, st, run, k + 1, e) <==> LastPush(pm, Next(pm, st, run[0]), run[1..], k, e)
  {
    hide Next, Pushes;
    if k + 1 < |run| {
      assert run[..k + 1][1..] == run[1..][..k];
      assert forall j | k < j < |run[1..]| :: run[1..][j] == run[j + 1];
      assert forall j | k + 1 < j < |run| :: run[j] == run[1..][j - 1];
    }
  }

  lemma PushedFirstOrLater(pm: PatternMatch, st: State, run: seq<Section>, e: ShelfEntry)
    requires run != []
    ensures (exists k: nat :: LastPush(pm, st, run, k, e)) <==>
            LastPush(pm, st, run, 0, e) || exists k: nat :: LastPush(pm, Next(pm, st, run[0]), run[1..], k, e)
  {
    hide *;
    if k: nat :| LastPush(pm, st, run, k, e) {
      if k > 0 {
        LastPushLater(pm, st, run, k - 1, e);
      }
    }
    if k: nat :| LastPush(pm, Next(pm, st, run[0]), run[1..], k, e) {
      LastPushLater(pm, st, run, k, e);
    }
  }

  /** After every interleaving the shelf holds exactly the entries pushed, or there at the
      start, and not discarded since. */
  lemma {:induction false} ShelfInEveryRun(pm: PatternMatch, st: State, run: seq<Section>, e: ShelfEntry)
    ensures e in Play(pm, st, run).shelf <==>
            || (e in st.shelf && Discard(e) !in run)
            || exists k: nat :: LastPush(pm, st, run, k, e)
    decreases |run|
  {
    if run != [] {
      PushedFirstOrLater(pm, st, run, e);
      ShelfInEveryRun(pm, Next(pm, st, run[0]), run[1..], e);
      NextShelf(pm, st, run, e);
    }
  }

  lemma NextShelf(pm: PatternMatch, st: State, run: seq<Section>, e: ShelfEntry)
    requires run != []
    ensures e in Next(pm, st, run[0]).shelf && Discard(e) !in run[1..] <==>
            (e in st.shelf && Discard(e) !in run) || LastPush(pm, st, run, 0, e)
  {
    assert e in Next(pm, st, run[0]).shelf <==> (e in st.shelf && run[0] != Discard(e)) || Pushes(st, run[0], e);
    assert Play(pm, st, run[..0]) == st;
    assert Discard(e) in run <==> run[0] == Discard(e) || Discard(e) in run[1..] by {
      assert run == [run[0]] + run[1..];
    }
    assert Discard(e) in run[1..] <==> exists j | 0 < j < |run| :: run[j] == Discard(e) by {
      assert forall j | 0 < j < |run| :: run[j] == run[1..][j - 1];
    }
  }

  /** No alarm entry matches any shelf entry. */
  predicate Clear(pm: PatternMatch, rows: seq<Row>, shelf: set<ShelfEntry>) {
    forall r | r in rows :: !Shelved(pm, shelf, r.Key())
  }

  /** What a critical section needs to leave the table clear: a waiting call must not have been
      overtaken by a shelf row that matches it, and an applied shelf row must not have been
      overtaken by an alarm that it matches. */
  predicate NotOvertaken(pm: PatternMatch, st: State, sec: Section) {
    match sec
    case Insert(i, _) => i < |st.waiting| ==> !Shelved(pm, st.shelf, st.waiting[i].Key())
    case Push(i) => i < |st.applied| ==> forall r | r in st.rows :: !ShelfMatch(pm, st.applied[i], r.Key())
    case _ => true
  }

  lemma {:induction false} RecordedHasKey(rows: seq<Row>, c: Waiting, now: int)
    ensures exists r | r in Recorded(rows, c.resource, c.category, c.severity, now) :: r.Key() == c.Key()
  {
    if rows == [] || rows[0].Key() == c.Key() {
      assert Recorded(rows, c.resource, c.category, c.severity, now)[0].Key() == c.Key();
    } else {
      RecordedHasKey(rows[1..], c, now);
      var r :| r in Recorded(rows[1..], c.resource, c.category, c.severity, now) && r.Key() == c.Key();
      assert r in Recorded(rows, c.resource, c.category, c.severity, now);
    }
  }

  /** From a clear table, a critical section leaves a clear table exactly when it is not
      overtaken. */
  lemma ClearIffNotOvertaken(pm: PatternMatch, st: State, sec: Section)
    requires Clear(pm, st.rows, st.shelf)
    ensures Clear(pm, Next(pm, st, sec).rows, Next(pm, st, sec).shelf) <==> NotOvertaken(pm, st, sec)
  {
    var st' := Next(pm, st, sec);
    if NotOvertaken(pm, st, sec) {
      forall r | r in st'.rows
        ensures !Shelved(pm, st'.shelf, r.Key())
      {
        var o := NextRow(pm, st, sec, r);
      }
    } else if sec.Insert? {
      RecordedHasKey(st.rows, st.waiting[sec.i], sec.now);
      var r :| r in st'.rows && r.Key() == st.waiting[sec.i].Key();
      assert Shelved(pm, st'.shelf, r.Key());
    } else {
      var r :| r in st.rows && ShelfMatch(pm, st.applied[sec.i], r.Key());
      assert Shelved(pm, st'.shelf, r.Key());
    }
  }

  /** A run from a clear table shows only clear tables exactly when none of its sections is
      overtaken. */
  lemma {:induction false} ClearRunIff(pm: PatternMatch, st: State, run: seq<Section>)
    requires Clear(pm, st.rows, st.shelf)
    ensures (forall k | 0 <= k <= |run| :: ClearAfter(pm, st, run[..k])) <==> NeverOvertaken(pm, st, run)
    decreases |run|
  {
    if run == [] {
      assert run[..0] == [];
    } else {
      var st' := Next(pm, st, run[0]);
      ClearIffNotOvertaken(pm, st, run[0]);
      hide Next, Clear, NotOvertaken;
      PrefixesClear(pm, st, run);
      if Clear(pm, st'.rows, st'.shelf) {
        ClearRunIff(pm, st', run[1..]);
      }
    }
  }

  predicate ClearAfter(pm: PatternMatch, st: State, run: seq<Section>) {
    Clear(pm, Play(pm, st, run).rows, Play(pm, st, run).shelf)
  }

  predicate NeverOvertaken(pm: PatternMatch, st: State, run: seq<Section>)
    decreases |run|
  {
    run == [] || (NotOvertaken(pm, st, run[0]) && NeverOvertaken(pm, Next(pm, st, run[0]), run[1..]))
  }

  lemma PrefixesClear(pm: PatternMatch, st: State, run: seq<Section>)
    requires run != [] && Clear(pm, st.rows, st.shelf)
    ensures var st' := Next(pm, st, run[0]);
            (forall k | 0 <= k <= |run| :: ClearAfter(pm, st, run[..k])) <==>
            Clear(pm, st'.rows, st'.shelf) && forall k | 0 <= k <= |run[1..]| :: ClearAfter(pm, st', run[1..][..k])
  {
    hide Next, Clear;
    var st' := Next(pm, st, run[0]);
    forall k | 0 < k <= |run|
      ensures ClearAfter(pm, st, run[..k]) <==> ClearAfter(pm, st', run[1..][..k - 1])
    {
      assert run[..k][1..] == run[1..][..k - 1];
    }
    assert ClearAfter(pm, st, run[..0]);
    assert ClearAfter(pm, st', run[1..][..0]) <==> Clear(pm, st'.rows, st'.shelf);
    if forall k | 0 <= k <= |run| :: ClearAfter(pm, st, run[..k]) {
      forall k | 0 <= k <= |run[1..]|
        ensures ClearAfter(pm, st', run[1..][..k])
      {
        assert ClearAfter(pm, st, run[..k + 1]);
      }
    }
  }

  /** An alarm that passes the shelf check before a matching shelf row is added, and takes the
      alarm lock afterwards, stays in the table. */
  lemma ReportOvertaken(pm: PatternMatch, call: Waiting, s: ShelfEntry, now: int)
    requires ShelfMatch(pm, s, call.Key())
    ensures var end := Play(pm, EMPTY, [Check(call), Probe(s), Apply(0), Push(0), Insert(0, now)]);
            !Clear(pm, end.rows, end.shelf)
  {
    var st1 := Next(pm, EMPTY, Check(call));
    var st2 := Next(pm, st1, Probe(s));
    var st3 := Next(pm, st2, Apply(0));
    var st4 := Next(pm, st3, Push(0));
    assert st1 == State([], {}, [call], [], []);
    assert st2 == State([], {}, [call], [s], []);
    assert st3 == State([], {}, [call], [], [s]);
    assert st4.shelf == {s} && st4.waiting == [call] && st4.rows == [];
    assert s in st4.shelf;
    ClearIffNotOvertaken(pm, st4, Insert(0, now));
    PlayFive(pm, EMPTY, Check(call), Probe(s), Apply(0), Push(0), Insert(0, now));
  }

  /** So does an alarm reported as a whole between a shelf row being applied and being pushed. */
  lemma ShelvingOvertaken(pm: PatternMatch, call: Waiting, s: ShelfEntry, now: int)
    requires ShelfMatch(pm, s, call.Key())
    ensures var end := Play(pm, EMPTY, [Probe(s), Apply(0), Check(call), Insert(0, now), Push(0)]);
            !Clear(pm, end.rows, end.shelf)
  {
    var st1 := Next(pm, EMPTY, Probe(s));
    var st2 := Next(pm, st1, Apply(0));
    var st3 := Next(pm, st2, Check(call));
    var st4 := Next(pm, st3, Insert(0, now));
    assert st1 == State([], {}, [], [s], []);
    assert st2 == State([], {}, [], [], [s]);
    assert st3 == State([], {}, [call], [], [s]);
    assert st4.applied == [s] && st4.shelf == {};
    ClearIffNotOvertaken(pm, st3, Insert(0, now));
    RecordedHasKey([], call, now);
    ClearIffNotOvertaken(pm, st4, Push(0));
    PlayFive(pm, EMPTY, Probe(s), Apply(0), Check(call), Insert(0, now), Push(0));
  }

  lemma PlayFirst(pm: PatternMatch, st: State, a: Section, rest: seq<Section>)
    ensures Play(pm, st, [a] + rest) == Play(pm, Next(pm, st, a), rest)
  {
    assert ([a] + rest)[1..] == rest;
  }

  lemma PlayFive(pm: PatternMatch, st: State, a: Section, b: Section, c: Section, d: Section, e: Section)
    ensures Play(pm, st, [a, b, c, d, e]) == Next(pm, Next(pm, Next(pm, Next(pm, Next(pm, st, a), b), c), d), e)
  {
    hide Next;
    var st1 := Next(pm, st, a);
    var st2 := Next(pm, st1, b);
    var st3 := Next(pm, st2, c);
    var st4 := Next(pm, st3, d);
    PlayFirst(pm, st, a, [b, c, d, e]);
    PlayFirst(pm, st1, b, [c, d, e]);
    PlayFirst(pm, st2, c, [d, e]);
    PlayFirst(pm, st3, d, [e]);
    PlayFirst(pm, st4, e, []);
    assert [a] + [b, c, d, e] == [a, b, c, d, e] && [b] + [c, d, e] == [b, c, d, e] && [c] + [d, e] == [c, d, e];
    assert [d] + [e] == [d, e] && [e] + [] == [e];
  }

  // ----- whole calls, one at a time -----

  /** Purging, compressing, managing and discarding a shelf row are one section each. */
  datatype Call =
    | Report(find: Ari -> Option<Obj>, resource: Ari, category: Ari, severity: int, now: int)
    | Ensure(entries: seq<ShelfEntry>)
    | Single(sec: Section)

  predicate Whole(call: Call) {
    call.Single? ==> call.sec.Purge? || call.sec.Compress? || call.sec.Manage? || call.sec.Discard?
  }

  function Called(pm: PatternMatch, st: State, call: Call): State
    requires Whole(call)
  {
    match call
    case Report(find, resource, category, severity, now) =>
      st.(rows := Reported(pm, st.rows, st.shelf, find, resource, category, severity, now))
    case Ensure(entries) =>
      st.(rows := ShelvedRows(pm, st.rows, st.shelf, entries), shelf := st.shelf + AsSet(entries))
    case Single(sec) => Next(pm, st, sec)
  }

  function CallAll(pm: PatternMatch, st: State, calls: seq<Call>): State
    requires forall c | c in calls :: Whole(c)
    decreases |calls|
  {
    if calls == [] then st else CallAll(pm, Called(pm, st, calls[0]), calls[1..])
  }

  lemma {:induction false} EnsureClears(pm: PatternMatch, rows: seq<Row>, shelf: set<ShelfEntry>,
                                        entries: seq<ShelfEntry>)
    requires Clear(pm, rows, shelf)
    ensures Clear(pm, ShelvedRows(pm, rows, shelf, entries), shelf + AsSet(entries))
    decreases |entries|
  {
    if entries == [] {
      assert shelf + AsSet(entries) == shelf;
    } else {
      var s := entries[0];
      var rows' := if s in shelf then rows else Kept(rows, OnShelf(pm, s));
      KeptExactly(rows, OnShelf(pm, s));
      assert Clear(pm, rows', shelf + {s});
      hide Clear, Kept;
      EnsureClears(pm, rows', shelf + {s}, entries[1..]);
      assert shelf + {s} + AsSet(entries[1..]) == shelf + AsSet(entries) by {
        assert entries == [s] + entries[1..];
      }
    }
  }

  lemma CalledClear(pm: PatternMatch, st: State, call: Call)
    requires Whole(call) && Clear(pm, st.rows, st.shelf)
    ensures Clear(pm, Called(pm, st, call).rows, Called(pm, st, call).shelf)
  {
    match call
    case Report(find, resource, category, severity, now) =>
      var cat := if category.Null? then None else find(category);
      var w := Waiting(IdentRef(resource, find(resource)), IdentRef(category, cat), severity);
      var waiting := st.(waiting := [w]);
      if !Shelved(pm, st.shelf, w.Key()) {
        ClearIffNotOvertaken(pm, waiting, Insert(0, now));
      }
    case Ensure(entries) =>
      EnsureClears(pm, st.rows, st.shelf, entries);
    case Single(sec) =>
      ClearIffNotOvertaken(pm, st, sec);
  }

  /** When whole calls are atomic, no reachable table holds an alarm that a shelf entry matches. */
  lemma {:induction false} AtomicRunsStayClear(pm: PatternMatch, st: State, calls: seq<Call>)
    requires forall c | c in calls :: Whole(c)
    requires Clear(pm, st.rows, st.shelf)
    ensures Clear(pm, CallAll(pm, st, calls).rows, CallAll(pm, st, calls).shelf)
    decreases |calls|
  {
    if calls != [] {
      CalledClear(pm, st, calls[0]);
      AtomicRunsStayClear(pm, Called(pm, st, calls[0]), calls[1..]);
    }
  }
}
