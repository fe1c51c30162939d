/** What the alarm operations do to each row, said of the outcome of the filter, the shelf entries
    and the fields of the row alone. */
module AlarmLaws {
  import opened Wrappers
  import opened Values
  import opened Lists
  import opened Eval
  import opened AlarmRows
  import opened Alarms

  // ----- what a filter sees of a row -----

  /** The labels of a row: by number all columns but the history, by name the first five, in any
      letter case. */
  lemma RowLabels(r: Row)
    ensures var at := RowSub(ColumnsOf(r));
            && at(IntLabel(0)) == Some(r.resource.name) && at(IntLabel(1)) == Some(r.category.name)
            && at(IntLabel(2)) == Some(Int(r.severity))
            && at(IntLabel(3)) == Some(if r.createdAt.None? then Undefined else Time(r.createdAt.value))
            && at(IntLabel(4)) == Some(if r.updatedAt.None? then Undefined else Time(r.updatedAt.value))
            && at(IntLabel(6)) == Some(Int(r.mgrState)) && at(IntLabel(7)) == Some(r.mgrIdent)
            && at(IntLabel(8)) == Some(r.mgrTime)
            && (forall n | n < 0 || n == 5 || n > 8 :: at(IntLabel(n)) == None)
            && at(OtherLabel) == None
  {
  }

  lemma RowNames(r: Row, text: string)
    ensures var at := RowSub(ColumnsOf(r));
            && (Lower(text) == "resource" ==> at(TextLabel(text)) == Some(r.resource.name))
            && (Lower(text) == "category" ==> at(TextLabel(text)) == Some(r.category.name))
            && (Lower(text) == "severity" ==> at(TextLabel(text)) == Some(Int(r.severity)))
            && (Lower(text) == "time-created" ==> at(TextLabel(text)) == at(IntLabel(3)))
            && (Lower(text) == "time-updated" ==> at(TextLabel(text)) == at(IntLabel(4)))
            && (Lower(text) !in {"resource", "category", "severity", "time-created", "time-updated"} ==>
                  at(TextLabel(text)) == None)
  {
  }

  /** The outcome of a filter on a row. */
  function OnRow(env: Env, filter: Ari, r: Row): Result<Ari> {
    EvalFilter(env, filter, RowSub(ColumnsOf(r)))
  }

  // ----- filters -----

  /** A purge removes exactly the rows on which the filter evaluates to a truthy value; a row on
      which it fails stays. */
  lemma PurgedExactly(env: Env, filter: Ari, rows: seq<Row>, r: Row)
    requires r in rows
    ensures r !in Kept(rows, Hitting(env, filter)) <==>
            OnRow(env, filter, r).Ok? && Truthy(OnRow(env, filter, r).value)
  {
    KeptExactly(rows, Hitting(env, filter));
  }

  /** Compression cuts the history of exactly those rows to its newest item and touches nothing
      else. */
  lemma CompressedExactly(env: Env, filter: Ari, rows: seq<Row>, i: nat)
    requires i < |rows|
    ensures var out := OnRow(env, filter, rows[i]);
            Compressed(Hitting(env, filter), rows)[i] ==
            if out.Ok? && Truthy(out.value) && |rows[i].history| > 0 then rows[i].(history := [rows[i].history[0]])
            else rows[i]
  {
    hide EvalFilter, Truthy;
    if |rows[i].history| > 1 {
      assert rows[i].history[..1] == [rows[i].history[0]];
    } else if |rows[i].history| == 1 {
      assert rows[i].history == [rows[i].history[0]];
    }
  }

  /** Setting a manager state sets state, manager and time on exactly those rows that have another
      state, and touches nothing else; the shelved state is never set. */
  lemma ManagedExactly(env: Env, filter: Ari, state: int, mgr: Ari, clock: nat -> int, rows: seq<Row>, i: nat)
    requires i < |rows|
    ensures var out, now := OnRow(env, filter, rows[i]), Managed(Hitting(env, filter), state, mgr, clock, rows)[i];
            if out.Ok? && Truthy(out.value) && state != 3 && rows[i].mgrState != state then
              && now.mgrState == state && now.mgrIdent == mgr && now.mgrTime == Time(clock(i))
              && now == rows[i].(mgrState := now.mgrState, mgrIdent := now.mgrIdent, mgrTime := now.mgrTime)
            else now == rows[i]
  {
    hide EvalFilter, Truthy;
    ManagedAt(Hitting(env, filter), state, mgr, clock, rows, i);
    assert Hitting(env, filter)(rows[i]) <==>
           OnRow(env, filter, rows[i]).Ok? && Truthy(OnRow(env, filter, rows[i]).value);
  }

  function Differ(before: seq<Row>, after: seq<Row>): set<nat>
    requires |before| == |after|
  {
    set i: nat | i < |before| && before[i] != after[i]
  }

  /** The number of affected rows. */
  lemma {:induction false} ChangesCounted(before: seq<Row>, after: seq<Row>)
    requires |before| == |after|
    ensures Changes(before, after) == |Differ(before, after)|
  {
    if before == [] {
      assert Differ(before, after) == {};
    } else {
      var n := |before| - 1;
      var front, front' := before[..n], after[..n];
      assert before == front + [before[n]] && after == front' + [after[n]];
      ChangesCounted(front, front');
      ChangesSnoc(front, front', before[n], after[n]);
      assert Differ(before, after) == Differ(front, front') + (if before[n] != after[n] then {n} else {});
      hide Changes;
    }
  }

  // ----- recording -----

  predicate ForAlarm(r: Row, resource: IdentRef, category: IdentRef) {
    r.resource.obj == resource.obj && r.category.obj == category.obj
  }

  /** An alarm recorded for the first time. */
  lemma RecordedFirst(rows: seq<Row>, resource: IdentRef, category: IdentRef, severity: int, now: int)
    requires forall r | r in rows :: !ForAlarm(r, resource, category)
    ensures Recorded(rows, resource, category, severity, now) ==
            rows + [Row(resource, category, severity, Some(now), Some(now), [Hist(now, severity)], 0, Null, Null)]
  {
    assert forall i | 0 <= i < |rows| :: rows[i] in rows;
    RecordedNew(rows, resource, category, severity, now);
    assert [Hist(now, severity)] + [] == [Hist(now, severity)];
  }

  /** An alarm recorded again: its row, and no other, gets the severity and the time, which also go
      to the front of its history. */
  lemma RecordedAgain(rows: seq<Row>, resource: IdentRef, category: IdentRef, severity: int, now: int, i: nat)
    requires UniqueKeys(rows) && i < |rows| && ForAlarm(rows[i], resource, category)
    ensures var after := Recorded(rows, resource, category, severity, now);
            && |after| == |rows| && (forall j | 0 <= j < |rows| && j != i :: after[j] == rows[j])
            && after[i].severity == severity && after[i].updatedAt == Some(now)
            && after[i].createdAt == (if rows[i].createdAt.None? then Some(now) else rows[i].createdAt)
            && after[i].history == [Hist(now, severity)] + rows[i].history
            && after[i] == rows[i].(severity := after[i].severity, updatedAt := after[i].updatedAt,
                                    createdAt := after[i].createdAt, history := after[i].history)
  {
    RecordedFound(rows, resource, category, severity, now, i);
    hide Recorded;
  }

  // ----- shelving -----

  /** A shelf entry matches a row when its patterns match both objects of the row. */
  predicate Matching(pm: PatternMatch, s: ShelfEntry, r: Row) {
    && r.resource.obj.Some? && r.category.obj.Some?
    && pm(s.resources, r.resource.obj.value) && pm(s.categories, r.category.obj.value)
  }

  lemma ShelvedMeans(pm: PatternMatch, shelf: set<ShelfEntry>, r: Row)
    ensures Shelved(pm, shelf, r.Key()) <==> exists s | s in shelf :: Matching(pm, s, r)
  {
    assert forall s :: ShelfMatch(pm, s, r.Key()) <==> Matching(pm, s, r);
  }

  /** Applying a shelf entry removes exactly the rows it matches. */
  lemma ShelvedExactly(pm: PatternMatch, s: ShelfEntry, rows: seq<Row>, r: Row)
    ensures r in Kept(rows, OnShelf(pm, s)) <==> r in rows && !Matching(pm, s, r)
  {
    KeptExactly(rows, OnShelf(pm, s));
  }

  /** Adding shelf rows removes exactly the rows that an entry matches which was not there. */
  lemma {:induction false} EnsuredExactly(pm: PatternMatch, rows: seq<Row>, shelf: set<ShelfEntry>,
                                          entries: seq<ShelfEntry>, r: Row)
    ensures r in ShelvedRows(pm, rows, shelf, entries) <==>
            r in rows && forall s | s in entries && s !in shelf :: !Matching(pm, s, r)
    decreases |entries|
  {
    if entries != [] {
      var e := entries[0];
      ShelvedExactly(pm, e, rows, r);
      hide Kept, Matching;
      EnsuredExactly(pm, if e in shelf then rows else Kept(rows, OnShelf(pm, e)), shelf + {e}, entries[1..], r);
      assert entries == [e] + entries[1..];
    }
  }

  /** A report changes nothing when its resource is unknown, its category is given but unknown, or a
      shelf entry matches its objects; else it is recorded. */
  lemma ReportedExactly(pm: PatternMatch, rows: seq<Row>, shelf: set<ShelfEntry>, find: Ari -> Option<Obj>,
                        resource: Ari, category: Ari, severity: int, now: int)
    ensures var res, cat := find(resource), if category == Null then None else find(category);
            Reported(pm, rows, shelf, find, resource, category, severity, now) ==
            if || res.None? || (category != Null && cat.None?)
               || exists s | s in shelf ::
                    cat.Some? && pm(s.resources, res.value) && pm(s.categories, cat.value)
            then rows
            else Recorded(rows, IdentRef(resource, res), IdentRef(category, cat), severity, now)
  {
    var res, cat := find(resource), if category == Null then None else find(category);
    assert forall s :: ShelfMatch(pm, s, EntryKey(res, cat)) <==>
                       res.Some? && cat.Some? && pm(s.resources, res.value) && pm(s.categories, cat.value);
    hide Recorded;
  }
}
