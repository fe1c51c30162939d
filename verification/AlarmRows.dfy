/** What the alarm operations do to the alarm table, as functions on its rows. */
module AlarmRows {
  import opened Wrappers
  import opened Values
  import opened Lists
  import opened Eval

  /** A reference with the IDENT object found for it, if any. */
  datatype IdentRef = IdentRef(name: Ari, obj: Option<Obj>)

  datatype EntryKey = EntryKey(resource: Option<Obj>, category: Option<Obj>)

  datatype Hist = Hist(at: int, severity: int)

  const MGR_STATE_NONE := 0
  const MGR_STATE_SHELVED := 3

  datatype Row = Row(
    resource: IdentRef, category: IdentRef, severity: int,
    createdAt: Option<int>, updatedAt: Option<int>, history: seq<Hist>,
    mgrState: int, mgrIdent: Ari, mgrTime: Ari)
  {
    function Key(): EntryKey {
      EntryKey(resource.obj, category.obj)
    }
  }

  function NewRow(resource: IdentRef, category: IdentRef): Row {
    Row(resource, category, 0, None, None, [], MGR_STATE_NONE, Null, Null)
  }

  // ----- filters on entries -----

  function Lower(s: string): string {
    if s == [] then []
    else [if 'A' <= s[0] <= 'Z' then s[0] - 'A' + 'a' else s[0]] + Lower(s[1..])
  }

  /** The columns that labels can name: all but the history. */
  datatype Columns = Columns(
    resource: Ari, category: Ari, severity: int, createdAt: Option<int>, updatedAt: Option<int>,
    mgrState: int, mgrIdent: Ari, mgrTime: Ari)

  function ColumnsOf(r: Row): Columns {
    Columns(r.resource.name, r.category.name, r.severity, r.createdAt, r.updatedAt, r.mgrState, r.mgrIdent, r.mgrTime)
  }

  function TimeValue(t: Option<int>): Ari {
    if t.None? then Undefined else Time(t.value)
  }

  function ColumnAt(c: Columns, index: int): Option<Ari> {
    match index
    case 0 => Some(c.resource)
    case 1 => Some(c.category)
    case 2 => Some(Int(c.severity))
    case 3 => Some(TimeValue(c.createdAt))
    case 4 => Some(TimeValue(c.updatedAt))
    case 6 => Some(Int(c.mgrState))
    case 7 => Some(c.mgrIdent)
    case 8 => Some(c.mgrTime)
    case _ => None
  }

  function Column(c: Columns, l: Label): Option<Ari> {
    match l
    case TextLabel(text) =>
      var name := Lower(text);
      if name == "resource" then ColumnAt(c, 0)
      else if name == "category" then ColumnAt(c, 1)
      else if name == "severity" then ColumnAt(c, 2)
      else if name == "time-created" then ColumnAt(c, 3)
      else if name == "time-updated" then ColumnAt(c, 4)
      else None
    case IntLabel(n) => ColumnAt(c, n)
    case OtherLabel => None
  }

  function RowSub(c: Columns): Substitution {
    (l: Label) => Column(c, l)
  }

  /** The filter evaluates on the row to a truthy value. */
  predicate FilterHits(env: Env, filter: Ari, r: Row) {
    Matches(env, filter, RowSub(ColumnsOf(r)))
  }

  // ----- shelving -----

  datatype ShelfEntry = ShelfEntry(resources: Ari, categories: Ari)

  /** Whether a set of object patterns matches an object. */
  type PatternMatch = (Ari, Obj) -> bool

  /** An entry without a category object is matched by no shelf entry. */
  predicate ShelfMatch(pm: PatternMatch, s: ShelfEntry, k: EntryKey) {
    k.resource.Some? && k.category.Some? &&
    pm(s.resources, k.resource.value) && pm(s.categories, k.category.value)
  }

  predicate Shelved(pm: PatternMatch, shelf: set<ShelfEntry>, k: EntryKey) {
    exists s | s in shelf :: ShelfMatch(pm, s, k)
  }

  // ----- the operations on rows -----

  function Touched(r: Row, severity: int, now: int): Row {
    r.(severity := severity,
       updatedAt := Some(now),
       createdAt := if r.createdAt.None? then Some(now) else r.createdAt,
       history := [Hist(now, severity)] + r.history)
  }

  /** Record an alarm state: on the row with that key if there is one, else on a new last row. */
  function Recorded(rows: seq<Row>, resource: IdentRef, category: IdentRef, severity: int, now: int): seq<Row> {
    if rows == [] then [Touched(NewRow(resource, category), severity, now)]
    else if rows[0].Key() == EntryKey(resource.obj, category.obj) then [Touched(rows[0], severity, now)] + rows[1..]
    else [rows[0]] + Recorded(rows[1..], resource, category, severity, now)
  }

  /** The rows that stay, in order. */
  function Kept(rows: seq<Row>, drop: Row -> bool): seq<Row> {
    if rows == [] then []
    else if drop(rows[0]) then Kept(rows[1..], drop)
    else [rows[0]] + Kept(rows[1..], drop)
  }

  function Hitting(env: Env, filter: Ari): Row -> bool {
    (r: Row) => FilterHits(env, filter, r)
  }

  function OnShelf(pm: PatternMatch, s: ShelfEntry): Row -> bool {
    (r: Row) => ShelfMatch(pm, s, r.Key())
  }

  function CompressedRow(hit: Row -> bool, r: Row): Row {
    if hit(r) && |r.history| > 1 then r.(history := r.history[..1]) else r
  }

  function Compressed(hit: Row -> bool, rows: seq<Row>): (out: seq<Row>)
    ensures |out| == |rows|
  {
    seq(|rows|, i requires 0 <= i < |rows| => CompressedRow(hit, rows[i]))
  }

  /** Setting the manager state; asking for the shelved state changes nothing. */
  function ManagedRow(hit: Row -> bool, state: int, mgr: Ari, now: int, r: Row): Row {
    if hit(r) && state != MGR_STATE_SHELVED && r.mgrState != state then
      r.(mgrState := state, mgrIdent := mgr, mgrTime := Time(now))
    else r
  }

  /** `clock(i)` is the time read while at the i-th entry. */
  function Managed(hit: Row -> bool, state: int, mgr: Ari, clock: nat -> int, rows: seq<Row>): (out: seq<Row>)
    ensures |out| == |rows|
  {
    seq(|rows|, i requires 0 <= i < |rows| => ManagedRow(hit, state, mgr, clock(i), rows[i]))
  }

  /** The number of positions at which two tables of the same length differ. */
  function Changes(before: seq<Row>, after: seq<Row>): nat
    requires |before| == |after|
  {
    if before == [] then 0
    else (if before[0] != after[0] then 1 else 0) + Changes(before[1..], after[1..])
  }

  // ----- laws of the operations -----

  predicate UniqueKeys(rows: seq<Row>) {
    forall i, j | 0 <= i < j < |rows| :: rows[i].Key() != rows[j].Key()
  }

  lemma {:induction false} RecordedFound(rows: seq<Row>, resource: IdentRef, category: IdentRef,
                                         severity: int, now: int, i: nat)
    requires i < |rows| && rows[i].Key() == EntryKey(resource.obj, category.obj)
    requires UniqueKeys(rows)
    ensures Recorded(rows, resource, category, severity, now) == rows[i := Touched(rows[i], severity, now)]
  {
    if i > 0 {
      assert rows[0].Key() != rows[i].Key();
      RecordedFound(rows[1..], resource, category, severity, now, i - 1);
      assert rows == [rows[0]] + rows[1..];
    }
  }

  lemma {:induction false} RecordedNew(rows: seq<Row>, resource: IdentRef, category: IdentRef, severity: int, now: int)
    requires forall i | 0 <= i < |rows| :: rows[i].Key() != EntryKey(resource.obj, category.obj)
    ensures Recorded(rows, resource, category, severity, now) ==
            rows + [Touched(NewRow(resource, category), severity, now)]
  {
    if rows != [] {
      RecordedNew(rows[1..], resource, category, severity, now);
      assert rows == [rows[0]] + rows[1..];
    }
  }

  /** Rows survive exactly when they are not dropped, and all survivors are old rows. */
  lemma {:induction false} KeptExactly(rows: seq<Row>, drop: Row -> bool)
    ensures forall r :: r in Kept(rows, drop) <==> r in rows && !drop(r)
    ensures |Kept(rows, drop)| <= |rows|
    ensures UniqueKeys(rows) ==> UniqueKeys(Kept(rows, drop))
  {
    if rows != [] {
      var rest := rows[1..];
      KeptExactly(rest, drop);
      assert rows == [rows[0]] + rest;
      if UniqueKeys(rows) {
        forall i | 0 <= i < |Kept(rest, drop)|
          ensures Kept(rest, drop)[i].Key() != rows[0].Key()
        {
          assert Kept(rest, drop)[i] in rest;
          var j :| 0 <= j < |rest| && rest[j] == Kept(rest, drop)[i];
          assert rest[j] == rows[j + 1];
        }
      }
    }
  }

  /** The positions that are not dropped, counted from `from`. */
  ghost function Survivors(rows: seq<Row>, drop: Row -> bool, from: nat): seq<nat> {
    if rows == [] then []
    else (if drop(rows[0]) then [] else [from]) + Survivors(rows[1..], drop, from + 1)
  }

  /** `out` holds the rows at the positions `at`, counted from `from`, none of them dropped. */
  ghost predicate Selected(at: seq<nat>, out: seq<Row>, rows: seq<Row>, drop: Row -> bool, from: nat) {
    && |at| == |out|
    && forall i | 0 <= i < |at| :: from <= at[i] < from + |rows| && out[i] == rows[at[i] - from] && !drop(out[i])
  }

  /** Every position that is not dropped is in `at`. */
  ghost predicate Complete(at: seq<nat>, rows: seq<Row>, drop: Row -> bool, from: nat) {
    forall k | 0 <= k < |rows| && !drop(rows[k]) :: from + k in at
  }

  lemma SelectedCons(at: seq<nat>, out: seq<Row>, rows: seq<Row>, drop: Row -> bool, from: nat)
    requires rows != [] && Selected(at, out, rows[1..], drop, from + 1)
    ensures Selected(at, out, rows, drop, from)
    ensures !drop(rows[0]) ==> Selected([from] + at, [rows[0]] + out, rows, drop, from)
    ensures Ascending(at) ==> Ascending([from] + at)
  {
  }

  lemma CompleteCons(at: seq<nat>, rows: seq<Row>, drop: Row -> bool, from: nat)
    requires rows != [] && Complete(at, rows[1..], drop, from + 1)
    ensures Complete([from] + at, rows, drop, from)
    ensures drop(rows[0]) ==> Complete(at, rows, drop, from)
  {
    forall k | 1 <= k < |rows| && !drop(rows[k])
      ensures from + k in at
    {
      assert rows[1..][k - 1] == rows[k] && from + 1 + (k - 1) == from + k;
    }
  }

  /** The survivors are the rows at the positions that are not dropped, in their old order. */
  lemma {:induction false} KeptInOrder(rows: seq<Row>, drop: Row -> bool, from: nat)
    ensures var at := Survivors(rows, drop, from);
            Ascending(at) && Selected(at, Kept(rows, drop), rows, drop, from) && Complete(at, rows, drop, from)
  {
    if rows == [] {
    } else {
      KeptInOrder(rows[1..], drop, from + 1);
      hide Ascending, Selected, Complete;
      var at, out := Survivors(rows[1..], drop, from + 1), Kept(rows[1..], drop);
      SelectedCons(at, out, rows, drop, from);
      CompleteCons(at, rows, drop, from);
      assert [] + at == at && [] + out == out;
    }
  }

  lemma {:induction false} KeptAll(rows: seq<Row>, drop: Row -> bool)
    requires forall r | r in rows :: !drop(r)
    ensures Kept(rows, drop) == rows
  {
    if rows != [] {
      KeptAll(rows[1..], drop);
      assert rows == [rows[0]] + rows[1..];
    }
  }

  /** Purging or shelving again at once removes nothing. */
  lemma KeptTwice(rows: seq<Row>, drop: Row -> bool)
    ensures Kept(Kept(rows, drop), drop) == Kept(rows, drop)
  {
    KeptExactly(rows, drop);
    KeptAll(Kept(rows, drop), drop);
  }

  lemma {:induction false} NoChanges(rows: seq<Row>)
    ensures Changes(rows, rows) == 0
  {
    if rows != [] {
      NoChanges(rows[1..]);
    }
  }

  lemma {:induction false} ChangesSnoc(xs: seq<Row>, ys: seq<Row>, x: Row, y: Row)
    requires |xs| == |ys|
    ensures Changes(xs + [x], ys + [y]) == Changes(xs, ys) + (if x != y then 1 else 0)
  {
    if xs == [] {
      assert (xs + [x])[1..] == [] && (ys + [y])[1..] == [];
    } else {
      assert (xs + [x])[1..] == xs[1..] + [x] && (ys + [y])[1..] == ys[1..] + [y];
      ChangesSnoc(xs[1..], ys[1..], x, y);
    }
  }

  /** Filters do not see the history. */
  lemma HistoryUnseen(env: Env, filter: Ari, r: Row, history: seq<Hist>)
    ensures Hitting(env, filter)(r.(history := history)) == Hitting(env, filter)(r)
  {
    assert ColumnsOf(r.(history := history)) == ColumnsOf(r);
  }

  /** Compressing again through the same filter affects nothing. */
  lemma CompressTwice(env: Env, filter: Ari, rows: seq<Row>)
    ensures var hit := Hitting(env, filter);
            var once := Compressed(hit, rows);
            Compressed(hit, once) == once && Changes(once, Compressed(hit, once)) == 0
  {
    var hit := Hitting(env, filter);
    var once := Compressed(hit, rows);
    forall i | 0 <= i < |rows|
      ensures CompressedRow(hit, once[i]) == once[i]
    {
      HistoryUnseen(env, filter, rows[i], rows[i].history[..if |rows[i].history| > 1 then 1 else 0]);
    }
    assert Compressed(hit, once) == once;
    NoChanges(once);
  }

  /** Setting the same state through the same filter again affects nothing, whatever clock
      and manager come with the second request, although the first one changed columns that
      the filter reads. */
  lemma ManageTwice(hit: Row -> bool, state: int, mgr: Ari, clock: nat -> int, mgr': Ari, clock': nat -> int,
                    rows: seq<Row>)
    ensures var once := Managed(hit, state, mgr, clock, rows);
            && Managed(hit, state, mgr', clock', once) == once
            && Changes(once, Managed(hit, state, mgr', clock', once)) == 0
  {
    var once := Managed(hit, state, mgr, clock, rows);
    forall i | 0 <= i < |rows|
      ensures ManagedRow(hit, state, mgr', clock'(i), once[i]) == once[i]
    {
      assert once[i] == ManagedRow(hit, state, mgr, clock(i), rows[i]);
    }
    assert Managed(hit, state, mgr', clock', once) == once;
    NoChanges(once);
  }
}
