/** The alarm store: a list of entries, an index into it by key, and the shelf. Each
    method is one critical section, except SetRefs and EnsureShelf which are whole calls. */
module Alarms {
  import opened Wrappers
  import opened Values
  import opened Eval
  import opened AlarmRows

  class Entry {
    const resource: IdentRef
    const category: IdentRef
    var severity: int
    var createdAt: Option<int>
    var updatedAt: Option<int>
    var history: seq<Hist>
    var mgrState: int
    var mgrIdent: Ari
    var mgrTime: Ari

    constructor (resource: IdentRef, category: IdentRef)
      ensures View() == NewRow(resource, category)
    {
      this.resource, this.category := resource, category;
      severity := 0;
      createdAt, updatedAt := None, None;
      history := [];
      mgrState, mgrIdent, mgrTime := MGR_STATE_NONE, Null, Null;
    }

    function Key(): EntryKey {
      EntryKey(resource.obj, category.obj)
    }

    function View(): Row
      reads this
    {
      Row(resource, category, severity, createdAt, updatedAt, history, mgrState, mgrIdent, mgrTime)
    }

    /** Update the main state and record it at the front of the history. */
    method Touch(severity: int, now: int)
      modifies this
      ensures View() == Touched(old(View()), severity, now)
    {
      this.severity := severity;
      updatedAt := Some(now);
      if createdAt.None? {
        createdAt := updatedAt;
      }
      history := [Hist(now, severity)] + history;
    }

    /** Pop history items from the back until one is left. */
    method CompressHistory() returns (changed: bool)
      modifies this`history
      ensures changed == (|old(history)| > 1)
      ensures history == if changed then old(history)[..1] else old(history)
    {
      changed := false;
      var size := |history|;
      if size > 1 {
        size := size - 1;
        while size > 0
          invariant 0 <= size < |old(history)|
          invariant history == old(history)[..size + 1]
        {
          history := history[..|history| - 1];
          size := size - 1;
        }
        changed := true;
      }
    }
  }

  /** Keys are unique, the index maps exactly the keys of the listed entries, each to its own
      entry, and no index pointer outlives its entry. */
  ghost predicate Coherent(list: seq<Entry>, index: map<EntryKey, Entry>) {
    && (forall i, j | 0 <= i < j < |list| :: list[i].Key() != list[j].Key())
    && (forall e | e in list :: e.Key() in index && index[e.Key()] == e)
    && (forall k | k in index :: index[k] in list && index[k].Key() == k)
  }

  lemma CoherentRows(list: seq<Entry>, index: map<EntryKey, Entry>, rows: seq<Row>)
    requires Coherent(list, index) && |rows| == |list|
    requires forall i | 0 <= i < |list| :: list[i].View() == rows[i]
    ensures UniqueKeys(rows)
    ensures forall i | 0 <= i < |rows| :: rows[i].Key() in index && index[rows[i].Key()] == list[i]
  {
    forall i | 0 <= i < |rows|
      ensures rows[i].Key() == list[i].Key()
    {
      assert list[i].View() == rows[i];
    }
  }

  lemma CoherentDistinct(list: seq<Entry>, index: map<EntryKey, Entry>, i: nat)
    requires Coherent(list, index) && i < |list|
    ensures forall j | 0 <= j < |list| && j != i :: list[j] != list[i]
  {
  }

  lemma CoherentAdd(list: seq<Entry>, index: map<EntryKey, Entry>, e: Entry)
    requires Coherent(list, index) && e.Key() !in index
    ensures Coherent(list + [e], index[e.Key() := e])
  {
  }

  lemma CoherentRemove(list: seq<Entry>, index: map<EntryKey, Entry>, i: nat)
    requires Coherent(list, index) && i < |list|
    ensures Coherent(list[..i] + list[i + 1..], index - {list[i].Key()})
  {
    var rest := list[..i] + list[i + 1..];
    assert forall e | e in rest :: e in list && e.Key() != list[i].Key();
    assert forall e | e in list && e.Key() != list[i].Key() :: e in rest;
  }

  /** One step of purging in place, at position `i`: keeping the row moves on, dropping it stays. */
  lemma PurgeStep(rows: seq<Row>, i: nat, drop: Row -> bool)
    requires i < |rows|
    ensures var rest := rows[..i] + rows[i + 1..];
            rows[..i] + Kept(rows[i..], drop) ==
            if drop(rows[i]) then rest[..i] + Kept(rest[i..], drop) else rows[..i + 1] + Kept(rows[i + 1..], drop)
  {
    var rest := rows[..i] + rows[i + 1..];
    assert rows[i..][1..] == rows[i + 1..] == rest[i..];
    assert rest[..i] == rows[..i];
    assert rows[..i] + ([rows[i]] + Kept(rows[i + 1..], drop)) == rows[..i + 1] + Kept(rows[i + 1..], drop);
  }

  lemma PurgeEnds(rows: seq<Row>, drop: Row -> bool)
    ensures rows[..0] + Kept(rows[0..], drop) == Kept(rows, drop)
    ensures rows[..|rows|] + Kept(rows[|rows|..], drop) == rows
  {
    assert rows[0..] == rows;
  }

  class AlarmStore {
    const pm: PatternMatch
    var list: seq<Entry>
    var index: map<EntryKey, Entry>
    var shelf: set<ShelfEntry>
    ghost var rows: seq<Row>  // the rows of the listed entries
    ghost var repr: set<Entry>  // all entries ever listed

    constructor (pm: PatternMatch)
      ensures Valid() && this.pm == pm && rows == [] && repr == {} && shelf == {}
    {
      this.pm := pm;
      list, index, shelf := [], map[], {};
      rows, repr := [], {};
    }

    ghost predicate Valid()
      reads this, repr
    {
      && Coherent(list, index)
      && |rows| == |list|
      && forall i | 0 <= i < |list| :: list[i] in repr && list[i].View() == rows[i]
    }

    lemma OneRowEach()
      requires Valid()
      ensures |rows| == |list|
    {
    }

    /** The shelf region of recording an alarm: does any shelf entry match? */
    method CheckShelf(key: EntryKey) returns (anyMatch: bool)
      ensures anyMatch == Shelved(pm, shelf, key)
    {
      anyMatch := false;
      var left := shelf;
      while left != {}
        invariant left <= shelf
        invariant forall s | s in shelf - left :: !ShelfMatch(pm, s, key)
      {
        var s :| s in left;
        if ShelfMatch(pm, s, key) {
          return true;
        }
        left := left - {s};
      }
    }

    method TouchEntry(entry: Entry, ghost i: nat, severity: int, now: int)
      requires Valid() && i < |list| && list[i] == entry
      modifies this`rows, repr
      ensures Valid() && |old(rows)| == |list|
      ensures rows == old(rows)[i := Touched(old(rows)[i], severity, now)]
    {
      CoherentDistinct(list, index, i);
      hide Coherent, Touched;
      entry.Touch(severity, now);
      rows := rows[i := entry.View()];
    }

    lemma KnownAt(resource: IdentRef, category: IdentRef, severity: int, now: int) returns (i: nat)
      requires Valid() && EntryKey(resource.obj, category.obj) in index
      ensures i < |list| == |rows| && list[i] == index[EntryKey(resource.obj, category.obj)]
      ensures Recorded(rows, resource, category, severity, now) == rows[i := Touched(rows[i], severity, now)]
    {
      i :| 0 <= i < |list| && list[i] == index[EntryKey(resource.obj, category.obj)];
      CoherentRows(list, index, rows);
      assert list[i].View() == rows[i];
      RecordedFound(rows, resource, category, severity, now, i);
    }

    method RecordKnown(resource: IdentRef, category: IdentRef, severity: int, now: int)
      requires Valid() && EntryKey(resource.obj, category.obj) in index
      modifies this`rows, repr
      ensures Valid()
      ensures rows == Recorded(old(rows), resource, category, severity, now)
    {
      hide *;
      ghost var i := KnownAt(resource, category, severity, now);
      TouchEntry(index[EntryKey(resource.obj, category.obj)], i, severity, now);
    }

    method AppendEntry(entry: Entry)
      requires Valid() && entry.Key() !in index
      modifies this`list, this`index, this`rows, this`repr
      ensures Valid() && repr == old(repr) + {entry}
      ensures rows == old(rows) + [entry.View()]
    {
      CoherentAdd(list, index, entry);
      hide Coherent;
      list := list + [entry];
      index := index[entry.Key() := entry];
      rows, repr := rows + [entry.View()], repr + {entry};
    }

    method RecordNew(resource: IdentRef, category: IdentRef, severity: int, now: int)
      requires Valid() && EntryKey(resource.obj, category.obj) !in index
      modifies this`list, this`index, this`rows, this`repr
      ensures Valid() && repr >= old(repr) && fresh(repr - old(repr))
      ensures rows == Recorded(old(rows), resource, category, severity, now)
    {
      CoherentRows(list, index, rows);
      RecordedNew(rows, resource, category, severity, now);
      hide Coherent, Recorded, Touched;
      var entry := new Entry(resource, category);
      entry.Touch(severity, now);
      AppendEntry(entry);
    }

    /** The alarm region of recording an alarm. */
    method Record(resource: IdentRef, category: IdentRef, severity: int, now: int)
      requires Valid()
      modifies this`list, this`index, this`rows, this`repr, repr
      ensures Valid() && repr >= old(repr) && fresh(repr - old(repr))
      ensures rows == Recorded(old(rows), resource, category, severity, now)
    {
      if EntryKey(resource.obj, category.obj) in index {
        RecordKnown(resource, category, severity, now);
      } else {
        RecordNew(resource, category, severity, now);
      }
    }

    /** Record an alarm state as one uninterrupted call. `find` looks up an IDENT object. */
    method SetRefs(find: Ari -> Option<Obj>, resource: Ari, category: Ari, severity: int, now: int)
      requires Valid()
      modifies this`list, this`index, this`rows, this`repr, repr
      ensures Valid() && repr >= old(repr) && fresh(repr - old(repr))
      ensures rows == Reported(pm, old(rows), shelf, find, resource, category, severity, now)
    {
      var resRef := IdentRef(resource, find(resource));
      var catRef := if category.Null? then IdentRef(Null, None) else IdentRef(category, find(category));
      if resRef.obj.None? {
        return;
      }
      if !catRef.name.Null? && catRef.obj.None? {
        return;
      }
      var anyMatch := CheckShelf(EntryKey(resRef.obj, catRef.obj));
      if anyMatch {
        return;
      }
      Record(resRef, catRef, severity, now);
    }

    /** Remove the entry at position `i` while the list is locked. */
    method PurgeEntry(i: nat)
      requires Valid() && i < |list|
      modifies this`list, this`index, this`rows
      ensures Valid()
      ensures list == old(list)[..i] + old(list)[i + 1..]
      ensures rows == old(rows)[..i] + old(rows)[i + 1..]
    {
      hide Coherent;
      CoherentRemove(list, index, i);
      index := index - {list[i].Key()};
      list := list[..i] + list[i + 1..];
      rows := rows[..i] + rows[i + 1..];
    }

    method PurgeAt(i: nat, drop: Row -> bool) returns (gone: bool)
      requires Valid() && i < |list|
      modifies this`list, this`index, this`rows
      ensures Valid() && |rows| == |list| && i < |old(rows)|
      ensures gone == drop(old(rows)[i])
      ensures rows == if gone then old(rows)[..i] + old(rows)[i + 1..] else old(rows)
    {
      hide Coherent;
      gone := drop(list[i].View());
      if gone {
        PurgeEntry(i);
      }
    }

    /** Remove in place, front to back, the entries whose rows `drop` selects. Purging and
        shelving share this loop and differ in the test. */
    method PurgeWhere(drop: Row -> bool) returns (affected: nat)
      requires Valid()
      modifies this`list, this`index, this`rows
      ensures Valid()
      ensures rows == Kept(old(rows), drop)
      ensures affected == |old(rows)| - |rows|
    {
      hide *;
      OneRowEach();
      affected := 0;
      ghost var all := rows;
      PurgeEnds(rows, drop);
      var i := 0;
      while i < |list|
        invariant Valid() && i <= |rows| == |list|
        invariant affected == |all| - |rows|
        invariant rows[..i] + Kept(rows[i..], drop) == Kept(all, drop)
        decreases |list| - i
      {
        PurgeStep(rows, i, drop);
        var gone := PurgeAt(i, drop);
        if gone {
          affected := affected + 1;
        } else {
          i := i + 1;
        }
      }
      PurgeEnds(rows, drop);
    }

    /** Remove the entries on which the filter evaluates to a truthy value; an entry on which
        evaluation fails stays. */
    method Purge(env: Env, filter: Ari) returns (affected: nat)
      requires Valid()
      modifies this`list, this`index, this`rows
      ensures Valid()
      ensures rows == Kept(old(rows), Hitting(env, filter))
      ensures affected == |old(rows)| - |rows|
    {
      affected := PurgeWhere(Hitting(env, filter));
    }

    method ApplyShelf(s: ShelfEntry) returns (affected: nat)
      requires Valid()
      modifies this`list, this`index, this`rows
      ensures Valid()
      ensures rows == Kept(old(rows), OnShelf(pm, s))
      ensures affected == |old(rows)| - |rows|
    {
      affected := PurgeWhere(OnShelf(pm, s));
    }

    method CompressAt(i: nat, hit: Row -> bool) returns (changed: bool)
      requires Valid() && i < |list|
      modifies this`rows, repr
      ensures Valid()
      ensures rows == old(rows)[i := CompressedRow(hit, old(rows)[i])]
      ensures changed == (rows[i] != old(rows)[i])
    {
      CoherentDistinct(list, index, i);
      hide Coherent;
      var entry := list[i];
      changed := false;
      if hit(entry.View()) {
        changed := entry.CompressHistory();
      }
      rows := rows[i := entry.View()];
    }

    /** Cut the histories of the entries that the filter hits down to their newest item. */
    method Compress(env: Env, filter: Ari) returns (affected: nat)
      requires Valid()
      modifies this`rows, repr
      ensures Valid()
      ensures rows == Compressed(Hitting(env, filter), old(rows))
      ensures affected == Changes(old(rows), rows)
    {
      hide *;
      OneRowEach();
      var hit := Hitting(env, filter);
      ghost var all := rows;
      affected := 0;
      NothingChangedYet(all, Compressed(hit, all));
      for i := 0 to |list|
        invariant Valid() && |rows| == |list| == |all|
        invariant rows == Mixed(Compressed(hit, all), all, i)
        invariant affected == ChangesUpTo(all, Compressed(hit, all), i)
      {
        PrefixStep(all, Compressed(hit, all), i);
        CompressedAt(hit, all, i);
        var changed := CompressAt(i, hit);
        if changed {
          affected := affected + 1;
        }
      }
      WholePrefix(all, Compressed(hit, all));
    }

    method ManageAt(i: nat, hit: Row -> bool, state: int, mgr: Ari, now: int) returns (changed: bool)
      requires Valid() && i < |list|
      modifies this`rows, repr
      ensures Valid()
      ensures rows == old(rows)[i := ManagedRow(hit, state, mgr, now, old(rows)[i])]
      ensures changed == (rows[i] != old(rows)[i])
    {
      CoherentDistinct(list, index, i);
      hide Coherent;
      var entry := list[i];
      changed := false;
      if hit(entry.View()) {
        if state == MGR_STATE_SHELVED {
        } else if entry.mgrState != state {
          entry.mgrState := state;
          entry.mgrIdent := mgr;
          entry.mgrTime := Time(now);
          changed := true;
        }
      }
      rows := rows[i := entry.View()];
    }

    /** Set the manager state of the entries that the filter hits. */
    method SetManagerState(env: Env, filter: Ari, state: int, mgr: Ari, clock: nat -> int) returns (affected: nat)
      requires Valid()
      modifies this`rows, repr
      ensures Valid()
      ensures rows == Managed(Hitting(env, filter), state, mgr, clock, old(rows))
      ensures affected == Changes(old(rows), rows)
    {
      hide *;
      OneRowEach();
      var hit := Hitting(env, filter);
      ghost var all := rows;
      affected := 0;
      NothingChangedYet(all, Managed(hit, state, mgr, clock, all));
      for i := 0 to |list|
        invariant Valid() && |rows| == |list| == |all|
        invariant rows == Mixed(Managed(hit, state, mgr, clock, all), all, i)
        invariant affected == ChangesUpTo(all, Managed(hit, state, mgr, clock, all), i)
      {
        PrefixStep(all, Managed(hit, state, mgr, clock, all), i);
        ManagedAt(hit, state, mgr, clock, all, i);
        var changed := ManageAt(i, hit, state, mgr, clock(i));
        if changed {
          affected := affected + 1;
        }
      }
      WholePrefix(all, Managed(hit, state, mgr, clock, all));
    }

    /** Add shelf rows as one uninterrupted call, shelving the alarms each new row matches. */
    method EnsureShelf(entries: seq<ShelfEntry>) returns (affected: nat)
      requires Valid()
      modifies this`list, this`index, this`rows, this`shelf
      ensures Valid()
      ensures shelf == old(shelf) + AsSet(entries)
      ensures rows == ShelvedRows(pm, old(rows), old(shelf), entries)
      ensures affected == |shelf| - |old(shelf)|
    {
      hide AsSet, ShelvedRows, Kept, Coherent;
      affected := 0;
      ghost var all, was := rows, shelf;
      ShelvingEnds(pm, rows, shelf, entries);
      for i := 0 to |entries|
        invariant Valid()
        invariant shelf == was + AsSet(entries[..i]) && affected == |shelf| - |was|
        invariant ShelvedRows(pm, rows, shelf, entries[i..]) == ShelvedRows(pm, all, was, entries)
      {
        ShelvingStep(pm, rows, shelf, was, entries, i);
        if entries[i] !in shelf {
          var removed := ApplyShelf(entries[i]);
          shelf := shelf + {entries[i]};
          affected := affected + 1;
        }
      }
      ShelvingEnds(pm, rows, shelf, entries);
    }
  }

  function AsSet(entries: seq<ShelfEntry>): set<ShelfEntry> {
    set s | s in entries
  }

  /** The rows left after adding shelf rows one by one, skipping those already there. */
  function ShelvedRows(pm: PatternMatch, rows: seq<Row>, shelf: set<ShelfEntry>, entries: seq<ShelfEntry>)
    : seq<Row>
    decreases |entries|
  {
    if entries == [] then rows
    else
      ShelvedRows(pm, if entries[0] in shelf then rows else Kept(rows, OnShelf(pm, entries[0])),
                  shelf + {entries[0]}, entries[1..])
  }

  lemma ShelvingEnds(pm: PatternMatch, rows: seq<Row>, shelf: set<ShelfEntry>, entries: seq<ShelfEntry>)
    ensures entries[0..] == entries && AsSet(entries[..0]) == {} && shelf + {} == shelf
    ensures entries[..|entries|] == entries && ShelvedRows(pm, rows, shelf, entries[|entries|..]) == rows
  {
  }

  /** Adding the i-th shelf row. */
  lemma ShelvingStep(pm: PatternMatch, rows: seq<Row>, shelf: set<ShelfEntry>, was: set<ShelfEntry>,
                     entries: seq<ShelfEntry>, i: nat)
    requires i < |entries| && shelf == was + AsSet(entries[..i])
    ensures shelf + {entries[i]} == was + AsSet(entries[..i + 1])
    ensures entries[i] in shelf ==> shelf == shelf + {entries[i]}
    ensures ShelvedRows(pm, rows, shelf, entries[i..]) ==
            ShelvedRows(pm, if entries[i] in shelf then rows else Kept(rows, OnShelf(pm, entries[i])),
                        shelf + {entries[i]}, entries[i + 1..])
  {
    assert entries[i..][1..] == entries[i + 1..];
    assert entries[..i + 1] == entries[..i] + [entries[i]];
  }

  /** The first `i` rows replaced, and how many of these were changed. */
  ghost function Mixed(out: seq<Row>, all: seq<Row>, i: nat): seq<Row>
    requires i <= |all| == |out|
  {
    out[..i] + all[i..]
  }

  ghost function ChangesUpTo(all: seq<Row>, out: seq<Row>, i: nat): nat
    requires i <= |all| == |out|
  {
    Changes(all[..i], out[..i])
  }

  lemma PrefixStep(all: seq<Row>, out: seq<Row>, i: nat)
    requires i < |all| == |out|
    ensures |Mixed(out, all, i)| == |all| && Mixed(out, all, i)[i] == all[i]
    ensures Mixed(out, all, i)[i := out[i]] == Mixed(out, all, i + 1)
    ensures ChangesUpTo(all, out, i + 1) == ChangesUpTo(all, out, i) + if all[i] != out[i] then 1 else 0
  {
    assert out[..i + 1] == out[..i] + [out[i]];
    assert all[..i + 1] == all[..i] + [all[i]];
    ChangesSnoc(all[..i], out[..i], all[i], out[i]);
  }

  lemma NothingChangedYet(all: seq<Row>, out: seq<Row>)
    requires |all| == |out|
    ensures Mixed(out, all, 0) == all && ChangesUpTo(all, out, 0) == 0
  {
  }

  lemma CompressedAt(hit: Row -> bool, rows: seq<Row>, i: nat)
    requires i < |rows|
    ensures Compressed(hit, rows)[i] == CompressedRow(hit, rows[i])
  {
  }

  lemma ManagedAt(hit: Row -> bool, state: int, mgr: Ari, clock: nat -> int, rows: seq<Row>, i: nat)
    requires i < |rows|
    ensures Managed(hit, state, mgr, clock, rows)[i] == ManagedRow(hit, state, mgr, clock(i), rows[i])
  {
  }

  lemma WholePrefix(all: seq<Row>, out: seq<Row>)
    requires |all| == |out|
    ensures Mixed(out, all, |all|) == out && ChangesUpTo(all, out, |all|) == Changes(all, out)
  {
    assert all[..|all|] == all && out[..|all|] == out;
  }

  /** What a whole call to record an alarm does to the rows. */
  function Reported(pm: PatternMatch, rows: seq<Row>, shelf: set<ShelfEntry>, find: Ari -> Option<Obj>,
                    resource: Ari, category: Ari, severity: int, now: int): seq<Row>
  {
    var res := find(resource);
    var cat := if category.Null? then None else find(category);
    if res.None? || (!category.Null? && cat.None?) || Shelved(pm, shelf, EntryKey(res, cat)) then rows
    else Recorded(rows, IdentRef(resource, res), IdentRef(category, cat), severity, now)
  }
}
