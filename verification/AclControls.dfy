/** The controls that change the access table, and what they do to the index by group. */
module AclControls {
  import opened Wrappers
  import opened Values
  import opened Eval
  import opened Acl

  // ----- keeping the index -----

  function WithoutAccess(index: Index, a: Aid): Index {
    map g | g in index :: index[g] - {a}
  }

  function WithAccess(index: Index, a: Aid, groups: set<Gid>): Index {
    map g | g in index.Keys + groups ::
      (if g in index then index[g] else {}) + (if g in groups then {a} else {})
  }

  /** Replace the access with the same id, or add it at the end. */
  function Ensured(table: seq<Access>, acc: Access): seq<Access> {
    if table == [] then [acc]
    else if table[0].id == acc.id then [acc] + table[1..]
    else [table[0]] + Ensured(table[1..], acc)
  }

  function Discarded(table: seq<Access>, a: Aid): seq<Access> {
    if table == [] then [] else if table[0].id == a then table[1..] else [table[0]] + Discarded(table[1..], a)
  }

  function EnsuredIndex(index: Index, acc: Access): Index {
    WithAccess(WithoutAccess(index, acc.id), acc.id, acc.groups)
  }

  lemma {:induction false} EnsuredAccesses(table: seq<Access>, acc: Access)
    requires UniqueIds(table)
    ensures UniqueIds(Ensured(table, acc))
    ensures forall x :: x in Ensured(table, acc) <==> x == acc || (x in table && x.id != acc.id)
  {
    if table != [] {
      assert forall i | 0 <= i < |table[1..]| :: table[1..][i].id != table[0].id by {
        forall i | 0 <= i < |table[1..]|
          ensures table[1..][i].id != table[0].id
        {
          assert table[1..][i] == table[i + 1];
        }
      }
      EnsuredAccesses(table[1..], acc);
      assert table == [table[0]] + table[1..];
      ConsUnique(if table[0].id == acc.id then acc else table[0],
                 if table[0].id == acc.id then table[1..] else Ensured(table[1..], acc));
    }
  }

  lemma {:induction false} DiscardedAccesses(table: seq<Access>, a: Aid)
    requires UniqueIds(table)
    ensures UniqueIds(Discarded(table, a))
    ensures forall x :: x in Discarded(table, a) <==> x in table && x.id != a
  {
    if table != [] {
      forall i | 0 <= i < |table[1..]|
        ensures table[1..][i].id != table[0].id
      {
        assert table[1..][i] == table[i + 1];
      }
      DiscardedAccesses(table[1..], a);
      assert table == [table[0]] + table[1..];
      if table[0].id != a {
        ConsUnique(table[0], Discarded(table[1..], a));
      }
    }
  }

  lemma ConsUnique(acc: Access, rest: seq<Access>)
    requires UniqueIds(rest) && forall x | x in rest :: x.id != acc.id
    ensures UniqueIds([acc] + rest)
  {
  }

  lemma ListedMember(table: seq<Access>, g: Gid, a: Aid)
    ensures Listed(table, g, a) <==> exists x | x in table :: x.id == a && g in x.groups
  {
  }

  /** Ensuring an access keeps the index in sync, and keeps it sound. */
  lemma EnsureKeepsSync(table: seq<Access>, index: Index, acc: Access)
    requires Sound(table, index)
    ensures Sound(Ensured(table, acc), EnsuredIndex(index, acc))
    ensures InSync(table, index) ==> InSync(Ensured(table, acc), EnsuredIndex(index, acc))
  {
    EnsuredAccesses(table, acc);
    forall g, a
      ensures Listed(Ensured(table, acc), g, a) <==> if a == acc.id then g in acc.groups else Listed(table, g, a)
      ensures Indexed(EnsuredIndex(index, acc), g, a) <==> if a == acc.id then g in acc.groups else Indexed(index, g, a)
    {
      ListedMember(Ensured(table, acc), g, a);
      ListedMember(table, g, a);
    }
  }

  /** So does discarding an access. */
  lemma DiscardKeepsSync(table: seq<Access>, index: Index, a: Aid)
    requires Sound(table, index)
    ensures Sound(Discarded(table, a), WithoutAccess(index, a))
    ensures InSync(table, index) ==> InSync(Discarded(table, a), WithoutAccess(index, a))
  {
    DiscardedAccesses(table, a);
    forall g, b
      ensures Listed(Discarded(table, a), g, b) <==> b != a && Listed(table, g, b)
    {
      ListedMember(Discarded(table, a), g, b);
      ListedMember(table, g, b);
    }
  }

  /** Discarding a group takes it out of the index but leaves it in the accesses: the index
      stays sound, and it stays in sync exactly when no access names the group. */
  lemma DiscardGroupSync(table: seq<Access>, index: Index, g: Gid)
    requires InSync(table, index)
    ensures Sound(table, index - {g})
    ensures InSync(table, index - {g}) <==> forall i | 0 <= i < |table| :: g !in table[i].groups
  {
    if InSync(table, index - {g}) {
      forall i | 0 <= i < |table|
        ensures g !in table[i].groups
      {
        assert !Indexed(index - {g}, g, table[i].id);
        assert !Listed(table, g, table[i].id);
      }
    } else {
      var h, a :| Indexed(index - {g}, h, a) != Listed(table, h, a);
      assert Indexed(index, h, a) == Listed(table, h, a);
      assert h == g;
    }
  }

  /** A group discarded and made again under its old id no longer gets what its accesses grant. */
  lemma RecreatedGroupLosesAccess(env: Env, acc: Access, g: Gid, target: Ari, wanted: set<Obj>)
    requires acc.groups == {g} && Given(env, acc, target, wanted) != {}
    ensures var index := EnsuredIndex(map[], acc);
            && InSync([acc], index)
            && FindByIndex(env, [acc], index, {g}, target, wanted) == Given(env, acc, target, wanted)
            && FindByIndex(env, [acc], index - {g}, {g}, target, wanted) == {}
            && Scan(env, [acc], {g}, target, wanted) == Given(env, acc, target, wanted)
  {
    var index := EnsuredIndex(map[], acc);
    hide Given;
    EnsureKeepsSync([], map[], acc);
    assert [acc] == Ensured([], acc);
    IndexIsScan(env, [acc], index, {g}, target, wanted);
    assert g in {g} * [acc][0].groups;
    forall p
      ensures p in Scan(env, [acc], {g}, target, wanted) <==> p in Given(env, acc, target, wanted)
    {
    }
  }

  // ----- the controls -----

  lemma WithAccessOneMore(index: Index, a: Aid, done: set<Gid>, g: Gid)
    ensures WithAccess(index, a, done + {g}) ==
            var now := WithAccess(index, a, done);
            now[g := (if g in now then now[g] else {}) + {a}]
  {
    var now, more := WithAccess(index, a, done), WithAccess(index, a, done + {g});
    assert more[g] == (if g in now then now[g] else {}) + {a};
    assert forall h | h in more && h != g :: h in now && more[h] == now[h];
  }

  lemma {:induction false} EnsuredAt(table: seq<Access>, acc: Access, i: nat)
    requires i < |table| && table[i].id == acc.id && forall j | 0 <= j < i :: table[j].id != acc.id
    ensures Ensured(table, acc) == table[i := acc]
    ensures Discarded(table, acc.id) == table[..i] + table[i + 1..]
  {
    if i > 0 {
      EnsuredAt(table[1..], acc, i - 1);
      assert table == [table[0]] + table[1..];
    }
  }

  lemma {:induction false} EnsuredNew(table: seq<Access>, acc: Access)
    requires !HasId(table, acc.id)
    ensures Ensured(table, acc) == table + [acc]
    ensures Discarded(table, acc.id) == table
  {
    if table != [] {
      assert table[0].id != acc.id;
      forall i | 0 <= i < |table[1..]|
        ensures table[1..][i].id != acc.id
      {
        assert table[1..][i] == table[i + 1];
      }
      EnsuredNew(table[1..], acc);
      assert table == [table[0]] + table[1..];
    }
  }

  /** Nothing points to an access that is not in the table. */
  lemma AbsentNotIndexed(table: seq<Access>, index: Index, a: Aid)
    requires Sound(table, index) && !HasId(table, a)
    ensures WithoutAccess(index, a) == index
  {
    forall g | g in index
      ensures index[g] - {a} == index[g]
    {
      assert !Listed(table, g, a);
      assert !Indexed(index, g, a);
    }
  }

  predicate FirstWith(groups: seq<Group>, gid: Gid, i: int) {
    && 0 <= i < |groups| && groups[i].id == gid
    && forall j | 0 <= j < i :: groups[j].id != gid
  }

  class AccessStore {
    var groups: seq<Group>
    var access: seq<Access>
    var byGroup: Index

    /** Take an access out of every group of the index. */
    method PreRemove(a: Aid)
      modifies this`byGroup
      ensures byGroup == WithoutAccess(old(byGroup), a)
    {
      var left := byGroup.Keys;
      while left != {}
        invariant left <= byGroup.Keys == old(byGroup).Keys
        invariant forall g | g in byGroup :: byGroup[g] == old(byGroup)[g] - if g in left then {} else {a}
      {
        var g :| g in left;
        byGroup := byGroup[g := byGroup[g] - {a}];
        left := left - {g};
      }
    }

    /** Enter an access into the index under each of its groups. */
    method PostAdd(a: Aid, gids: set<Gid>)
      modifies this`byGroup
      ensures byGroup == WithAccess(old(byGroup), a, gids)
    {
      var left, done := gids, {};
      assert forall g | g in byGroup :: byGroup[g] + {} == byGroup[g];
      assert WithAccess(byGroup, a, {}) == byGroup;
      while left != {}
        invariant left <= gids && done == gids - left
        invariant byGroup == WithAccess(old(byGroup), a, done)
      {
        hide WithAccess;
        var g :| g in left;
        WithAccessOneMore(old(byGroup), a, done, g);
        byGroup := byGroup[g := (if g in byGroup then byGroup[g] else {}) + {a}];
        left, done := left - {g}, done + {g};
      }
      assert done == gids;
    }

    method FindAccess(a: Aid) returns (at: Option<nat>)
      ensures at.None? <==> !HasId(access, a)
      ensures at.Some? ==> at.value < |access| && access[at.value].id == a
      ensures at.Some? ==> forall j | 0 <= j < at.value :: access[j].id != a
    {
      for i := 0 to |access|
        invariant forall j | 0 <= j < i :: access[j].id != a
      {
        if access[i].id == a {
          return Some(i);
        }
      }
      at := None;
    }

    /** Make sure of an access; permissions that cannot be found, or whose object does not accept
        the given parameters, are kept but fail the control. */
    method EnsureAccess(acc: Access) returns (ok: bool)
      requires Sound(access, byGroup)
      modifies this`access, this`byGroup
      ensures access == Ensured(old(access), acc) && byGroup == EnsuredIndex(old(byGroup), acc)
      ensures Sound(access, byGroup)
      ensures old(InSync(access, byGroup)) ==> InSync(access, byGroup)
      ensures ok <==> forall p | p in acc.permissions :: p.obj.Some? && p.accepted
    {
      EnsureKeepsSync(access, byGroup, acc);
      var at := FindAccess(acc.id);
      if at.Some? {
        EnsuredAt(access, acc, at.value);
        PreRemove(acc.id);
        access := access[at.value := acc];
      } else {
        EnsuredNew(access, acc);
        AbsentNotIndexed(access, byGroup, acc.id);
        access := access + [acc];
      }
      PostAdd(acc.id, acc.groups);
      ok := forall p | p in acc.permissions :: p.obj.Some? && p.accepted;
    }

    method DiscardAccess(a: Aid)
      requires Sound(access, byGroup)
      modifies this`access, this`byGroup
      ensures access == Discarded(old(access), a) && byGroup == WithoutAccess(old(byGroup), a)
      ensures Sound(access, byGroup)
      ensures old(InSync(access, byGroup)) ==> InSync(access, byGroup)
    {
      DiscardKeepsSync(access, byGroup, a);
      var at := FindAccess(a);
      ghost var acc := Access(a, {}, Null, []);
      if at.Some? {
        EnsuredAt(access, acc, at.value);
        PreRemove(a);
        access := access[..at.value] + access[at.value + 1..];
      } else {
        EnsuredNew(access, acc);
        AbsentNotIndexed(access, byGroup, a);
      }
    }

    /** Discard a group, if there is one with that id. */
    method DiscardGroup(gid: Gid)
      modifies this`groups, this`byGroup
      ensures var found := exists i | 0 <= i < |old(groups)| :: old(groups)[i].id == gid;
              if !found then groups == old(groups) && byGroup == old(byGroup)
              else
                && byGroup == old(byGroup) - {gid}
                && exists i :: FirstWith(old(groups), gid, i) && groups == old(groups)[..i] + old(groups)[i + 1..]
    {
      for i := 0 to |groups|
        invariant groups == old(groups) && byGroup == old(byGroup)
        invariant forall j | 0 <= j < i :: groups[j].id != gid
      {
        if groups[i].id == gid {
          assert FirstWith(groups, gid, i);
          groups := groups[..i] + groups[i + 1..];
          byGroup := byGroup - {gid};
          return;
        }
      }
    }
  }

  // ----- whole runs -----

  /** The controls that change the tables; DropGroup discards a group that exists. */
  datatype Control = Ensure(acc: Access) | Discard(a: Aid) | DropGroup(g: Gid)

  datatype Tables = Tables(access: seq<Access>, index: Index)

  function Controlled(t: Tables, c: Control): Tables {
    match c
    case Ensure(acc) => Tables(Ensured(t.access, acc), EnsuredIndex(t.index, acc))
    case Discard(a) => Tables(Discarded(t.access, a), WithoutAccess(t.index, a))
    case DropGroup(g) => Tables(t.access, t.index - {g})
  }

  function ControlAll(t: Tables, run: seq<Control>): Tables
    decreases |run|
  {
    if run == [] then t else ControlAll(Controlled(t, run[0]), run[1..])
  }

  /** No discarded group is still named by an access. */
  predicate DropsUnused(t: Tables, run: seq<Control>)
    decreases |run|
  {
    run == [] ||
    (&& (run[0].DropGroup? ==> forall i | 0 <= i < |t.access| :: run[0].g !in t.access[i].groups)
     && DropsUnused(Controlled(t, run[0]), run[1..]))
  }

  ghost predicate TablesInSync(t: Tables) {
    InSync(t.access, t.index)
  }

  lemma ControlKeepsSound(t: Tables, c: Control)
    requires Sound(t.access, t.index)
    ensures Sound(Controlled(t, c).access, Controlled(t, c).index)
  {
    match c
    case Ensure(acc) => EnsureKeepsSync(t.access, t.index, acc);
    case Discard(a) => DiscardKeepsSync(t.access, t.index, a);
    case DropGroup(g) =>
      assert forall h, a :: Indexed(t.index - {g}, h, a) ==> Indexed(t.index, h, a);
  }

  /** A control keeps the index in sync exactly when it does not discard a group in use. */
  lemma ControlSyncIff(t: Tables, c: Control)
    requires TablesInSync(t)
    ensures TablesInSync(Controlled(t, c)) <==>
            (c.DropGroup? ==> forall i | 0 <= i < |t.access| :: c.g !in t.access[i].groups)
  {
    assert Sound(t.access, t.index);
    match c
    case Ensure(acc) => EnsureKeepsSync(t.access, t.index, acc);
    case Discard(a) => DiscardKeepsSync(t.access, t.index, a);
    case DropGroup(g) => DiscardGroupSync(t.access, t.index, g);
  }

  /** In every run the index stays sound, so no search grants more than the table does. */
  lemma {:induction false} SoundInEveryRun(t: Tables, run: seq<Control>)
    requires Sound(t.access, t.index)
    ensures Sound(ControlAll(t, run).access, ControlAll(t, run).index)
    decreases |run|
  {
    hide Sound, Controlled;
    if run != [] {
      ControlKeepsSound(t, run[0]);
      SoundInEveryRun(Controlled(t, run[0]), run[1..]);
    }
  }

  lemma SyncFromFirst(t: Tables, run: seq<Control>)
    requires run != [] && TablesInSync(t)
    ensures var t' := Controlled(t, run[0]);
            (forall k | 0 <= k <= |run| :: TablesInSync(ControlAll(t, run[..k]))) <==>
            forall k | 0 <= k <= |run[1..]| :: TablesInSync(ControlAll(t', run[1..][..k]))
  {
    hide TablesInSync, Controlled;
    var t' := Controlled(t, run[0]);
    forall k | 0 < k <= |run|
      ensures ControlAll(t, run[..k]) == ControlAll(t', run[1..][..k - 1])
    {
      assert run[..k][1..] == run[1..][..k - 1];
    }
    if forall k | 0 <= k <= |run| :: TablesInSync(ControlAll(t, run[..k])) {
      forall k | 0 <= k <= |run[1..]|
        ensures TablesInSync(ControlAll(t', run[1..][..k]))
      {
        assert TablesInSync(ControlAll(t, run[..k + 1]));
      }
    }
  }

  /** A run from tables in sync shows only tables in sync exactly when it discards no group that an
      access still names. */
  lemma {:induction false} IndexInEveryRun(t: Tables, run: seq<Control>)
    requires TablesInSync(t)
    ensures (forall k | 0 <= k <= |run| :: TablesInSync(ControlAll(t, run[..k]))) <==> DropsUnused(t, run)
    decreases |run|
  {
    if run == [] {
      assert run[..0] == [];
    } else {
      var t' := Controlled(t, run[0]);
      SyncFromFirst(t, run);
      ControlSyncIff(t, run[0]);
      hide TablesInSync, Controlled;
      assert ControlAll(t', run[1..][..0]) == t';
      if TablesInSync(t') {
        IndexInEveryRun(t', run[1..]);
      }
    }
  }

  /** Whether a permission is granted does not depend on its given parameters being accepted: an
      access whose control failed for them still grants it. */
  lemma RefusedStillGrants(env: Env, acc: Access, acc': Access, target: Ari, wanted: set<Obj>)
    requires acc' == acc.(permissions := acc'.permissions) && |acc.permissions| == |acc'.permissions|
    requires forall i | 0 <= i < |acc.permissions| :: acc'.permissions[i].obj == acc.permissions[i].obj
    ensures Given(env, acc', target, wanted) == Given(env, acc, target, wanted)
  {
    assert Wanted(acc', wanted) == Wanted(acc, wanted);
    hide Wanted, Matches;
  }
}
