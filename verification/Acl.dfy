/** The access control list: its tables, the index of accesses by group, and the searches. */
module Acl {
  import opened Wrappers
  import opened Values
  import opened Lists
  import opened Eval
  import opened Expressions

  type Gid = nat
  type Aid = nat

  datatype Group = Group(id: Gid, memberFilter: Ari)

  /** A listed permission: the object found for it, if any, and whether that object accepts the
      given parameters. */
  datatype Permission = Permission(obj: Option<Obj>, accepted: bool)

  datatype Access = Access(id: Aid, groups: set<Gid>, objectsFilter: Ari, permissions: seq<Permission>)

  /** One element of the permission list of an access. */
  datatype PermRef = PermRef(access: Aid, index: nat)

  type Index = map<Gid, set<Aid>>

  // ----- the tables -----

  predicate UniqueIds(table: seq<Access>) {
    forall i, j | 0 <= i < j < |table| :: table[i].id != table[j].id
  }

  predicate HasId(table: seq<Access>, a: Aid) {
    exists i | 0 <= i < |table| :: table[i].id == a
  }

  /** The table has an access `a` that applies to the group `g`. */
  predicate Listed(table: seq<Access>, g: Gid, a: Aid) {
    exists i | 0 <= i < |table| :: table[i].id == a && g in table[i].groups
  }

  predicate Indexed(index: Index, g: Gid, a: Aid) {
    g in index && a in index[g]
  }

  /** The index holds nothing that the table does not have. */
  ghost predicate Sound(table: seq<Access>, index: Index) {
    UniqueIds(table) && forall g, a | Indexed(index, g, a) :: Listed(table, g, a)
  }

  /** The index is in sync with the table. */
  ghost predicate InSync(table: seq<Access>, index: Index) {
    UniqueIds(table) && forall g, a :: Indexed(index, g, a) <==> Listed(table, g, a)
  }

  // ----- what a search finds -----

  predicate Grants(env: Env, acc: Access, target: Ari) {
    Matches(env, acc.objectsFilter, SubZero(target))
  }

  /** The wanted permissions of one access. */
  function Wanted(acc: Access, wanted: set<Obj>): set<PermRef> {
    set i | 0 <= i < |acc.permissions| && acc.permissions[i].obj.Some? && acc.permissions[i].obj.value in wanted ::
      PermRef(acc.id, i)
  }

  /** What one access contributes. */
  function Given(env: Env, acc: Access, target: Ari, wanted: set<Obj>): set<PermRef> {
    if Grants(env, acc, target) then Wanted(acc, wanted) else {}
  }

  /** A plain scan of the access table. */
  function Scan(env: Env, table: seq<Access>, groups: set<Gid>, target: Ari, wanted: set<Obj>): set<PermRef> {
    set i, p | 0 <= i < |table| && groups * table[i].groups != {} && p in Given(env, table[i], target, wanted) :: p
  }

  /** The k-th permission of an access is allowed: the filter of the access evaluates for the target
      to a truthy value, and the permission is found and wanted. */
  predicate Allowed(env: Env, acc: Access, k: int, target: Ari, wanted: set<Obj>) {
    && 0 <= k < |acc.permissions| && acc.permissions[k].obj.Some? && acc.permissions[k].obj.value in wanted
    && (var out := EvalFilter(env, acc.objectsFilter, SubZero(target)); out.Ok? && Truthy(out.value))
  }

  /** It is earned when the access also applies to one of the groups. */
  predicate Earned(env: Env, acc: Access, k: int, groups: set<Gid>, target: Ari, wanted: set<Obj>) {
    (exists g | g in acc.groups :: g in groups) && Allowed(env, acc, k, target, wanted)
  }

  /** A scan finds exactly the earned permissions. */
  lemma ScanEarned(env: Env, table: seq<Access>, groups: set<Gid>, target: Ari, wanted: set<Obj>, p: PermRef)
    ensures p in Scan(env, table, groups, target, wanted) <==>
            exists i | 0 <= i < |table| ::
              table[i].id == p.access && Earned(env, table[i], p.index, groups, target, wanted)
  {
    forall i | 0 <= i < |table|
      ensures groups * table[i].groups != {} && p in Given(env, table[i], target, wanted) <==>
              table[i].id == p.access && Earned(env, table[i], p.index, groups, target, wanted)
    {
      EarnedAt(env, table[i], groups, target, wanted, p);
    }
    hide Given, Earned;
  }

  lemma EarnedByScan(env: Env, table: seq<Access>, groups: set<Gid>, target: Ari, wanted: set<Obj>)
    ensures forall p :: p in Scan(env, table, groups, target, wanted) <==>
              exists acc | acc in table :: acc.id == p.access && Earned(env, acc, p.index, groups, target, wanted)
    ensures Scan(env, table, groups, target, wanted) != {} <==>
            exists acc, k | acc in table :: Earned(env, acc, k, groups, target, wanted)
  {
    var found := Scan(env, table, groups, target, wanted);
    forall p
      ensures p in found <==>
              exists acc | acc in table :: acc.id == p.access && Earned(env, acc, p.index, groups, target, wanted)
    {
      ScanEarned(env, table, groups, target, wanted, p);
      hide Earned;
      if acc :| acc in table && acc.id == p.access && Earned(env, acc, p.index, groups, target, wanted) {
        var i :| 0 <= i < |table| && table[i] == acc;
      }
    }
    if acc, k :| acc in table && Earned(env, acc, k, groups, target, wanted) {
      assert PermRef(acc.id, k) in found;
    }
    if found != {} {
      var p :| p in found;
      var acc :| acc in table && acc.id == p.access && Earned(env, acc, p.index, groups, target, wanted);
    }
  }

  lemma GivenAllowed(env: Env, acc: Access, target: Ari, wanted: set<Obj>, p: PermRef)
    ensures p in Given(env, acc, target, wanted) <==>
            acc.id == p.access && Allowed(env, acc, p.index, target, wanted)
  {
    hide EvalFilter;
    assert p in Wanted(acc, wanted) <==>
           && acc.id == p.access && p.index < |acc.permissions| && acc.permissions[p.index].obj.Some?
           && acc.permissions[p.index].obj.value in wanted;
  }

  lemma EarnedAt(env: Env, acc: Access, groups: set<Gid>, target: Ari, wanted: set<Obj>, p: PermRef)
    ensures groups * acc.groups != {} && p in Given(env, acc, target, wanted) <==>
            acc.id == p.access && Earned(env, acc, p.index, groups, target, wanted)
  {
    GivenAllowed(env, acc, target, wanted, p);
    hide Given, Allowed;
    assert groups * acc.groups != {} <==> exists g | g in acc.groups :: g in groups by {
      if g :| g in acc.groups && g in groups {
        assert g in groups * acc.groups;
      }
    }
  }

  /** The same through the index. */
  function FindByIndex(env: Env, table: seq<Access>, index: Index, groups: set<Gid>, target: Ari, wanted: set<Obj>)
    : set<PermRef>
  {
    set i, p | 0 <= i < |table| && (exists g | g in groups :: Indexed(index, g, table[i].id)) &&
               p in Given(env, table[i], target, wanted) :: p
  }

  /** The k-th permission of an access is allowed and the index leads from one of the groups to it. */
  predicate Led(env: Env, index: Index, groups: seq<Gid>, acc: Access, k: int, target: Ari, wanted: set<Obj>) {
    (exists g | g in groups :: g in index && acc.id in index[g]) && Allowed(env, acc, k, target, wanted)
  }

  lemma LedAt(env: Env, table: seq<Access>, index: Index, groups: seq<Gid>, target: Ari, wanted: set<Obj>, i: nat,
              p: PermRef)
    requires i < |table|
    ensures (exists g | g in IdSet(groups) :: Indexed(index, g, table[i].id)) &&
            p in Given(env, table[i], target, wanted) <==>
            table[i].id == p.access && Led(env, index, groups, table[i], p.index, target, wanted)
  {
    GivenAllowed(env, table[i], target, wanted, p);
    hide Given, Allowed;
    if g :| g in groups && g in index && table[i].id in index[g] {
      assert Indexed(index, g, table[i].id);
    }
  }

  /** The index finds exactly the allowed permissions of the accesses it leads to. */
  lemma IndexAllowed(env: Env, table: seq<Access>, index: Index, groups: seq<Gid>, target: Ari, wanted: set<Obj>,
                     p: PermRef)
    ensures p in FindByIndex(env, table, index, IdSet(groups), target, wanted) <==>
            exists acc | acc in table :: acc.id == p.access && Led(env, index, groups, acc, p.index, target, wanted)
  {
    forall i | 0 <= i < |table|
      ensures (exists g | g in IdSet(groups) :: Indexed(index, g, table[i].id)) &&
              p in Given(env, table[i], target, wanted) <==>
              table[i].id == p.access && Led(env, index, groups, table[i], p.index, target, wanted)
    {
      LedAt(env, table, index, groups, target, wanted, i, p);
    }
    hide Given, Led, Indexed, IdSet;
    if acc :| acc in table && acc.id == p.access && Led(env, index, groups, acc, p.index, target, wanted) {
      var i :| 0 <= i < |table| && table[i] == acc;
    }
  }

  lemma LedByIndex(env: Env, table: seq<Access>, index: Index, groups: seq<Gid>, target: Ari, wanted: set<Obj>)
    ensures forall p :: p in FindByIndex(env, table, index, IdSet(groups), target, wanted) <==>
              exists acc | acc in table :: acc.id == p.access && Led(env, index, groups, acc, p.index, target, wanted)
    ensures FindByIndex(env, table, index, IdSet(groups), target, wanted) != {} <==>
            exists acc, k | acc in table :: Led(env, index, groups, acc, k, target, wanted)
  {
    var found := FindByIndex(env, table, index, IdSet(groups), target, wanted);
    forall p {
      IndexAllowed(env, table, index, groups, target, wanted, p);
    }
    hide FindByIndex;
    if acc, k :| acc in table && Led(env, index, groups, acc, k, target, wanted) {
      assert PermRef(acc.id, k) in found;
    }
    if found != {} {
      var p :| p in found;
      var acc :| acc in table && acc.id == p.access && Led(env, index, groups, acc, p.index, target, wanted);
    }
  }

  /** In sync, the index finds what a plain scan finds. */
  lemma IndexIsScan(env: Env, table: seq<Access>, index: Index, groups: set<Gid>, target: Ari, wanted: set<Obj>)
    requires InSync(table, index)
    ensures FindByIndex(env, table, index, groups, target, wanted) == Scan(env, table, groups, target, wanted)
  {
    forall i | 0 <= i < |table|
      ensures (exists g | g in groups :: Indexed(index, g, table[i].id)) <==> groups * table[i].groups != {}
    {
      if g :| g in groups && Indexed(index, g, table[i].id) {
        OwnGroup(table, i, g);
        assert g in groups * table[i].groups;
      }
      if groups * table[i].groups != {} {
        var g :| g in groups * table[i].groups;
        assert Listed(table, g, table[i].id);
      }
    }
  }

  lemma OwnGroup(table: seq<Access>, i: nat, g: Gid)
    requires UniqueIds(table) && i < |table|
    ensures Listed(table, g, table[i].id) <==> g in table[i].groups
  {
    if Listed(table, g, table[i].id) {
      var j :| 0 <= j < |table| && table[j].id == table[i].id && g in table[j].groups;
      assert !(i < j) && !(j < i);
    }
  }

  /** A sound index never finds more than a plain scan. */
  lemma IndexWithinScan(env: Env, table: seq<Access>, index: Index, groups: set<Gid>, target: Ari, wanted: set<Obj>)
    requires Sound(table, index)
    ensures FindByIndex(env, table, index, groups, target, wanted) <= Scan(env, table, groups, target, wanted)
  {
    forall i | 0 <= i < |table| && exists g | g in groups :: Indexed(index, g, table[i].id)
      ensures groups * table[i].groups != {}
    {
      var g :| g in groups && Indexed(index, g, table[i].id);
      OwnGroup(table, i, g);
      assert g in groups * table[i].groups;
    }
  }

  /** What the accesses with the given ids contribute. */
  function GivenBy(env: Env, table: seq<Access>, ids: set<Aid>, target: Ari, wanted: set<Obj>): set<PermRef> {
    set i, p | 0 <= i < |table| && table[i].id in ids && p in Given(env, table[i], target, wanted) :: p
  }

  lemma GivenByNone(env: Env, table: seq<Access>, target: Ari, wanted: set<Obj>)
    ensures GivenBy(env, table, {}, target, wanted) == {}
  {
  }

  lemma GivenByOneMore(env: Env, table: seq<Access>, ids: set<Aid>, i: nat, target: Ari, wanted: set<Obj>)
    requires UniqueIds(table) && i < |table|
    ensures GivenBy(env, table, ids + {table[i].id}, target, wanted) ==
            GivenBy(env, table, ids, target, wanted) + Given(env, table[i], target, wanted)
  {
    hide Given;
    forall j | 0 <= j < |table| && table[j].id == table[i].id
      ensures j == i
    {
      assert !(i < j) && !(j < i);
    }
  }

  lemma IndexOneMore(env: Env, table: seq<Access>, index: Index, groups: set<Gid>, g: Gid, target: Ari,
                      wanted: set<Obj>)
    ensures FindByIndex(env, table, index, groups + {g}, target, wanted) ==
            FindByIndex(env, table, index, groups, target, wanted) +
            if g in index then GivenBy(env, table, index[g], target, wanted) else {}
  {
    hide Given;
  }

  lemma IndexNone(env: Env, table: seq<Access>, index: Index, target: Ari, wanted: set<Obj>)
    ensures FindByIndex(env, table, index, {}, target, wanted) == {}
  {
  }

  /** Every pointer of the index leads to an access of the table. */
  ghost predicate PointersGood(table: seq<Access>, index: Index) {
    UniqueIds(table) && forall g, a | g in index && a in index[g] :: HasId(table, a)
  }

  lemma SoundPointers(table: seq<Access>, index: Index)
    requires Sound(table, index)
    ensures PointersGood(table, index)
  {
    forall g, a | g in index && a in index[g]
      ensures HasId(table, a)
    {
      assert Indexed(index, g, a);
      assert Listed(table, g, a);
    }
  }

  /** The integer form from a dereferenced target is preferred. */
  function Target(tgtRef: Ari, tgtDeref: Option<Ari>): Ari {
    if tgtDeref.Some? then tgtDeref.value else tgtRef
  }

  // ----- the searches -----

  /** Collect the wanted permissions of one access; `found` counts them. */
  method WantedPermissions(acc: Access, wanted: set<Obj>) returns (found: nat, refs: set<PermRef>)
    ensures refs == Wanted(acc, wanted)
    ensures found > 0 <==> refs != {}
  {
    found, refs := 0, {};
    for k := 0 to |acc.permissions|
      invariant refs == set i | 0 <= i < k && acc.permissions[i].obj.Some? && acc.permissions[i].obj.value in wanted ::
                          PermRef(acc.id, i)
      invariant found > 0 <==> refs != {}
    {
      if acc.permissions[k].obj.Some? && acc.permissions[k].obj.value in wanted {
        found := found + 1;
        refs := refs + {PermRef(acc.id, k)};
      }
    }
  }

  /** The same if the filter of the access holds for the target; a filter that fails to
      evaluate does not. */
  method GivenPermissions(env: Env, acc: Access, target: Ari, wanted: set<Obj>)
    returns (found: nat, refs: set<PermRef>)
    ensures refs == Given(env, acc, target, wanted)
    ensures found > 0 <==> refs != {}
  {
    hide Wanted, EvalFilter;
    found, refs := 0, {};
    var r := EvaluateFilter(env, acc.objectsFilter, SubZero(target));
    if r.Err? {
      return;
    }
    if Truthy(r.value) {
      found, refs := WantedPermissions(acc, wanted);
    }
  }

  /** Follow an index pointer into the table. */
  method Follow(table: seq<Access>, a: Aid) returns (i: nat)
    requires HasId(table, a)
    ensures i < |table| && table[i].id == a
  {
    i :| 0 <= i < |table| && table[i].id == a;
  }

  /** The permissions that the accesses of one group give. */
  method SearchAccesses(env: Env, table: seq<Access>, accesses: set<Aid>, target: Ari, wanted: set<Obj>)
    returns (found: nat, refs: set<PermRef>)
    requires UniqueIds(table)
    requires forall a | a in accesses :: HasId(table, a)
    ensures refs == GivenBy(env, table, accesses, target, wanted)
    ensures found > 0 <==> refs != {}
  {
    hide *;
    GivenByNone(env, table, target, wanted);
    found, refs := 0, {};
    var left, seen := accesses, {};
    while left != {}
      invariant left <= accesses && seen == accesses - left
      invariant refs == GivenBy(env, table, seen, target, wanted)
      invariant found > 0 <==> refs != {}
    {
      var a :| a in left;
      var i := Follow(table, a);
      GivenByOneMore(env, table, seen, i, target, wanted);
      var n, more := GivenPermissions(env, table[i], target, wanted);
      found, refs := found + n, refs + more;
      left, seen := left - {a}, seen + {a};
    }
    assert seen == accesses;
  }

  lemma ZeroFirst(ids: seq<Gid>, j: nat)
    requires Ascending(ids) && j < |ids| && ids[j] == 0
    ensures j == 0 && 0 in IdSet(ids)
  {
    assert ids[0] >= 0;
  }

  method SearchGroup(env: Env, table: seq<Access>, index: Index, g: Gid, target: Ari, wanted: set<Obj>)
    returns (found: nat, refs: set<PermRef>)
    requires PointersGood(table, index)
    ensures refs == if g in index then GivenBy(env, table, index[g], target, wanted) else {}
    ensures found > 0 <==> refs != {}
  {
    hide GivenBy, UniqueIds, HasId;
    found, refs := 0, {};
    if g in index {
      found, refs := SearchAccesses(env, table, index[g], target, wanted);
    }
  }

  function IdSet(ids: seq<Gid>): set<Gid> {
    set g | g in ids
  }

  lemma IdSetSnoc(ids: seq<Gid>, k: nat)
    requires k < |ids|
    ensures IdSet(ids[..k + 1]) == IdSet(ids[..k]) + {ids[k]}
  {
    assert ids[..k + 1] == ids[..k] + [ids[k]];
  }

  lemma IdSetEnds(ids: seq<Gid>)
    ensures IdSet(ids[..0]) == {} && IdSet(ids[..|ids|]) == IdSet(ids)
  {
    assert ids[..|ids|] == ids;
  }

  /** Visit the groups in ascending order, stopping at group 0. */
  method SearchGroups(env: Env, table: seq<Access>, index: Index, groups: seq<Gid>, target: Ari, wanted: set<Obj>)
    returns (isZero: bool, found: nat, refs: set<PermRef>)
    requires Sound(table, index) && Ascending(groups)
    ensures isZero <==> 0 in IdSet(groups)
    ensures refs == if isZero then {} else FindByIndex(env, table, index, IdSet(groups), target, wanted)
    ensures found > 0 <==> refs != {}
  {
    hide *;
    SoundPointers(table, index);
    IndexNone(env, table, index, target, wanted);
    IdSetEnds(groups);
    isZero, found, refs := false, 0, {};
    var k := 0;
    while k < |groups| && !isZero
      invariant 0 <= k <= |groups| && 0 !in IdSet(groups[..k])
      invariant isZero ==> k < |groups| && groups[k] == 0
      invariant refs == FindByIndex(env, table, index, IdSet(groups[..k]), target, wanted)
      invariant found > 0 <==> refs != {}
      decreases |groups| - k, !isZero
    {
      var g := groups[k];
      if g == 0 {
        isZero := true;
      } else {
        IndexOneMore(env, table, index, IdSet(groups[..k]), g, target, wanted);
        IdSetSnoc(groups, k);
        var n, more := SearchGroup(env, table, index, g, target, wanted);
        found, refs := found + n, refs + more;
        k := k + 1;
      }
    }
    if isZero {
      ZeroFirst(groups, k);
    }
  }

  /** Search for any of the wanted permissions. `groups` is the tree of group ids in its
      iteration order; `hits`, if given, gains what is found. */
  method SearchPermission(env: Env, table: seq<Access>, index: Index, groups: seq<Gid>, tgtRef: Ari,
                          tgtDeref: Option<Ari>, wanted: set<Obj>, hits: Option<set<PermRef>>)
    returns (ok: bool, hits': Option<set<PermRef>>)
    requires Sound(table, index) && Ascending(groups)
    ensures var found := FindByIndex(env, table, index, IdSet(groups), Target(tgtRef, tgtDeref), wanted);
            && (ok <==> 0 in groups || found != {})
            && hits' == if 0 in groups || hits.None? then hits else Some(hits.value + found)
    ensures var target := if tgtDeref.Some? then tgtDeref.value else tgtRef;
            && (ok <==>
                || 0 in groups
                || exists acc, k | acc in table :: Led(env, index, groups, acc, k, target, wanted))
            && hits'.Some? == hits.Some?
            && forall p | hits'.Some? :: p in hits'.value <==>
                 || p in hits.value
                 || (0 !in groups && exists acc | acc in table ::
                       acc.id == p.access && Led(env, index, groups, acc, p.index, target, wanted))
  {
    hide FindByIndex, Led, Allowed, Sound;
    var target := Target(tgtRef, tgtDeref);
    LedByIndex(env, table, index, groups, target, wanted);
    var isZero, found, refs := SearchGroups(env, table, index, groups, target, wanted);
    hits' := if hits.None? then None else Some(hits.value + refs);
    assert hits.Some? ==> hits.value + {} == hits.value;
    ok := isZero || found > 0;
  }

  /** In sync with the table, the search agrees with a plain scan of it. */
  method SearchInSync(env: Env, table: seq<Access>, index: Index, groups: seq<Gid>, tgtRef: Ari,
                      tgtDeref: Option<Ari>, wanted: set<Obj>, hits: Option<set<PermRef>>)
    returns (ok: bool, hits': Option<set<PermRef>>)
    requires InSync(table, index) && Ascending(groups)
    ensures var found := Scan(env, table, IdSet(groups), Target(tgtRef, tgtDeref), wanted);
            && (ok <==> 0 in groups || found != {})
            && hits' == if 0 in groups || hits.None? then hits else Some(hits.value + found)
    ensures var target, ids := if tgtDeref.Some? then tgtDeref.value else tgtRef, set g | g in groups;
            && (ok <==> 0 in groups || exists acc, k | acc in table :: Earned(env, acc, k, ids, target, wanted))
            && hits'.Some? == hits.Some?
            && forall p | hits'.Some? :: p in hits'.value <==>
                 || p in hits.value
                 || (0 !in groups && exists acc | acc in table ::
                       acc.id == p.access && Earned(env, acc, p.index, ids, target, wanted))
  {
    EarnedByScan(env, table, IdSet(groups), Target(tgtRef, tgtDeref), wanted);
    hide Scan, Earned;
    IndexIsScan(env, table, index, IdSet(groups), Target(tgtRef, tgtDeref), wanted);
    ok, hits' := SearchPermission(env, table, index, groups, tgtRef, tgtDeref, wanted, hits);
  }

  /** Search for one permission; a permission object that does not exist is never granted. */
  method SearchOnePermission(env: Env, table: seq<Access>, index: Index, groups: seq<Gid>, tgtRef: Ari,
                             tgtDeref: Option<Ari>, perm: Option<Obj>, hits: Option<set<PermRef>>)
    returns (ok: bool, hits': Option<set<PermRef>>)
    requires InSync(table, index) && Ascending(groups)
    ensures perm.None? ==> !ok && hits' == hits
    ensures perm.Some? ==>
              var found := Scan(env, table, IdSet(groups), Target(tgtRef, tgtDeref), {perm.value});
              && (ok <==> 0 in groups || found != {})
              && hits' == if 0 in groups || hits.None? then hits else Some(hits.value + found)
    ensures perm.Some? ==>
              var target, ids := if tgtDeref.Some? then tgtDeref.value else tgtRef, set g | g in groups;
              && (ok <==> 0 in groups || exists acc, k | acc in table :: Earned(env, acc, k, ids, target, {perm.value}))
              && hits'.Some? == hits.Some?
              && forall p | hits'.Some? :: p in hits'.value <==>
                   || p in hits.value
                   || (0 !in groups && exists acc | acc in table ::
                         acc.id == p.access && Earned(env, acc, p.index, ids, target, {perm.value}))
  {
    hide Scan, Earned;
    if perm.None? {
      return false, hits;
    }
    ok, hits' := SearchInSync(env, table, index, groups, tgtRef, tgtDeref, {perm.value}, hits);
  }

  /** The groups of an endpoint: those whose member filter holds for it. */
  method SearchEndpoint(env: Env, groups: seq<Group>, endpoint: Ari) returns (ids: set<Gid>)
    ensures ids == set i | 0 <= i < |groups| && Matches(env, groups[i].memberFilter, SubZero(endpoint)) :: groups[i].id
    ensures forall id :: id in ids <==>
              exists g | g in groups :: g.id == id && var out := EvalFilter(env, g.memberFilter, SubZero(endpoint));
                                                      out.Ok? && Truthy(out.value)
  {
    ids := {};
    for k := 0 to |groups|
      invariant ids == set i | 0 <= i < k && Matches(env, groups[i].memberFilter, SubZero(endpoint)) :: groups[i].id
    {
      hide EvalFilter;
      var r := EvaluateFilter(env, groups[k].memberFilter, SubZero(endpoint));
      if r.Ok? {
        if Truthy(r.value) {
          ids := ids + {groups[k].id};
        }
      }
    }
  }
}
