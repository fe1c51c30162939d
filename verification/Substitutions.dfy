/** Where a translation puts what: values are found by the way to them. */
module Substitutions {
  import opened Wrappers
  import opened Values

  /** The parts of a value that are entered in order: the items of an AC, the cells of a table, and
      the parameters of a reference that are given in order. */
  function Parts(a: Ari): seq<Ari> {
    match a
    case Ac(items) => items
    case Tbl(_, cells) => cells
    case Ref(_, AcParams(given)) => given
    case _ => []
  }

  /** The value that a way through the parts leads to. */
  function ValueAt(a: Ari, way: seq<nat>): Option<Ari>
    decreases |way|
  {
    if way == [] then Some(a)
    else if way[0] < |Parts(a)| then ValueAt(Parts(a)[way[0]], way[1..])
    else None
  }

  /** The parent of what a way leads to, below `parent`. */
  function ParentAt(a: Ari, parent: Option<Ari>, way: seq<nat>): Option<Ari>
    decreases |way|
  {
    if way == [] then parent
    else if way[0] < |Parts(a)| then ParentAt(Parts(a)[way[0]], Some(a), way[1..])
    else None
  }

  lemma {:induction false} AllAt(items: seq<Ari>, parent: Option<Ari>, depth: nat, sub: Substitution, i: nat)
    requires TranslateAll(items, parent, depth, sub).Some? && i < |items|
    ensures Translate(items[i], parent, depth, sub) == Some(TranslateAll(items, parent, depth, sub).value[i])
  {
    if i > 0 {
      AllAt(items[1..], parent, depth, sub, i - 1);
    }
  }

  /** A translated value has as many parts, each the translation of the part. */
  lemma PartTranslated(a: Ari, parent: Option<Ari>, depth: nat, sub: Substitution, i: nat)
    requires Translate(a, parent, depth, sub).Some? && i < |Parts(a)|
    ensures i < |Parts(Translate(a, parent, depth, sub).value)|
    ensures Translate(Parts(a)[i], Some(a), depth + 1, sub) == Some(Parts(Translate(a, parent, depth, sub).value)[i])
  {
    AllAt(Parts(a), Some(a), depth + 1, sub, i);
  }

  lemma {:induction false} WayTranslated(a: Ari, parent: Option<Ari>, depth: nat, sub: Substitution, way: seq<nat>)
    requires Translate(a, parent, depth, sub).Some? && ValueAt(a, way).Some?
    ensures ValueAt(Translate(a, parent, depth, sub).value, way).Some?
    ensures Translate(ValueAt(a, way).value, ParentAt(a, parent, way), depth + |way|, sub) ==
            ValueAt(Translate(a, parent, depth, sub).value, way)
    decreases |way|
  {
    if way != [] {
      PartTranslated(a, parent, depth, sub, way[0]);
      hide Translate;
      WayTranslated(Parts(a)[way[0]], Some(a), depth + 1, sub, way[1..]);
    }
  }

  /** Every label of a filter, wherever it stands, is replaced by exactly its value, except that a
      reference directly in the filter's own AC is wrapped in the operator that returns it. */
  lemma LabelReplaced(filter: Ari, sub: Substitution, way: seq<nat>, l: Label)
    requires Translate(filter, None, 0, sub).Some? && ValueAt(filter, way) == Some(LabelLit(l))
    ensures sub(l).Some?
    ensures ValueAt(Translate(filter, None, 0, sub).value, way) ==
            if |way| == 1 && filter.Ac? && sub(l).value.Ref? then Some(Ref(REF_OPER, AcParams([sub(l).value])))
            else Some(sub(l).value)
  {
    WayTranslated(filter, None, 0, sub, way);
    if |way| == 1 {
      assert ParentAt(filter, None, way) == Some(filter);
    }
  }

  /** What has no parts and is no label stays as it is, and what has parts keeps its kind. */
  lemma OthersKept(filter: Ari, sub: Substitution, way: seq<nat>)
    requires Translate(filter, None, 0, sub).Some? && ValueAt(filter, way).Some?
    ensures var was, now := ValueAt(filter, way).value, ValueAt(Translate(filter, None, 0, sub).value, way);
            && now.Some?
            && (was.Ac? ==> now.value.Ac? && |now.value.items| == |was.items|)
            && (was.Tbl? ==> now.value.Tbl? && now.value.ncols == was.ncols && |now.value.cells| == |was.cells|)
            && (was.Am? ==> now.value.Am?)
            && (was.Ref? ==> now.value.Ref? && now.value.path == was.path)
            && (!was.LabelLit? && !was.Ac? && !was.Tbl? && !was.Am? && !was.Ref? ==> now == Some(was))
  {
    WayTranslated(filter, None, 0, sub, way);
  }

  lemma {:induction false} FailsOnLabel(a: Ari, parent: Option<Ari>, depth: nat, sub: Substitution)
    requires Translate(a, parent, depth, sub).None? && MapFree(a)
    ensures exists way, l :: ValueAt(a, way) == Some(LabelLit(l)) && sub(l).None?
    decreases a, 1
  {
    if a.LabelLit? {
      assert ValueAt(a, []) == Some(LabelLit(a.lab));
    } else {
      FailsInParts(Parts(a), Some(a), depth + 1, sub);
      var i, way, l :| 0 <= i < |Parts(a)| && ValueAt(Parts(a)[i], way) == Some(LabelLit(l)) && sub(l).None?;
      var longer := [i] + way;
      assert longer[1..] == way;
      assert ValueAt(a, longer) == Some(LabelLit(l));
    }
  }

  lemma {:induction false} FailsInParts(items: seq<Ari>, parent: Option<Ari>, depth: nat, sub: Substitution)
    requires TranslateAll(items, parent, depth, sub).None? && AllMapFree(items)
    ensures exists i, way, l :: 0 <= i < |items| && ValueAt(items[i], way) == Some(LabelLit(l)) && sub(l).None?
    decreases items, 0
  {
    if Translate(items[0], parent, depth, sub).None? {
      FailsOnLabel(items[0], parent, depth, sub);
    } else {
      FailsInParts(items[1..], parent, depth, sub);
      var i, way, l :| 0 <= i < |items[1..]| && ValueAt(items[1..][i], way) == Some(LabelLit(l)) && sub(l).None?;
      assert items[i + 1] == items[1..][i];
    }
  }

  /** The translation of a filter without maps fails exactly when some label in it has no value. */
  lemma TranslationFailsIff(filter: Ari, sub: Substitution)
    requires MapFree(filter)
    ensures Translate(filter, None, 0, sub).None? <==>
            exists way, l :: ValueAt(filter, way) == Some(LabelLit(l)) && sub(l).None?
  {
    if Translate(filter, None, 0, sub).None? {
      FailsOnLabel(filter, None, 0, sub);
    } else {
      forall way, l | ValueAt(filter, way) == Some(LabelLit(l))
        ensures sub(l).Some?
      {
        LabelReplaced(filter, sub, way, l);
      }
    }
  }

  predicate MapFree(a: Ari)
    decreases a, 1
  {
    match a
    case Ac(items) => AllMapFree(items)
    case Am(_) => false
    case Tbl(_, cells) => AllMapFree(cells)
    case Ref(_, params) =>
      (match params
       case NoParams => true
       case AcParams(given) => AllMapFree(given)
       case AmParams(_) => false)
    case _ => true
  }

  predicate AllMapFree(items: seq<Ari>)
    decreases items, 0
  {
    items == [] || (MapFree(items[0]) && AllMapFree(items[1..]))
  }

  // ----- maps -----

  /** The value under a key. */
  function Find(pairs: seq<Pair>, key: Ari): Option<Ari> {
    if pairs == [] then None
    else if pairs[0].key == key then Some(pairs[0].val)
    else Find(pairs[1..], key)
  }

  lemma {:induction false} UpsertFinds(pairs: seq<Pair>, key: Ari, val: Ari, other: Ari)
    ensures Find(Upsert(pairs, key, val), other) == if other == key then Some(val) else Find(pairs, other)
  {
    var out := Upsert(pairs, key, val);
    if pairs == [] {
      assert out[1..] == [];
    } else if pairs[0].key == key {
      assert out[1..] == pairs[1..];
    } else {
      assert out[1..] == Upsert(pairs[1..], key, val);
      UpsertFinds(pairs[1..], key, val, other);
    }
  }

  /** The value of the last pair whose translated key is `key`, or `before`. */
  function LastFor(pairs: seq<Pair>, key: Ari, before: Option<Ari>, parent: Option<Ari>, depth: nat, sub: Substitution)
    : Option<Ari>
  {
    if pairs == [] then before
    else if Translate(pairs[0].key, parent, depth, sub) == Some(key) then
      LastFor(pairs[1..], key, Translate(pairs[0].val, parent, depth, sub), parent, depth, sub)
    else LastFor(pairs[1..], key, before, parent, depth, sub)
  }

  /** In a translated map each key has the translated value of the last pair for it. */
  lemma {:induction false} MapTranslated(pairs: seq<Pair>, out: seq<Pair>, parent: Option<Ari>, depth: nat,
                                         sub: Substitution, key: Ari)
    requires TranslatePairs(pairs, out, parent, depth, sub).Some?
    ensures Find(TranslatePairs(pairs, out, parent, depth, sub).value, key) ==
            LastFor(pairs, key, Find(out, key), parent, depth, sub)
    decreases |pairs|
  {
    if pairs != [] {
      var p := TranslatePair(pairs[0], parent, depth, sub).value;
      assert Translate(pairs[0].key, parent, depth, sub) == Some(p.key) &&
             Translate(pairs[0].val, parent, depth, sub) == Some(p.val);
      UpsertFinds(out, p.key, p.val, key);
      hide Translate, TranslatePair;
      MapTranslated(pairs[1..], Upsert(out, p.key, p.val), parent, depth, sub, key);
    }
  }
}
