/** ARI values as the evaluator and the filters see them, and the recursive
    translation that substitutes LABEL values inside them. */
module Values {
  import opened Wrappers

  /** The primitive held by a LABEL literal: only text and integer labels are usable. */
  datatype Label = TextLabel(text: string) | IntLabel(n: int) | OtherLabel

  /** Path of an object reference, with the enumerated identifiers. */
  datatype Path = Path(org: int, model: int, objType: int, obj: int)

  datatype Ari =
    | Undefined
    | Null
    | Bool(b: bool)
    | Int(n: int)
    | Real64(x: real)  // a typed REAL64 literal with a finite value
    | Text(stored: string)  // the bytes as stored, with any terminator
    | Time(t: int)
    | LabelLit(lab: Label)
    | Ac(items: seq<Ari>)
    | Am(pairs: seq<Pair>)
    | Tbl(ncols: nat, cells: seq<Ari>)
    | Sealed(tag: int, members: seq<Ari>)  // EXECSET and RPTSET: copied, never entered
    | Ref(path: Path, params: Params)

  datatype Pair = Pair(key: Ari, val: Ari)

  datatype Params =
    | NoParams
    | AcParams(given: seq<Ari>)
    | AmParams(named: seq<Pair>)

  /** Identity of an object in the object store. */
  type Obj = nat

  const TYPE_OPER := -6

  /** ari://ietf/dtnma-agent/oper/ref */
  const REF_OPER := Path(1, 1, TYPE_OPER, 43)

  /** The reference to OPER `ref` that carries `v` as its only parameter. */
  function RefOper(v: Ari): Ari {
    Ref(REF_OPER, AcParams([v]))
  }

  predicate Truthy(a: Ari) {
    match a
    case Undefined => false
    case Null => false
    case Bool(b) => b
    case Int(n) => n != 0
    case Real64(x) => x != 0.0
    case Text(s) => |s| != 0
    case Time(t) => t != 0
    case LabelLit(l) =>
      (match l
       case TextLabel(s) => |s| != 0
       case IntLabel(n) => n != 0
       case OtherLabel => true)
    case _ => true
  }

  /** What a translator callback puts in the place of a LABEL it substitutes by `v`. */
  function LabelSubst(v: Ari, parent: Option<Ari>, depth: nat): Ari {
    if v.Ref? && parent.Some? && parent.value.Ac? && depth == 1 then RefOper(v) else v
  }

  /** Where the labels of a filter get their values; None makes the translation fail. */
  type Substitution = Label -> Option<Ari>

  /** Set `key` in an association list, keeping the place of a key already there. */
  function Upsert(pairs: seq<Pair>, key: Ari, val: Ari): seq<Pair> {
    if pairs == [] then [Pair(key, val)]
    else if pairs[0].key == key then [Pair(key, val)] + pairs[1..]
    else [pairs[0]] + Upsert(pairs[1..], key, val)
  }

  /** Translate a value with a callback that replaces every LABEL by its substitute. */
  function Translate(a: Ari, parent: Option<Ari>, depth: nat, sub: Substitution): Option<Ari>
    decreases a, 0
  {
    match a
    case LabelLit(l) =>
      var v := sub(l);
      if v.None? then None else Some(LabelSubst(v.value, parent, depth))
    case Ac(items) =>
      var out := TranslateAll(items, Some(a), depth + 1, sub);
      if out.None? then None else Some(Ac(out.value))
    case Am(pairs) =>
      var out := TranslatePairs(pairs, [], Some(a), depth + 1, sub);
      if out.None? then None else Some(Am(out.value))
    case Tbl(ncols, cells) =>
      var out := TranslateAll(cells, Some(a), depth + 1, sub);
      if out.None? then None else Some(Tbl(ncols, out.value))
    case Ref(path, params) =>
      (match params
       case NoParams => Some(a)
       case AcParams(given) =>
         var out := TranslateAll(given, Some(a), depth + 1, sub);
         if out.None? then None else Some(Ref(path, AcParams(out.value)))
       case AmParams(named) =>
         var out := TranslatePairs(named, [], Some(a), depth + 1, sub);
         if out.None? then None else Some(Ref(path, AmParams(out.value))))
    case _ => Some(a)
  }

  function TranslateAll(items: seq<Ari>, parent: Option<Ari>, depth: nat, sub: Substitution): (r: Option<seq<Ari>>)
    ensures r.Some? ==> |r.value| == |items|
    decreases items, 1
  {
    if items == [] then Some([])
    else
      var head := Translate(items[0], parent, depth, sub);
      if head.None? then None
      else
        var tail := TranslateAll(items[1..], parent, depth, sub);
        if tail.None? then None else Some([head.value] + tail.value)
  }

  function TranslatePair(p: Pair, parent: Option<Ari>, depth: nat, sub: Substitution): Option<Pair>
    decreases p, 1
  {
    match p
    case Pair(k, v) =>
      var key := Translate(k, parent, depth, sub);
      if key.None? then None
      else
        var val := Translate(v, parent, depth, sub);
        if val.None? then None else Some(Pair(key.value, val.value))
  }

  function TranslatePairs(pairs: seq<Pair>, out: seq<Pair>, parent: Option<Ari>, depth: nat, sub: Substitution)
    : Option<seq<Pair>>
    decreases pairs, 1
  {
    if pairs == [] then Some(out)
    else
      var p := TranslatePair(pairs[0], parent, depth, sub);
      if p.None? then None
      else TranslatePairs(pairs[1..], Upsert(out, p.value.key, p.value.val), parent, depth, sub)
  }

  // ----- what translation does to labels -----

  /** No label is left, except inside values that are never entered, and maps have unique keys. */
  predicate Plain(a: Ari)
    decreases a, 0
  {
    match a
    case LabelLit(_) => false
    case Ac(items) => AllPlain(items)
    case Am(pairs) => PairsPlain(pairs)
    case Tbl(_, cells) => AllPlain(cells)
    case Ref(_, params) =>
      (match params
       case NoParams => true
       case AcParams(given) => AllPlain(given)
       case AmParams(named) => PairsPlain(named))
    case _ => true
  }

  predicate AllPlain(items: seq<Ari>)
    decreases items, 1
  {
    items == [] || (Plain(items[0]) && AllPlain(items[1..]))
  }

  predicate HasKey(pairs: seq<Pair>, key: Ari) {
    exists i | 0 <= i < |pairs| :: pairs[i].key == key
  }

  predicate PairPlain(p: Pair)
    decreases p, 1
  {
    match p
    case Pair(k, v) => Plain(k) && Plain(v)
  }

  predicate PairsPlain(pairs: seq<Pair>)
    decreases pairs, 1
  {
    pairs == [] || (PairPlain(pairs[0]) && !HasKey(pairs[1..], pairs[0].key) && PairsPlain(pairs[1..]))
  }

  ghost predicate FillsLabels(sub: Substitution) {
    forall l | sub(l).Some? :: Plain(sub(l).value)
  }

  lemma {:induction false} UpsertPlain(pairs: seq<Pair>, key: Ari, val: Ari)
    requires PairsPlain(pairs) && Plain(key) && Plain(val)
    ensures PairsPlain(Upsert(pairs, key, val))
    ensures forall k :: HasKey(Upsert(pairs, key, val), k) <==> k == key || HasKey(pairs, k)
  {
    var out := Upsert(pairs, key, val);
    if pairs == [] {
      assert out[0] == Pair(key, val) && out[1..] == [] && !HasKey(out[1..], key);
      HasKeyCons(out);
    } else {
      var tail := if pairs[0].key == key then pairs[1..] else Upsert(pairs[1..], key, val);
      if pairs[0].key != key {
        UpsertPlain(pairs[1..], key, val);
      }
      assert out[1..] == tail;
      HasKeyCons(pairs);
      HasKeyCons(out);
    }
  }

  lemma HasKeyCons(pairs: seq<Pair>)
    requires pairs != []
    ensures forall k :: HasKey(pairs, k) <==> k == pairs[0].key || HasKey(pairs[1..], k)
  {
    forall k
      ensures HasKey(pairs, k) <==> k == pairs[0].key || HasKey(pairs[1..], k)
    {
      if i :| 0 <= i < |pairs| && pairs[i].key == k && i > 0 {
        assert pairs[1..][i - 1].key == k;
      }
      if HasKey(pairs[1..], k) {
        var i :| 0 <= i < |pairs[1..]| && pairs[1..][i].key == k;
        assert pairs[i + 1].key == k;
      }
    }
  }

  /** Translation with plain substitutes leaves no label anywhere it goes. */
  lemma {:induction false} LabelsGone(a: Ari, parent: Option<Ari>, depth: nat, sub: Substitution)
    requires FillsLabels(sub) && Translate(a, parent, depth, sub).Some?
    ensures Plain(Translate(a, parent, depth, sub).value)
    decreases a, 0
  {
    match a
    case LabelLit(l) =>
      assert AllPlain([sub(l).value]) by {
        assert [sub(l).value][1..] == [];
      }
    case Ac(items) => LabelsGoneAll(items, Some(a), depth + 1, sub);
    case Am(pairs) => LabelsGonePairs(pairs, [], Some(a), depth + 1, sub);
    case Tbl(_, cells) => LabelsGoneAll(cells, Some(a), depth + 1, sub);
    case Ref(_, params) =>
      match params {
        case NoParams =>
        case AcParams(given) => LabelsGoneAll(given, Some(a), depth + 1, sub);
        case AmParams(named) => LabelsGonePairs(named, [], Some(a), depth + 1, sub);
      }
    case _ =>
  }

  lemma {:induction false} LabelsGoneAll(items: seq<Ari>, parent: Option<Ari>, depth: nat, sub: Substitution)
    requires FillsLabels(sub) && TranslateAll(items, parent, depth, sub).Some?
    ensures AllPlain(TranslateAll(items, parent, depth, sub).value)
    decreases items, 1
  {
    if items != [] {
      LabelsGone(items[0], parent, depth, sub);
      LabelsGoneAll(items[1..], parent, depth, sub);
      var out := TranslateAll(items, parent, depth, sub).value;
      assert out[1..] == TranslateAll(items[1..], parent, depth, sub).value;
    }
  }

  lemma {:induction false} LabelsGonePair(p: Pair, parent: Option<Ari>, depth: nat, sub: Substitution)
    requires FillsLabels(sub) && TranslatePair(p, parent, depth, sub).Some?
    ensures PairPlain(TranslatePair(p, parent, depth, sub).value)
    decreases p, 1
  {
    match p
    case Pair(k, v) =>
      LabelsGone(k, parent, depth, sub);
      LabelsGone(v, parent, depth, sub);
  }

  lemma {:induction false} LabelsGonePairs(pairs: seq<Pair>, out: seq<Pair>, parent: Option<Ari>, depth: nat,
                                           sub: Substitution)
    requires FillsLabels(sub) && PairsPlain(out) && TranslatePairs(pairs, out, parent, depth, sub).Some?
    ensures PairsPlain(TranslatePairs(pairs, out, parent, depth, sub).value)
    decreases pairs, 1
  {
    if pairs != [] {
      LabelsGonePair(pairs[0], parent, depth, sub);
      var p := TranslatePair(pairs[0], parent, depth, sub).value;
      UpsertPlain(out, p.key, p.val);
      LabelsGonePairs(pairs[1..], Upsert(out, p.key, p.val), parent, depth, sub);
    }
  }

  /** Translation changes nothing but labels. */
  lemma {:induction false} PlainUnchanged(a: Ari, parent: Option<Ari>, depth: nat, sub: Substitution)
    requires Plain(a)
    ensures Translate(a, parent, depth, sub) == Some(a)
    decreases a, 0
  {
    match a
    case Ac(items) => PlainUnchangedAll(items, Some(a), depth + 1, sub);
    case Am(pairs) =>
      PlainUnchangedPairs(pairs, [], Some(a), depth + 1, sub);
      assert [] + pairs == pairs;
    case Tbl(_, cells) => PlainUnchangedAll(cells, Some(a), depth + 1, sub);
    case Ref(_, params) =>
      match params {
        case NoParams =>
        case AcParams(given) => PlainUnchangedAll(given, Some(a), depth + 1, sub);
        case AmParams(named) =>
          PlainUnchangedPairs(named, [], Some(a), depth + 1, sub);
          assert [] + named == named;
      }
    case _ =>
  }

  lemma {:induction false} PlainUnchangedAll(items: seq<Ari>, parent: Option<Ari>, depth: nat, sub: Substitution)
    requires AllPlain(items)
    ensures TranslateAll(items, parent, depth, sub) == Some(items)
    decreases items, 1
  {
    if items != [] {
      PlainUnchanged(items[0], parent, depth, sub);
      PlainUnchangedAll(items[1..], parent, depth, sub);
      assert [items[0]] + items[1..] == items;
    }
  }

  lemma {:induction false} PlainUnchangedPair(p: Pair, parent: Option<Ari>, depth: nat, sub: Substitution)
    requires PairPlain(p)
    ensures TranslatePair(p, parent, depth, sub) == Some(p)
    decreases p, 1
  {
    match p
    case Pair(k, v) =>
      PlainUnchanged(k, parent, depth, sub);
      PlainUnchanged(v, parent, depth, sub);
  }

  lemma {:induction false} UpsertNew(pairs: seq<Pair>, p: Pair)
    requires !HasKey(pairs, p.key)
    ensures Upsert(pairs, p.key, p.val) == pairs + [p]
  {
    if pairs != [] {
      HasKeyCons(pairs);
      UpsertNew(pairs[1..], p);
      assert pairs == [pairs[0]] + pairs[1..];
    }
  }

  lemma {:induction false} PlainUnchangedPairs(pairs: seq<Pair>, out: seq<Pair>, parent: Option<Ari>, depth: nat,
                                               sub: Substitution)
    requires PairsPlain(pairs)
    requires forall k | HasKey(pairs, k) :: !HasKey(out, k)
    ensures TranslatePairs(pairs, out, parent, depth, sub) == Some(out + pairs)
    decreases pairs, 1
  {
    if pairs == [] {
      assert out + pairs == out;
    } else {
      PlainUnchangedPair(pairs[0], parent, depth, sub);
      HasKeyCons(pairs);
      UpsertNew(out, pairs[0]);
      forall k | HasKey(pairs[1..], k)
        ensures !HasKey(out + [pairs[0]], k)
      {
        assert !HasKey(out, k);
      }
      PlainUnchangedPairs(pairs[1..], out + [pairs[0]], parent, depth, sub);
      assert out + [pairs[0]] + pairs[1..] == out + pairs;
    }
  }
}
