/** What is bound to what, said of the fields of the object store and of the descriptors alone. */
module BindingLaws {
  import opened Wrappers
  import opened Values
  import opened Binding

  /** Given parameters are accepted when there are none, or when each fits its formal parameter. */
  lemma AcceptedExactly(store: Store, path: Path, b: Bases)
    ensures Accepted(store, path, NoParams, b)
    ensures forall given :: Accepted(store, path, AcParams(given), b) <==>
              && |given| <= |store.fparams(path)|
              && forall i | 0 <= i < |given| :: Converts(store, store.fparams(path)[i], given[i], b)
    ensures forall named :: Accepted(store, path, AmParams(named), b) <==>
              && store.keyed(path, named).Some?
              && forall g | g in store.keyed(path, named).value :: Converts(store, g.typ, g.value, b)
  {
    hide Converts;
    forall named
      ensures Accepted(store, path, AmParams(named), b) <==>
              && store.keyed(path, named).Some?
              && forall g | g in store.keyed(path, named).value :: Converts(store, g.typ, g.value, b)
    {
      if store.keyed(path, named).Some? {
        var gs := store.keyed(path, named).value;
        assert forall i | 0 <= i < |gs| :: gs[i] in gs;
      }
    }
  }

  lemma ConvertsExactly(store: Store, t: TypeObj, v: Ari, b: Bases)
    ensures Converts(store, t, v, b) <==> !t.Invalid? && (t.Use? ==> t.leaf in b) && store.convert(t, v, b)
  {
  }

  /** A use stays bound, or is bound to the built-in type or the TYPEDEF it names. */
  lemma UseAnswered(store: Store, u: Leaf, b: Bases)
    ensures u in b ==> Answer(store, TypeUse(u), b) == Some(b[u])
    ensures u !in b && !u.name.Ref? ==> Answer(store, TypeUse(u), b) == store.builtin(u.name)
    ensures u !in b && u.name.Ref? ==>
              var found := store.find(u.name.path);
              Answer(store, TypeUse(u), b) ==
              if found.Typedef? && Accepted(store, u.name.path, u.name.params, b) then found.desc else None
  {
    hide Accepted;
  }

  /** A base is linked to the IDENT it names, and to nothing else. */
  lemma BaseAnswered(store: Store, o: Obj, name: Ari, b: Bases)
    ensures !name.Ref? ==> Answer(store, BaseName(o, name), b) == None
    ensures name.Ref? ==>
              var found := store.find(name.path);
              Answer(store, BaseName(o, name), b) ==
              if found.Ident? && Accepted(store, name.path, name.params, b) then found.obj else None
  {
    hide Accepted;
  }

  /** The i-th forward link of an IDENT leads to what its i-th base names, if that has a descriptor
      and accepts the given parameters, of whatever kind it is. */
  lemma {:induction false} ForwardLinked(store: Store, names: seq<Ari>, b: Bases, i: nat)
    requires i < |names|
    ensures !names[i].Ref? ==> Forwards(store, names, b)[i] == Unset
    ensures names[i].Ref? ==>
              var found := store.find(names[i].path);
              Forwards(store, names, b)[i] ==
              if !Accepted(store, names[i].path, names[i].params, b) then Unset
              else if found.Ident? && found.obj.Some? then ToIdent(found.obj.value)
              else if (found.Typedef? && found.desc.Some?) || (found.OtherObject? && found.hasDesc) then ToOther
              else Unset
  {
    if i > 0 {
      ForwardLinked(store, names[1..], b, i - 1);
    }
  }

  /** The uses of an object: those of its own types and, except for a TYPEDEF, of its formal
      parameters; those of an OPER are of its operands and its result. */
  lemma ObjectUses(o: Object)
    ensures Uses(TasksOf(o)) ==
            match o.desc
            case IdentDesc(_) => UsesInAll(o.fparams)
            case TypedefDesc(typ) => UsesIn(typ)
            case ConstDesc => UsesInAll(o.fparams)
            case ValueDesc(typ) => UsesIn(typ) + UsesInAll(o.fparams)
            case CtrlDesc(res) => UsesIn(res) + UsesInAll(o.fparams)
            case OperDesc(operands, res) => UsesInAll(operands) + UsesIn(res) + UsesInAll(o.fparams)
            case _ => {}
    ensures Unusables(TasksOf(o)) ==
            match o.desc
            case IdentDesc(_) => InvalidNodesIn(o.fparams)
            case TypedefDesc(typ) => InvalidNodes(typ)
            case ConstDesc => InvalidNodesIn(o.fparams)
            case ValueDesc(typ) => InvalidNodes(typ) + InvalidNodesIn(o.fparams)
            case CtrlDesc(res) => (if res.Invalid? then 0 else InvalidNodes(res)) + InvalidNodesIn(o.fparams)
            case OperDesc(operands, res) => InvalidNodesIn(operands) + InvalidNodes(res) + InvalidNodesIn(o.fparams)
            case RuleDesc => 0
            case _ => 1
  {
    if o.desc.NoDesc? || o.desc.UnknownKind? {
      assert [Unusable][1..] == [] && Uses([Unusable]) == {};
    } else {
      TypesCounted(o);
      hide Uses, Unusables, TasksAll;
      PartsCount(TasksAll(TypesOf(o)), Names(o.id, BasesOf(o)));
      NamesCounted(o.id, BasesOf(o));
      TreesTasks(TypesOf(o));
    }
  }

  lemma {:induction false} NamesCounted(o: Obj, names: seq<Ari>)
    ensures Uses(Names(o, names)) == {} && Unusables(Names(o, names)) == 0
    ensures |Names(o, names)| == |names| && forall i | 0 <= i < |names| :: Names(o, names)[i] == BaseName(o, names[i])
  {
    if names != [] {
      NamesCounted(o, names[1..]);
      assert Names(o, names)[1..] == Names(o, names[1..]);
      PartsCount([BaseName(o, names[0])], Names(o, names[1..]));
      assert [BaseName(o, names[0])][1..] == [];
    }
  }

  lemma {:induction false} TypesInParts(xs: seq<TypeObj>, ys: seq<TypeObj>)
    ensures UsesInAll(xs + ys) == UsesInAll(xs) + UsesInAll(ys)
    ensures InvalidNodesIn(xs + ys) == InvalidNodesIn(xs) + InvalidNodesIn(ys)
  {
    hide UsesIn, InvalidNodes;
    if xs == [] {
      assert xs + ys == ys;
    } else {
      assert (xs + ys)[1..] == xs[1..] + ys;
      TypesInParts(xs[1..], ys);
    }
  }

  lemma OneTypeCounted(t: TypeObj)
    ensures UsesInAll([t]) == UsesIn(t) && InvalidNodesIn([t]) == InvalidNodes(t)
  {
    hide UsesIn, InvalidNodes;
    assert [t][1..] == [];
  }

  lemma TypesCounted(o: Object)
    requires !o.desc.NoDesc? && !o.desc.UnknownKind?
    ensures UsesInAll(TypesOf(o)) ==
            match o.desc
            case IdentDesc(_) => UsesInAll(o.fparams)
            case TypedefDesc(typ) => UsesIn(typ)
            case ConstDesc => UsesInAll(o.fparams)
            case ValueDesc(typ) => UsesIn(typ) + UsesInAll(o.fparams)
            case CtrlDesc(res) => UsesIn(res) + UsesInAll(o.fparams)
            case OperDesc(operands, res) => UsesInAll(operands) + UsesIn(res) + UsesInAll(o.fparams)
            case RuleDesc => {}
    ensures InvalidNodesIn(TypesOf(o)) ==
            match o.desc
            case IdentDesc(_) => InvalidNodesIn(o.fparams)
            case TypedefDesc(typ) => InvalidNodes(typ)
            case ConstDesc => InvalidNodesIn(o.fparams)
            case ValueDesc(typ) => InvalidNodes(typ) + InvalidNodesIn(o.fparams)
            case CtrlDesc(res) => (if res.Invalid? then 0 else InvalidNodes(res)) + InvalidNodesIn(o.fparams)
            case OperDesc(operands, res) => InvalidNodesIn(operands) + InvalidNodes(res) + InvalidNodesIn(o.fparams)
            case RuleDesc => 0
  {
    match o.desc
    case TypedefDesc(typ) => OneTypeCounted(typ);
    case ValueDesc(typ) =>
      OneTypeCounted(typ);
      TypesInParts([typ], o.fparams);
    case CtrlDesc(res) =>
      OneTypeCounted(res);
      TypesInParts([res], o.fparams);
      assert [] + o.fparams == o.fparams;
    case OperDesc(operands, res) =>
      OneTypeCounted(res);
      TypesInParts(operands, [res]);
      TypesInParts(operands + [res], o.fparams);
    case _ =>
  }

  /** The bases of an IDENT are tried last, in order and under its own identity; nothing else has
      bases. */
  lemma ObjectBases(o: Object)
    ensures o.desc.IdentDesc? ==>
              var tasks, names := TasksOf(o), o.desc.bases;
              && |names| <= |tasks|
              && (forall i | 0 <= i < |names| :: tasks[|tasks| - |names| + i] == BaseName(o.id, names[i]))
              && forall k | k in tasks[..|tasks| - |names|] :: !k.BaseName?
    ensures !o.desc.IdentDesc? ==> forall k | k in TasksOf(o) :: !k.BaseName?
  {
    NamesCounted(o.id, BasesOf(o));
    AllTypesHaveNoBases(TypesOf(o));
    if o.desc.IdentDesc? {
      var types := TasksAll(TypesOf(o));
      assert TasksOf(o)[..|types|] == types;
    }
  }
}
