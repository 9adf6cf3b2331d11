/** Substitution on type meanings, and what a pool of generics and instances always satisfies. */
module GenericInvariants {
  import opened Wrappers
  import opened TypePool

  // ---------- substitution on meanings ----------

  /** The value paired with the first key equal to v; v itself when there is none. */
  ghost function Lookup(v: Tree, keys: seq<Tree>, vals: seq<Tree>): Tree
    requires |keys| <= |vals|
    decreases |keys|
  {
    if keys == [] then v else if keys[0] == v then vals[0] else Lookup(v, keys[1..], vals[1..])
  }

  /** Simultaneous replacement of type variables. */
  ghost function SubstTree(t: Tree, keys: seq<Tree>, vals: seq<Tree>): Tree
    requires |keys| <= |vals|
    decreases t
  {
    match t
    case TVar(_, _) => Lookup(t, keys, vals)
    case TRef(inner) => TRef(SubstTree(inner, keys, vals))
    case TStruct(fs) =>
      TStruct(seq(|fs|, k requires 0 <= k < |fs| => TreeField(fs[k].name, SubstTree(fs[k].tree, keys, vals))))
    case TEnum(vs) =>
      TEnum(seq(|vs|, k requires 0 <= k < |vs| =>
        TreeVariant(vs[k].name,
          if vs[k].payload.Some? then Some(SubstTree(vs[k].payload.value, keys, vals)) else None)))
    case TApp(parent, args) => TApp(parent, seq(|args|, k requires 0 <= k < |args| => SubstTree(args[k], keys, vals)))
    case TVariant(whole, index) => TVariant(SubstTree(whole, keys, vals), index)
    case _ => t
  }

  /** Every type variable of t is one of keys. */
  ghost predicate VarsWithin(t: Tree, keys: seq<Tree>)
    decreases t
  {
    match t
    case TVar(_, _) => t in keys
    case TRef(inner) => VarsWithin(inner, keys)
    case TStruct(fs) => forall k :: 0 <= k < |fs| ==> VarsWithin(fs[k].tree, keys)
    case TEnum(vs) => forall k :: 0 <= k < |vs| ==> vs[k].payload.Some? ==> VarsWithin(vs[k].payload.value, keys)
    case TApp(_, args) => forall k :: 0 <= k < |args| ==> VarsWithin(args[k], keys)
    case TVariant(whole, _) => VarsWithin(whole, keys)
    case _ => true
  }

  ghost predicate Closed(t: Tree) {
    VarsWithin(t, [])
  }

  lemma {:induction false} SubstClosed(t: Tree, keys: seq<Tree>, vals: seq<Tree>)
    requires Closed(t) && |keys| <= |vals|
    ensures SubstTree(t, keys, vals) == t
    decreases t
  {
    match t {
      case TRef(inner) => SubstClosed(inner, keys, vals);
      case TStruct(fs) =>
        forall k | 0 <= k < |fs| ensures SubstTree(t, keys, vals).fields[k] == fs[k] {
          SubstClosed(fs[k].tree, keys, vals);
        }
      case TEnum(vs) =>
        forall k | 0 <= k < |vs| ensures SubstTree(t, keys, vals).variants[k] == vs[k] {
          if vs[k].payload.Some? { SubstClosed(vs[k].payload.value, keys, vals); }
        }
      case TApp(_, args) =>
        forall k | 0 <= k < |args| ensures SubstTree(t, keys, vals).args[k] == args[k] {
          SubstClosed(args[k], keys, vals);
        }
      case TVariant(whole, _) => SubstClosed(whole, keys, vals);
      case _ =>
    }
  }

  // ---------- expansion ----------

  /** A type with every name, alias and instance replaced by its structure. A variant has its whole enum's
      structure, which is what code generation builds for it. */
  ghost function Expand(pool: seq<Node>, id: TypeId): Tree
    requires Below(pool) && Placement(pool) && id < |pool|
    decreases id, 1
  {
    match pool[id]
    case Reference(inner) => TRef(Expand(pool, inner))
    case Struct(fs, _, _) => TStruct(ExpandFields(pool, fs, id))
    case Enum(vs, _, _) => TEnum(ExpandVariants(pool, vs, id))
    case EnumVariant(_) =>
      FamilyBelow(pool, id);
      TEnum(ExpandVariants(pool, pool[WholeEnum(pool, id)].variants, id))
    case OpaqueAlias(aliasee, _) => Expand(pool, aliasee)
    case _ => Den(pool, id)
  }

  ghost function ExpandFields(pool: seq<Node>, fs: seq<Field>, bound: TypeId): (r: seq<TreeField>)
    requires Below(pool) && Placement(pool) && bound <= |pool| && forall k :: 0 <= k < |fs| ==> fs[k].typeId < bound
    ensures |r| == |fs| && forall k :: 0 <= k < |fs| ==> r[k] == TreeField(fs[k].name, Expand(pool, fs[k].typeId))
    decreases bound, 0
  {
    seq(|fs|, k requires 0 <= k < |fs| => TreeField(fs[k].name, Expand(pool, fs[k].typeId)))
  }

  ghost function ExpandVariants(pool: seq<Node>, vs: seq<Variant>, bound: TypeId): (r: seq<TreeVariant>)
    requires Below(pool) && Placement(pool) && bound <= |pool| && PayloadsBelow(vs, bound)
    ensures |r| == |vs|
    ensures forall k :: 0 <= k < |vs| ==>
      && r[k].name == vs[k].name && r[k].payload.Some? == vs[k].payload.Some?
      && (vs[k].payload.Some? ==> r[k].payload.value == Expand(pool, vs[k].payload.value))
    decreases bound, 0
  {
    seq(|vs|, k requires 0 <= k < |vs| => TreeVariant(vs[k].name,
      if vs[k].payload.Some? then Some(Expand(pool, vs[k].payload.value)) else None))
  }

  /** No type variable, and no generic, anywhere in a type's definition, its instances' arguments included. */
  ghost predicate VarFree(pool: seq<Node>, id: TypeId)
    requires Below(pool) && Placement(pool) && id < |pool|
    decreases id
  {
    InstanceInfoBelow(pool, id);
    var info := InstanceInfo(pool, id);
    && (info.Some? ==> forall k :: 0 <= k < |info.value.args| ==> VarFree(pool, info.value.args[k]))
    && match pool[id]
       case TypeVariable(_, _) => false
       case Generic(_, _, _) => false
       case Reference(inner) => VarFree(pool, inner)
       case Struct(fs, _, _) => forall k :: 0 <= k < |fs| ==> VarFree(pool, fs[k].typeId)
       case Enum(vs, _, _) => forall k :: 0 <= k < |vs| ==> vs[k].payload.Some? ==> VarFree(pool, vs[k].payload.value)
       case EnumVariant(_) =>
         FamilyBelow(pool, id);
         var vs := pool[WholeEnum(pool, id)].variants;
         forall k :: 0 <= k < |vs| ==> vs[k].payload.Some? ==> VarFree(pool, vs[k].payload.value)
       case OpaqueAlias(aliasee, _) => VarFree(pool, aliasee)
       case _ => true
  }

  lemma {:induction false} VarFreeMeaningClosed(pool: seq<Node>, id: TypeId)
    requires Below(pool) && Placement(pool) && id < |pool| && VarFree(pool, id)
    ensures Closed(Den(pool, id))
    ensures pool[id].Struct? || pool[id].Enum? ==> Closed(Shape(pool, id))
    decreases id
  {
    var n, info := pool[id], InstanceInfo(pool, id);
    InstanceInfoBelow(pool, id);
    if info.Some? {
      forall k | 0 <= k < |info.value.args| ensures Closed(Den(pool, info.value.args[k])) {
        VarFreeMeaningClosed(pool, info.value.args[k]);
      }
    }
    match n {
      case Reference(inner) => VarFreeMeaningClosed(pool, inner);
      case Struct(fs, _, _) =>
        forall k | 0 <= k < |fs| ensures Closed(Shape(pool, id).fields[k].tree) {
          VarFreeMeaningClosed(pool, fs[k].typeId);
        }
      case Enum(vs, _, _) =>
        forall k | 0 <= k < |vs| && vs[k].payload.Some? ensures Closed(Shape(pool, id).variants[k].payload.value) {
          VarFreeMeaningClosed(pool, vs[k].payload.value);
        }
      case EnumVariant(_) => VarFreeFamilyClosed(pool, id);
      case _ =>
    }
  }

  lemma {:induction false} VarFreeFamilyClosed(pool: seq<Node>, id: TypeId)
    requires Below(pool) && Placement(pool) && id < |pool| && VarFree(pool, id) && pool[id].EnumVariant?
    ensures Closed(Den(pool, id))
    decreases id, 0
  {
    var e := WholeEnum(pool, id);
    assert PlacedAt(pool, id) && PlacedAt(pool, e);
    FamilyBelow(pool, id);
    var vs, inst, t := pool[e].variants, pool[e].inst, EnumDen(pool, e, id);
    if inst.Some? {
      forall k | 0 <= k < |inst.value.args| ensures Closed(t.args[k]) {
        VarFreeMeaningClosed(pool, inst.value.args[k]);
      }
    } else if pool[e].defn.None? {
      forall k | 0 <= k < |vs| && vs[k].payload.Some? ensures Closed(t.variants[k].payload.value) {
        VarFreeMeaningClosed(pool, vs[k].payload.value);
      }
    }
  }

  lemma {:induction false} VarFreeExpansionClosed(pool: seq<Node>, id: TypeId)
    requires Below(pool) && Placement(pool) && id < |pool| && VarFree(pool, id)
    ensures Closed(Expand(pool, id))
    decreases id
  {
    match pool[id] {
      case Reference(inner) => VarFreeExpansionClosed(pool, inner);
      case Struct(fs, _, _) =>
        forall k | 0 <= k < |fs| ensures Closed(Expand(pool, id).fields[k].tree) {
          VarFreeExpansionClosed(pool, fs[k].typeId);
        }
      case Enum(vs, _, _) => VarFreeVariantsClosed(pool, vs, id);
      case EnumVariant(_) =>
        FamilyBelow(pool, id);
        VarFreeVariantsClosed(pool, pool[WholeEnum(pool, id)].variants, id);
      case OpaqueAlias(aliasee, _) => VarFreeExpansionClosed(pool, aliasee);
      case _ =>
    }
  }

  lemma {:induction false} VarFreeVariantsClosed(pool: seq<Node>, vs: seq<Variant>, bound: TypeId)
    requires Below(pool) && Placement(pool) && bound <= |pool| && PayloadsBelow(vs, bound)
    requires forall k :: 0 <= k < |vs| ==> vs[k].payload.Some? ==> VarFree(pool, vs[k].payload.value)
    ensures Closed(TEnum(ExpandVariants(pool, vs, bound)))
    decreases bound, 0
  {
    var r := ExpandVariants(pool, vs, bound);
    forall k | 0 <= k < |vs| && vs[k].payload.Some? ensures Closed(r[k].payload.value) {
      VarFreeExpansionClosed(pool, vs[k].payload.value);
    }
  }

  // ---------- the invariant ----------

  /** A struct or enum entry that is not itself an instance. */
  predicate Bare(n: Node) {
    (n.Struct? || n.Enum?) && n.inst.None?
  }

  /** Substitution may walk through this type: it meets no never, enum variant or generic. */
  ghost predicate Substable(pool: seq<Node>, id: TypeId)
    requires Below(pool) && id < |pool|
    decreases id
  {
    var n := pool[id];
    match n
    case Reference(inner) => Substable(pool, inner)
    case Struct(fs, _, inst) =>
      if inst.Some? then forall k :: 0 <= k < |inst.value.args| ==> Substable(pool, inst.value.args[k])
      else forall k :: 0 <= k < |fs| ==> Substable(pool, fs[k].typeId)
    case Enum(vs, _, inst) =>
      if inst.Some? then forall k :: 0 <= k < |inst.value.args| ==> Substable(pool, inst.value.args[k])
      else forall k :: 0 <= k < |vs| ==> vs[k].payload.Some? ==> Substable(pool, vs[k].payload.value)
    case Nominal(kind) => !kind.NeverType?
    case EnumVariant(_) => false
    case Generic(_, _, _) => false
    case _ => true
  }

  ghost predicate ParamsOk(pool: seq<Node>, params: seq<GenericParam>) {
    forall k :: 0 <= k < |params| ==> params[k].typeId < |pool| && pool[params[k].typeId].TypeVariable?
  }

  ghost predicate ArgsOk(pool: seq<Node>, params: seq<GenericParam>, args: seq<TypeId>) {
    |params| <= |args| && forall k :: 0 <= k < |args| ==> args[k] < |pool|
  }

  ghost function Keys(pool: seq<Node>, params: seq<GenericParam>): (r: seq<Tree>)
    requires Below(pool) && ParamsOk(pool, params)
    ensures |r| == |params| && forall k :: 0 <= k < |params| ==> r[k] == Den(pool, params[k].typeId)
  {
    seq(|params|, k requires 0 <= k < |params| => Den(pool, params[k].typeId))
  }

  ghost function Vals(pool: seq<Node>, args: seq<TypeId>): (r: seq<Tree>)
    requires Below(pool) && forall k :: 0 <= k < |args| ==> args[k] < |pool|
    ensures |r| == |args| && forall k :: 0 <= k < |args| ==> r[k] == Den(pool, args[k])
  {
    DenAll(pool, args, |pool|)
  }

  /** Variables of a generic's body are its parameters, and substitution can walk through it. */
  ghost predicate GenericOk(pool: seq<Node>, g: TypeId)
    requires Below(pool) && g < |pool| && pool[g].Generic?
  {
    && ParamsOk(pool, pool[g].params)
    && Substable(pool, pool[g].body)
    && VarsWithin(Den(pool, pool[g].body), Keys(pool, pool[g].params))
  }

  /** An instance has its generic's name, and its fields are the generic body's with the parameters replaced. */
  ghost predicate InstanceOk(pool: seq<Node>, i: TypeId)
    requires Below(pool) && i < |pool| && InstanceOf(pool[i]).Some?
  {
    var I := pool[i].inst.value;
    && I.parent < i && pool[I.parent].Generic?
    && var g := pool[I.parent];
    && ParamsOk(pool, g.params) && ArgsOk(pool, g.params, I.args)
    && pool[i].defn == Some(g.genericDefn)
    && Bare(pool[g.body]) && pool[g.body].Struct? == pool[i].Struct?
    && Shape(pool, i) == SubstTree(Shape(pool, g.body), Keys(pool, g.params), Vals(pool, I.args))
  }

  /** Definitions other than generics are written where no type variable is in scope. */
  ghost predicate NodeOk(pool: seq<Node>, i: TypeId)
    requires Below(pool) && Placement(pool) && i < |pool|
  {
    var n := pool[i];
    && (n.Generic? ==> GenericOk(pool, i))
    && (InstanceOf(n).Some? ==> InstanceOk(pool, i))
    && ((Bare(n) && n.defn.Some?) || n.OpaqueAlias? ==> VarFree(pool, i))
  }

  ghost predicate NodesOk(pool: seq<Node>)
    requires Below(pool) && Placement(pool)
  {
    forall i :: 0 <= i < |pool| ==> NodeOk(pool, i)
  }

  /** r is what instantiating I.parent with I.args has to return. */
  ghost predicate ResultOk(pool: seq<Node>, I: Instance, r: TypeId)
    requires Below(pool)
  {
    && I.parent < |pool| && pool[I.parent].Generic? && r < |pool|
    && var g := pool[I.parent];
    && ParamsOk(pool, g.params) && ArgsOk(pool, g.params, I.args)
    && if Bare(pool[g.body]) then InstanceOf(pool[r]) == Some(I)
       else Den(pool, r) == SubstTree(Den(pool, g.body), Keys(pool, g.params), Vals(pool, I.args))
  }

  ghost predicate SpecsOk(pool: seq<Node>, specs: map<Instance, TypeId>)
    requires Below(pool)
  {
    forall I :: I in specs ==> ResultOk(pool, I, specs[I])
  }

  /** Every instance entry is the memoised result for its generic and arguments, except a pending one. */
  ghost predicate Registered(pool: seq<Node>, specs: map<Instance, TypeId>, pending: Option<Instance>) {
    forall i :: 0 <= i < |pool| && InstanceOf(pool[i]).Some? && InstanceOf(pool[i]) != pending ==>
      pool[i].inst.value in specs && specs[pool[i].inst.value] == i
  }

  ghost predicate GoodPool(pool: seq<Node>, specs: map<Instance, TypeId>, pending: Option<Instance>) {
    && ValidPool(pool) && NodesOk(pool) && SpecsOk(pool, specs) && Registered(pool, specs, pending)
  }

  /** Without definitions there is nothing else to say of a valid pool. */
  ghost predicate NothingNamed(pool: seq<Node>) {
    forall i :: 0 <= i < |pool| ==> Unnamed(pool[i])
  }

  ghost predicate Unnamed(n: Node) {
    InstanceOf(n).None? && !n.Generic? && !n.OpaqueAlias? && (Bare(n) ==> n.defn.None?)
  }

  lemma UnnamedIsGood(pool: seq<Node>)
    requires ValidPool(pool) && NothingNamed(pool)
    ensures GoodPool(pool, map[], None)
  {
    forall i | 0 <= i < |pool| ensures NodeOk(pool, i) {
      assert Unnamed(pool[i]);
    }
    assert forall i :: 0 <= i < |pool| ==> Unnamed(pool[i]);
  }

  // ---------- growing the pool keeps all of it ----------

  lemma {:induction false} SubstableStable(pool: seq<Node>, bigger: seq<Node>, id: TypeId)
    requires pool <= bigger && Below(bigger) && Below(pool) && id < |pool|
    ensures Substable(pool, id) <==> Substable(bigger, id)
    decreases id
  {
    assert forall i :: 0 <= i < |pool| ==> pool[i] == bigger[i];
    forall j | 0 <= j < id ensures Substable(pool, j) <==> Substable(bigger, j) {
      SubstableStable(pool, bigger, j);
    }
  }

  /** A variant's enum is already in the pool, so it is the same enum in a bigger pool. */
  lemma FamilyStable(pool: seq<Node>, bigger: seq<Node>, id: TypeId)
    requires pool <= bigger && Placement(pool) && Placement(bigger) && id < |pool|
    ensures InstanceInfo(pool, id) == InstanceInfo(bigger, id)
    ensures pool[id].Enum? || pool[id].EnumVariant? ==>
      WholeEnum(pool, id) == WholeEnum(bigger, id) && pool[WholeEnum(pool, id)] == bigger[WholeEnum(pool, id)]
  {
    assert forall i :: 0 <= i < |pool| ==> pool[i] == bigger[i];
    assert PlacedAt(pool, id);
  }

  lemma {:induction false} VarFreeStable(pool: seq<Node>, bigger: seq<Node>, id: TypeId)
    requires pool <= bigger && Below(bigger) && Below(pool) && Placement(pool) && Placement(bigger) && id < |pool|
    ensures VarFree(pool, id) <==> VarFree(bigger, id)
    decreases id
  {
    assert pool[id] == bigger[id];
    FamilyStable(pool, bigger, id);
    forall j | 0 <= j < id ensures VarFree(pool, j) <==> VarFree(bigger, j) {
      VarFreeStable(pool, bigger, j);
    }
    InstanceInfoBelow(pool, id);
    if pool[id].Enum? || pool[id].EnumVariant? { FamilyBelow(pool, id); }
  }

  lemma KeysStable(pool: seq<Node>, bigger: seq<Node>, params: seq<GenericParam>)
    requires pool <= bigger && Below(bigger) && Below(pool) && Placement(pool) && ParamsOk(pool, params)
    ensures ParamsOk(bigger, params) && Keys(pool, params) == Keys(bigger, params)
  {
    forall k | 0 <= k < |params| ensures Keys(pool, params)[k] == Keys(bigger, params)[k] {
      DenStable(pool, bigger, params[k].typeId);
    }
  }

  lemma ValsStable(pool: seq<Node>, bigger: seq<Node>, args: seq<TypeId>)
    requires pool <= bigger && Below(bigger) && Below(pool) && Placement(pool)
    requires forall k :: 0 <= k < |args| ==> args[k] < |pool|
    ensures Vals(pool, args) == Vals(bigger, args)
  {
    forall k | 0 <= k < |args| ensures Vals(pool, args)[k] == Vals(bigger, args)[k] {
      DenStable(pool, bigger, args[k]);
    }
  }

  lemma NodeStable(pool: seq<Node>, bigger: seq<Node>, i: TypeId)
    requires pool <= bigger && Below(bigger) && Below(pool) && Placement(bigger) && Placement(pool)
    requires i < |pool| && NodeOk(pool, i)
    ensures NodeOk(bigger, i)
  {
    var n := pool[i];
    DenStable(pool, bigger, i);
    if n.Generic? {
      DenStable(pool, bigger, n.body);
      SubstableStable(pool, bigger, n.body);
      KeysStable(pool, bigger, n.params);
    }
    if InstanceOf(n).Some? {
      var g := pool[n.inst.value.parent];
      DenStable(pool, bigger, g.body);
      KeysStable(pool, bigger, g.params);
      ValsStable(pool, bigger, n.inst.value.args);
    }
    VarFreeStable(pool, bigger, i);
  }

  lemma ResultStable(pool: seq<Node>, bigger: seq<Node>, I: Instance, r: TypeId)
    requires pool <= bigger && Below(bigger) && Below(pool) && Placement(pool) && ResultOk(pool, I, r)
    ensures ResultOk(bigger, I, r)
  {
    var g := pool[I.parent];
    DenStable(pool, bigger, g.body);
    DenStable(pool, bigger, r);
    KeysStable(pool, bigger, g.params);
    ValsStable(pool, bigger, I.args);
  }

  /** Adding one entry keeps the whole invariant, provided the new entry is in order itself. */
  lemma GoodPoolGrows(pool: seq<Node>, n: Node, specs: map<Instance, TypeId>)
    requires GoodPool(pool, specs, None) && ValidPool(Appended(pool, n)) && Addable(n, |pool|)
    requires NodeOk(Appended(pool, n), |Appended(pool, n)| - 1)
    ensures GoodPool(Appended(pool, n), specs, InstanceOf(n))
  {
    AppendedEntries(pool, n);
    NodesGrow(pool, n);
    SpecsGrow(pool, Appended(pool, n), specs);
    RegisteredGrows(pool, n, specs);
  }

  lemma NodesGrow(pool: seq<Node>, n: Node)
    requires Below(pool) && Placement(pool) && NodesOk(pool) && Addable(n, |pool|)
    requires Below(Appended(pool, n)) && Placement(Appended(pool, n))
    requires NodeOk(Appended(pool, n), |Appended(pool, n)| - 1)
    ensures NodesOk(Appended(pool, n))
  {
    var bigger := Appended(pool, n);
    forall i | 0 <= i < |bigger| ensures NodeOk(bigger, i) {
      if i < |bigger| - 1 { OtherNodeOk(pool, n, i); }
    }
  }

  lemma OtherNodeOk(pool: seq<Node>, n: Node, i: TypeId)
    requires Below(pool) && Placement(pool) && NodesOk(pool) && Addable(n, |pool|)
    requires Below(Appended(pool, n)) && Placement(Appended(pool, n))
    requires i < |Appended(pool, n)| - 1
    ensures NodeOk(Appended(pool, n), i)
  {
    AppendedEntries(pool, n);
    if i < |pool| {
      NodeStable(pool, Appended(pool, n), i);
    } else {
      assert Appended(pool, n)[i].EnumVariant?;
    }
  }

  lemma SpecsGrow(pool: seq<Node>, bigger: seq<Node>, specs: map<Instance, TypeId>)
    requires pool <= bigger && Below(bigger) && Below(pool) && Placement(pool) && SpecsOk(pool, specs)
    ensures SpecsOk(bigger, specs)
  {
    forall I | I in specs ensures ResultOk(bigger, I, specs[I]) {
      ResultStable(pool, bigger, I, specs[I]);
    }
  }

  lemma RegisteredGrows(pool: seq<Node>, n: Node, specs: map<Instance, TypeId>)
    requires Registered(pool, specs, None) && Addable(n, |pool|)
    ensures Registered(Appended(pool, n), specs, InstanceOf(n))
  {
    var bigger := Appended(pool, n);
    AppendedEntries(pool, n);
    assert forall i :: 0 <= i < |pool| ==> bigger[i] == pool[i];
    assert InstanceOf(bigger[|bigger| - 1]) == InstanceOf(n);
  }
}
