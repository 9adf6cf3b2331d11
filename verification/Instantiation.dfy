/** Memoised instantiation of generic types. */
module Instantiation {
  import opened Wrappers
  import opened TypePool
  import opened GenericInvariants

  /** Memo entries added since `was` belong to generics below bound. */
  ghost predicate SpecsExtend(was: map<Instance, TypeId>, specs: map<Instance, TypeId>, bound: TypeId) {
    && (forall I :: I in was ==> I in specs && specs[I] == was[I])
    && forall I :: I in specs ==> I in was || I.parent < bound
  }

  /** The parameters and arguments of a substitution make sense in the pool. */
  ghost predicate Bound(pool: seq<Node>, params: seq<GenericParam>, passed: seq<TypeId>) {
    Below(pool) && ParamsOk(pool, params) && ArgsOk(pool, params, passed)
  }

  ghost function Subst(pool: seq<Node>, t: Tree, params: seq<GenericParam>, passed: seq<TypeId>): Tree
    requires Bound(pool, params, passed)
  {
    SubstTree(t, Keys(pool, params), Vals(pool, passed))
  }

  /** `to` denotes what `from` denotes, with the parameters replaced. */
  ghost predicate Substituted(pool: seq<Node>, from: TypeId, to: TypeId, params: seq<GenericParam>,
                              passed: seq<TypeId>) {
    && Bound(pool, params, passed) && from < |pool| && to < |pool|
    && Den(pool, to) == Subst(pool, Den(pool, from), params, passed)
  }

  lemma SubstitutedStable(pool: seq<Node>, bigger: seq<Node>, from: TypeId, to: TypeId,
                          params: seq<GenericParam>, passed: seq<TypeId>)
    requires pool <= bigger && Below(bigger) && Placement(pool) && Substituted(pool, from, to, params, passed)
    ensures Substituted(bigger, from, to, params, passed)
  {
    DenStable(pool, bigger, from);
    DenStable(pool, bigger, to);
    KeysStable(pool, bigger, params);
    ValsStable(pool, bigger, passed);
  }

  lemma BoundStable(pool: seq<Node>, bigger: seq<Node>, params: seq<GenericParam>, passed: seq<TypeId>)
    requires pool <= bigger && Below(bigger) && Placement(pool) && Bound(pool, params, passed)
    ensures Bound(bigger, params, passed)
  {
    KeysStable(pool, bigger, params);
  }

  ghost predicate IdsSubstituted(pool: seq<Node>, from: seq<TypeId>, to: seq<TypeId>,
                                 params: seq<GenericParam>, passed: seq<TypeId>)
  {
    |from| == |to| && forall k :: 0 <= k < |from| ==> Substituted(pool, from[k], to[k], params, passed)
  }

  ghost predicate FieldsSubstituted(pool: seq<Node>, from: seq<Field>, to: seq<Field>,
                                    params: seq<GenericParam>, passed: seq<TypeId>)
  {
    && |from| == |to|
    && forall k :: 0 <= k < |from| ==>
         to[k].name == from[k].name && Substituted(pool, from[k].typeId, to[k].typeId, params, passed)
  }

  ghost predicate VariantsSubstituted(pool: seq<Node>, from: seq<Variant>, to: seq<Variant>,
                                      params: seq<GenericParam>, passed: seq<TypeId>)
  {
    && |from| == |to|
    && forall k :: 0 <= k < |from| ==>
         && to[k] == from[k].(payload := to[k].payload)
         && to[k].payload.Some? == from[k].payload.Some?
         && (from[k].payload.Some? ==> Substituted(pool, from[k].payload.value, to[k].payload.value, params, passed))
  }

  ghost predicate SubstableAll(pool: seq<Node>, ids: seq<TypeId>, bound: TypeId)
    requires Below(pool) && bound <= |pool|
  {
    forall k :: 0 <= k < |ids| ==> ids[k] < bound && Substable(pool, ids[k])
  }

  ghost function FieldIds(fs: seq<Field>): (r: seq<TypeId>)
    ensures |r| == |fs| && forall k :: 0 <= k < |fs| ==> r[k] == fs[k].typeId
  {
    seq(|fs|, k requires 0 <= k < |fs| => fs[k].typeId)
  }

  // ---------- a rebuilt struct or enum denotes the substituted one ----------

  lemma StructShape(pool: seq<Node>, t: TypeId, to: seq<Field>, r: TypeId, params: seq<GenericParam>,
                    passed: seq<TypeId>)
    requires Below(pool) && t < |pool| && r < |pool| && pool[t].Struct? && pool[r].Struct?
    requires Bound(pool, params, passed) && FieldsSubstituted(pool, pool[t].fields, to, params, passed)
    requires |pool[r].fields| == |to|
      && forall k :: 0 <= k < |to| ==> pool[r].fields[k].name == to[k].name && pool[r].fields[k].typeId == to[k].typeId
    ensures Shape(pool, r) == Subst(pool, Shape(pool, t), params, passed)
  {
    var s, u := Shape(pool, r), Subst(pool, Shape(pool, t), params, passed);
    forall k | 0 <= k < |to| ensures s.fields[k] == u.fields[k] {
      assert Substituted(pool, pool[t].fields[k].typeId, to[k].typeId, params, passed);
    }
  }

  lemma EnumShape(pool: seq<Node>, t: TypeId, to: seq<Variant>, r: TypeId, params: seq<GenericParam>,
                  passed: seq<TypeId>)
    requires Below(pool) && t < |pool| && r < |pool| && pool[t].Enum? && pool[r].Enum?
    requires Bound(pool, params, passed) && VariantsSubstituted(pool, pool[t].variants, to, params, passed)
    requires |pool[r].variants| == |to|
      && forall k :: 0 <= k < |to| ==>
        pool[r].variants[k].name == to[k].name && pool[r].variants[k].payload == to[k].payload
    ensures Shape(pool, r) == Subst(pool, Shape(pool, t), params, passed)
  {
    var s, u := Shape(pool, r), Subst(pool, Shape(pool, t), params, passed);
    forall k | 0 <= k < |to| ensures s.variants[k] == u.variants[k] {
      if to[k].payload.Some? {
        assert Substituted(pool, pool[t].variants[k].payload.value, to[k].payload.value, params, passed);
      }
    }
  }

  /** A closed type is its own substitution, and injectivity makes the returned id the same id. */
  lemma ClosedKeepsId(pool: seq<Node>, from: TypeId, to: TypeId, params: seq<GenericParam>, passed: seq<TypeId>)
    requires ValidPool(pool) && Substituted(pool, from, to, params, passed) && Closed(Den(pool, from))
    ensures from == to
  {
    SubstClosed(Den(pool, from), Keys(pool, params), Vals(pool, passed));
    DenInjective(pool, from, to);
  }

  lemma NamedStructUnchanged(pool: seq<Node>, t: TypeId, to: seq<Field>, params: seq<GenericParam>, passed: seq<TypeId>)
    requires ValidPool(pool) && t < |pool| && pool[t].Struct? && Closed(Shape(pool, t))
    requires FieldsSubstituted(pool, pool[t].fields, to, params, passed)
    ensures to == pool[t].fields
  {
    forall k | 0 <= k < |to| ensures to[k] == pool[t].fields[k] {
      assert Closed(Shape(pool, t).fields[k].tree);
      ClosedKeepsId(pool, pool[t].fields[k].typeId, to[k].typeId, params, passed);
    }
  }

  lemma NamedEnumUnchanged(pool: seq<Node>, t: TypeId, to: seq<Variant>, params: seq<GenericParam>, passed: seq<TypeId>)
    requires ValidPool(pool) && t < |pool| && pool[t].Enum? && Closed(Shape(pool, t))
    requires VariantsSubstituted(pool, pool[t].variants, to, params, passed)
    ensures to == pool[t].variants
  {
    forall k | 0 <= k < |to| ensures to[k] == pool[t].variants[k] {
      if to[k].payload.Some? {
        assert Closed(Shape(pool, t).variants[k].payload.value);
        ClosedKeepsId(pool, pool[t].variants[k].payload.value, to[k].payload.value, params, passed);
      }
    }
  }

  /** Entry r has the name of generic g, under which its methods are looked up. */
  ghost predicate NamedAfter(pool: seq<Node>, g: TypeId, r: TypeId) {
    && g < |pool| && r < |pool| && pool[g].Generic? && InstanceOf(pool[r]).Some?
    && pool[r].inst.value.parent == g && pool[r].defn == Some(pool[g].genericDefn)
  }

  lemma {:induction false} InstancesNamed(pool: seq<Node>, specs: map<Instance, TypeId>, key: Instance, r: TypeId)
    requires GoodPool(pool, specs, None) && ResultOk(pool, key, r)
    ensures Bare(pool[pool[key.parent].body]) ==> NamedAfter(pool, key.parent, r)
  {
    assert NodeOk(pool, r);
  }

  // ---------- adding entries ----------

  ghost predicate SameFields(a: seq<Field>, b: seq<Field>) {
    |a| == |b| && forall k :: 0 <= k < |a| ==> a[k].name == b[k].name && a[k].typeId == b[k].typeId
  }

  ghost predicate SameVariants(a: seq<Variant>, b: seq<Variant>) {
    |a| == |b| && forall k :: 0 <= k < |a| ==> a[k].name == b[k].name && a[k].payload == b[k].payload
  }

  /** The entry at id is n, up to the ids an enum's variants get when pushed. */
  ghost predicate Represents(pool: seq<Node>, id: TypeId, n: Node) {
    && id < |pool|
    && match n
       case Reference(_) => pool[id] == n
       case Struct(fs, defn, inst) =>
         pool[id].Struct? && pool[id].defn == defn && pool[id].inst == inst && SameFields(pool[id].fields, fs)
       case Enum(vs, defn, inst) =>
         pool[id].Enum? && pool[id].defn == defn && pool[id].inst == inst && SameVariants(pool[id].variants, vs)
       case _ => false
  }

  lemma AppendedRepresents(pool: seq<Node>, n: Node)
    requires Addable(n, |pool|) && (n.Reference? || n.Struct? || n.Enum?)
    ensures Represents(Appended(pool, n), |Appended(pool, n)| - 1, n)
  {
    AppendedEntries(pool, n);
  }

  lemma InstanceIsNew(pool: seq<Node>, specs: map<Instance, TypeId>, key: Instance)
    requires GoodPool(pool, specs, None) && key !in specs
    ensures forall i :: 0 <= i < |pool| ==> InstanceOf(pool[i]) != Some(key)
  {
  }

  /** Recording the result of an instantiation completes the invariant. */
  lemma RegisterResult(pool: seq<Node>, specs: map<Instance, TypeId>, key: Instance, r: TypeId,
                       pending: Option<Instance>)
    requires GoodPool(pool, specs, pending) && key !in specs && ResultOk(pool, key, r)
    requires pending == None || (pending == Some(key) && InstanceOf(pool[r]) == pending)
    ensures GoodPool(pool, specs[key := r], None)
  {
    MemoStaysOk(pool, specs, key, r);
    NowRegistered(pool, specs, key, r, pending);
  }

  lemma NowRegistered(pool: seq<Node>, specs: map<Instance, TypeId>, key: Instance, r: TypeId,
                      pending: Option<Instance>)
    requires Registered(pool, specs, pending) && InstancesUnique(pool) && key !in specs && r < |pool|
    requires pending == None || (pending == Some(key) && InstanceOf(pool[r]) == pending)
    ensures Registered(pool, specs[key := r], None)
  {
    var more := specs[key := r];
    forall i | 0 <= i < |pool| && InstanceOf(pool[i]).Some?
      ensures pool[i].inst.value in more && more[pool[i].inst.value] == i
    {
      if InstanceOf(pool[i]) != Some(key) {
        assert pool[i].inst.value in specs && specs[pool[i].inst.value] == i;
      }
    }
  }

  lemma MemoStaysOk(pool: seq<Node>, specs: map<Instance, TypeId>, key: Instance, r: TypeId)
    requires Below(pool) && SpecsOk(pool, specs) && ResultOk(pool, key, r)
    ensures SpecsOk(pool, specs[key := r])
  {
    var more := specs[key := r];
    forall I | I in more ensures ResultOk(pool, I, more[I]) {
      if I != key { assert ResultOk(pool, I, specs[I]); }
    }
  }

  class GenericTypes {
    const pool: Types
    /** The specialisation tables of all generics, keyed by generic and arguments. */
    var specializations: map<Instance, TypeId>

    constructor (pool: Types)
      requires GoodPool(pool.types, map[], None)
      ensures this.pool == pool && specializations == map[] && Valid()
    {
      this.pool := pool;
      specializations := map[];
    }

    ghost predicate Valid()
      reads this, pool
    {
      GoodPool(pool.types, specializations, None)
    }

    /** One step of evaluating a type definition: adds its type variables, its parts, and what it defines. */
    method Define(n: Node) returns (id: TypeId)
      requires Valid() && Definable(pool.types, n)
      modifies pool
      ensures Valid() && old(pool.types) <= pool.types && id < |pool.types|
      ensures pool.types == old(pool.types) || (pool.types == Appended(old(pool.types), n) && id == |pool.types| - 1)
      ensures AddedAs(old(pool.types), pool.types, n, true, id)
    {
      ghost var was := pool.types;
      id := pool.AddType(n);
      if pool.types != was {
        DefinedIsOk(was, n);
        GoodPoolGrows(was, n, specializations);
      }
    }

    /** AddType for an anonymous type. */
    method AddAnonymous(n: Node) returns (id: TypeId)
      requires Valid() && Addable(n, |pool.types|)
      requires n.Reference? || (Bare(n) && n.defn.None?)
      modifies pool
      ensures Valid() && old(pool.types) <= pool.types
      ensures Represents(pool.types, id, n)
    {
      ghost var was := pool.types;
      AppendedRepresents(was, n);
      id := pool.AddType(n);
      if pool.types != was {
        AppendedEntries(was, n);
        AnonymousIsOk(pool.types, |pool.types| - 1);
        GoodPoolGrows(was, n, specializations);
      } else {
        assert InstanceOf(pool.types[id]).None?;
      }
    }

    /** AddType for the named entry of a new instance. */
    method AddInstance(n: Node, g: TypeId, args: seq<TypeId>) returns (id: TypeId)
      requires Valid() && Instance(g, args) !in specializations
      requires RebuiltBody(pool.types, n, g, args)
      modifies pool
      ensures old(pool.types) <= pool.types && GoodPool(pool.types, specializations, Some(Instance(g, args)))
      ensures ResultOk(pool.types, Instance(g, args), id)
    {
      ghost var was := pool.types;
      NewInstanceOk(was, n, g, args);
      InstanceIsNew(was, specializations, Instance(g, args));
      NamedNeverMerges(was, n);
      AppendedEntries(was, n);
      id := pool.AddType(n);
      assert pool.types == Appended(was, n) && InstanceOf(pool.types[id]) == Some(Instance(g, args));
      GoodPoolGrows(was, n, specializations);
      BoundStable(was, pool.types, was[g].params, args);
    }

    /** Instantiates generic g: memoised, so there is one result per generic and arguments. */
    method InstantiateGenericType(g: TypeId, args: seq<TypeId>) returns (r: TypeId)
      requires Valid() && g < |pool.types| && pool.types[g].Generic?
      requires ArgsOk(pool.types, pool.types[g].params, args)
      modifies this, pool
      ensures Valid() && old(pool.types) <= pool.types
      ensures SpecsExtend(old(specializations), specializations, g + 1)
      ensures ResultOk(pool.types, Instance(g, args), r)
      ensures Bare(pool.types[pool.types[g].body]) ==> NamedAfter(pool.types, g, r)
      decreases g, 4
    {
      var key := Instance(g, args);
      if key in specializations {
        InstancesNamed(pool.types, specializations, key, specializations[key]);
        return specializations[key];
      }
      r := InstantiateRoot(g, args);
      RegisterResult(pool.types, specializations, key, r,
        if Bare(pool.types[pool.types[g].body]) then Some(key) else None);
      specializations := specializations[key := r];
      InstancesNamed(pool.types, specializations, key, r);
    }

    /** The root of an instantiation: a struct or enum body always becomes a new, named entry. */
    method InstantiateRoot(g: TypeId, args: seq<TypeId>) returns (r: TypeId)
      requires Valid() && g < |pool.types| && pool.types[g].Generic? && Instance(g, args) !in specializations
      requires ArgsOk(pool.types, pool.types[g].params, args)
      modifies this, pool
      ensures old(pool.types) <= pool.types && SpecsExtend(old(specializations), specializations, g)
      ensures GoodPool(pool.types, specializations,
        if Bare(pool.types[pool.types[g].body]) then Some(Instance(g, args)) else None)
      ensures ResultOk(pool.types, Instance(g, args), r)
      decreases g, 3
    {
      var gen, key := pool.types[g], Instance(g, args);
      var body := pool.types[gen.body];
      assert GenericOk(pool.types, g) by { assert NodeOk(pool.types, g); }
      assert ChildrenBelow(gen, g) && ChildrenBelow(body, gen.body);
      if !Bare(body) {
        r := InstantiateSubst(gen.body, args, gen.params);
      } else {
        var n;
        match body {
          case Struct(fields, _, _) =>
            var newFields, _ := SubstFields(fields, gen.body, args, gen.params);
            n := Struct(newFields, Some(gen.genericDefn), Some(key));
          case Enum(variants, _, _) =>
            var newVariants, _ := SubstVariants(variants, gen.body, args, gen.params);
            n := Enum(newVariants, Some(gen.genericDefn), Some(key));
        }
        r := AddInstance(n, g, args);
      }
    }

    /** Replaces the parameters in type t; an unchanged type keeps its id. */
    method InstantiateSubst(t: TypeId, passed: seq<TypeId>, params: seq<GenericParam>) returns (r: TypeId)
      requires Valid() && t < |pool.types| && Substable(pool.types, t) && Bound(pool.types, params, passed)
      modifies this, pool
      ensures Valid() && old(pool.types) <= pool.types && SpecsExtend(old(specializations), specializations, t)
      ensures Substituted(pool.types, t, r, params, passed)
      decreases t, 2
    {
      var n := pool.types[t];
      assert NodeOk(pool.types, t) && ChildrenBelow(n, t);
      if InstanceOf(n).Some? {
        r := SubstInstance(t, passed, params);
        return;
      }
      match n {
        case TypeVariable(_, _) =>
          r := SubstVariable(t, passed, params);
        case Struct(_, _, _) =>
          r := SubstStruct(t, passed, params);
        case Reference(inner) =>
          var newInner := InstantiateSubst(inner, passed, params);
          r := Rebuild(t, Reference(newInner), newInner != inner, passed, params);
        case Enum(_, _, _) =>
          r := SubstEnum(t, passed, params);
        case _ =>
          r := t;
      }
    }

    /** Keeps the id of an unchanged type, otherwise adds the rebuilt one. */
    method Rebuild(t: TypeId, n: Node, anyChange: bool, passed: seq<TypeId>, params: seq<GenericParam>)
      returns (r: TypeId)
      requires Valid() && RebuiltType(pool.types, t, n, params, passed)
      requires anyChange <==> n != pool.types[t]
      modifies pool
      ensures Valid() && old(pool.types) <= pool.types && Substituted(pool.types, t, r, params, passed)
    {
      ghost var was := pool.types;
      assert NodeOk(was, t);
      RebuiltNamedIsSame(was, t, n, params, passed);
      RebuiltAddable(was, t, n, params, passed);
      if anyChange {
        r := AddAnonymous(n);
        RebuiltStable(was, pool.types, t, n, params, passed);
      } else {
        r := t;
      }
      RebuiltDenotes(pool.types, t, n, r, params, passed);
    }

    method SubstStruct(t: TypeId, passed: seq<TypeId>, params: seq<GenericParam>) returns (r: TypeId)
      requires Valid() && t < |pool.types| && Bare(pool.types[t]) && pool.types[t].Struct?
      requires Substable(pool.types, t) && Bound(pool.types, params, passed)
      modifies this, pool
      ensures Valid() && old(pool.types) <= pool.types && SpecsExtend(old(specializations), specializations, t)
      ensures Substituted(pool.types, t, r, params, passed)
      decreases t, 1
    {
      var n := pool.types[t];
      assert ChildrenBelow(n, t);
      var newFields, anyChange := SubstFields(n.fields, t, passed, params);
      r := Rebuild(t, n.(fields := newFields), anyChange, passed, params);
    }

    method SubstEnum(t: TypeId, passed: seq<TypeId>, params: seq<GenericParam>) returns (r: TypeId)
      requires Valid() && t < |pool.types| && Bare(pool.types[t]) && pool.types[t].Enum?
      requires Substable(pool.types, t) && Bound(pool.types, params, passed)
      modifies this, pool
      ensures Valid() && old(pool.types) <= pool.types && SpecsExtend(old(specializations), specializations, t)
      ensures Substituted(pool.types, t, r, params, passed)
      decreases t, 1
    {
      var n := pool.types[t];
      assert ChildrenBelow(n, t);
      var newVariants, anyChange := SubstVariants(n.variants, t, passed, params);
      r := Rebuild(t, n.(variants := newVariants), anyChange, passed, params);
    }

    method SubstVariable(t: TypeId, passed: seq<TypeId>, params: seq<GenericParam>) returns (r: TypeId)
      requires Valid() && t < |pool.types| && pool.types[t].TypeVariable? && Bound(pool.types, params, passed)
      ensures Substituted(pool.types, t, r, params, passed)
    {
      var k := 0;
      while k < |params| && params[k].typeId != t
        invariant k <= |params| && forall j :: 0 <= j < k ==> params[j].typeId != t
      {
        k := k + 1;
      }
      VariableLookup(pool.types, t, k, params, passed);
      r := if k < |params| then passed[k] else t;
    }

    /** A type that is an instance is instantiated again on the substituted arguments. */
    method SubstInstance(t: TypeId, passed: seq<TypeId>, params: seq<GenericParam>) returns (r: TypeId)
      requires Valid() && t < |pool.types| && InstanceOf(pool.types[t]).Some?
      requires Substable(pool.types, t) && Bound(pool.types, params, passed)
      modifies this, pool
      ensures Valid() && old(pool.types) <= pool.types && SpecsExtend(old(specializations), specializations, t)
      ensures Substituted(pool.types, t, r, params, passed)
      decreases t, 1
    {
      var inst := pool.types[t].inst.value;
      InstanceFacts(pool.types, specializations, t);
      var newArgs := SubstArgs(inst.args, t, passed, params);
      r := Reinstantiate(t, newArgs, passed, params);
    }

    method Reinstantiate(t: TypeId, newArgs: seq<TypeId>, ghost passed: seq<TypeId>, ghost params: seq<GenericParam>)
      returns (r: TypeId)
      requires Valid() && t < |pool.types| && InstanceOf(pool.types[t]).Some? && Bound(pool.types, params, passed)
      requires IdsSubstituted(pool.types, pool.types[t].inst.value.args, newArgs, params, passed)
      modifies this, pool
      ensures Valid() && old(pool.types) <= pool.types && SpecsExtend(old(specializations), specializations, t)
      ensures Substituted(pool.types, t, r, params, passed)
      decreases t, 0
    {
      ghost var was := pool.types;
      InstanceFacts(was, specializations, t);
      r := InstantiateGenericType(pool.types[t].inst.value.parent, newArgs);
      InstanceSubstituted(was, pool.types, specializations, t, r, newArgs, params, passed);
    }

    method SubstArgs(ids: seq<TypeId>, bound: TypeId, passed: seq<TypeId>, params: seq<GenericParam>)
      returns (newIds: seq<TypeId>)
      requires Valid() && bound <= |pool.types| && SubstableAll(pool.types, ids, bound)
      requires Bound(pool.types, params, passed)
      modifies this, pool
      ensures Valid() && old(pool.types) <= pool.types && SpecsExtend(old(specializations), specializations, bound)
      ensures Bound(pool.types, params, passed) && IdsSubstituted(pool.types, ids, newIds, params, passed)
      decreases bound, 0
    {
      newIds := [];
      ghost var start := pool.types;
      for k := 0 to |ids|
        invariant Valid() && start <= pool.types && SpecsExtend(old(specializations), specializations, bound)
        invariant Bound(pool.types, params, passed)
        invariant IdsSubstituted(pool.types, ids[..k], newIds, params, passed)
      {
        ghost var was := pool.types;
        SubstableStable(start, was, ids[k]);
        var newId := InstantiateSubst(ids[k], passed, params);
        IdsStep(was, pool.types, ids, k, newIds, newId, params, passed);
        newIds := newIds + [newId];
      }
      assert ids[..|ids|] == ids;
    }

    method SubstFields(fields: seq<Field>, bound: TypeId, passed: seq<TypeId>, params: seq<GenericParam>)
      returns (newFields: seq<Field>, anyChange: bool)
      requires Valid() && bound <= |pool.types| && SubstableAll(pool.types, FieldIds(fields), bound)
      requires Bound(pool.types, params, passed)
      modifies this, pool
      ensures Valid() && old(pool.types) <= pool.types && SpecsExtend(old(specializations), specializations, bound)
      ensures Bound(pool.types, params, passed) && FieldsSubstituted(pool.types, fields, newFields, params, passed)
      ensures anyChange <==> newFields != fields
      decreases bound, 0
    {
      newFields, anyChange := [], false;
      ghost var start := pool.types;
      for k := 0 to |fields|
        invariant Valid() && start <= pool.types && SpecsExtend(old(specializations), specializations, bound)
        invariant Bound(pool.types, params, passed)
        invariant FieldsSubstituted(pool.types, fields[..k], newFields, params, passed)
        invariant anyChange <==> newFields != fields[..k]
      {
        ghost var was := pool.types;
        assert FieldIds(fields)[k] == fields[k].typeId;
        SubstableStable(start, was, fields[k].typeId);
        var newId := InstantiateSubst(fields[k].typeId, passed, params);
        FieldsStep(was, pool.types, fields, k, newFields, newId, params, passed);
        if newId != fields[k].typeId {
          anyChange := true;
        }
        newFields := newFields + [fields[k].(typeId := newId)];
      }
      assert fields[..|fields|] == fields;
    }

    method SubstVariants(variants: seq<Variant>, bound: TypeId, passed: seq<TypeId>, params: seq<GenericParam>)
      returns (newVariants: seq<Variant>, anyChange: bool)
      requires Valid() && bound <= |pool.types| && SubstablePayloads(pool.types, variants, bound)
      requires Bound(pool.types, params, passed)
      modifies this, pool
      ensures Valid() && old(pool.types) <= pool.types && SpecsExtend(old(specializations), specializations, bound)
      ensures Bound(pool.types, params, passed)
      ensures VariantsSubstituted(pool.types, variants, newVariants, params, passed)
      ensures anyChange <==> newVariants != variants
      decreases bound, 0
    {
      newVariants, anyChange := [], false;
      ghost var start := pool.types;
      for k := 0 to |variants|
        invariant Valid() && start <= pool.types && SpecsExtend(old(specializations), specializations, bound)
        invariant Bound(pool.types, params, passed)
        invariant VariantsSubstituted(pool.types, variants[..k], newVariants, params, passed)
        invariant anyChange <==> newVariants != variants[..k]
      {
        ghost var was := pool.types;
        var v := variants[k];
        if v.payload.Some? {
          SubstableStable(start, was, v.payload.value);
          var newPayload := InstantiateSubst(v.payload.value, passed, params);
          if Some(newPayload) != v.payload {
            anyChange := true;
            v := v.(payload := Some(newPayload));
          }
        }
        VariantsStep(was, pool.types, variants, k, newVariants, v, params, passed);
        newVariants := newVariants + [v];
      }
      assert variants[..|variants|] == variants;
    }
  }

  // ---------- lemmas about single steps ----------

  /** n is the entry at t with substituted children. */
  ghost predicate RebuiltType(pool: seq<Node>, t: TypeId, n: Node, params: seq<GenericParam>, passed: seq<TypeId>) {
    && Bound(pool, params, passed) && t < |pool|
    && match pool[t]
       case Reference(inner) => n.Reference? && Substituted(pool, inner, n.inner, params, passed)
       case Struct(fs, defn, inst) =>
         && n.Struct? && n == pool[t].(fields := n.fields) && inst.None?
         && FieldsSubstituted(pool, fs, n.fields, params, passed)
       case Enum(vs, defn, inst) =>
         && n.Enum? && n == pool[t].(variants := n.variants) && inst.None?
         && VariantsSubstituted(pool, vs, n.variants, params, passed)
       case _ => false
  }

  lemma RebuiltNamedIsSame(pool: seq<Node>, t: TypeId, n: Node, params: seq<GenericParam>, passed: seq<TypeId>)
    requires ValidPool(pool) && RebuiltType(pool, t, n, params, passed) && NodeOk(pool, t)
    ensures Bare(n) && n.defn.Some? ==> n == pool[t]
  {
    if Bare(n) && n.defn.Some? { VarFreeMeaningClosed(pool, t); }
    if n.Struct? && n.defn.Some? { NamedStructUnchanged(pool, t, n.fields, params, passed); }
    if n.Enum? && n.defn.Some? { NamedEnumUnchanged(pool, t, n.variants, params, passed); }
  }

  lemma RebuiltAddable(pool: seq<Node>, t: TypeId, n: Node, params: seq<GenericParam>, passed: seq<TypeId>)
    requires ValidPool(pool) && RebuiltType(pool, t, n, params, passed)
    ensures Addable(n, |pool|)
  {
    assert PlacedAt(pool, t);
  }

  lemma RebuiltStable(pool: seq<Node>, bigger: seq<Node>, t: TypeId, n: Node, params: seq<GenericParam>,
                      passed: seq<TypeId>)
    requires pool <= bigger && Below(bigger) && Placement(pool) && RebuiltType(pool, t, n, params, passed)
    ensures RebuiltType(bigger, t, n, params, passed)
  {
    BoundStable(pool, bigger, params, passed);
    match pool[t] {
      case Reference(inner) => SubstitutedStable(pool, bigger, inner, n.inner, params, passed);
      case Struct(fs, _, _) => FieldsStable(pool, bigger, fs, n.fields, params, passed);
      case Enum(vs, _, _) => VariantsStable(pool, bigger, vs, n.variants, params, passed);
    }
  }

  lemma RebuiltDenotes(pool: seq<Node>, t: TypeId, n: Node, r: TypeId, params: seq<GenericParam>, passed: seq<TypeId>)
    requires RebuiltType(pool, t, n, params, passed)
    requires (r == t && n == pool[t]) || (Represents(pool, r, n) && (Bare(n) ==> n.defn.None?))
    ensures Substituted(pool, t, r, params, passed)
  {
    match pool[t] {
      case Struct(_, _, _) => StructShape(pool, t, n.fields, r, params, passed);
      case Enum(_, _, _) => EnumShape(pool, t, n.variants, r, params, passed);
      case _ =>
    }
  }

  ghost predicate SubstablePayloads(pool: seq<Node>, vs: seq<Variant>, bound: TypeId)
    requires Below(pool) && bound <= |pool|
  {
    forall k :: 0 <= k < |vs| && vs[k].payload.Some? ==>
      vs[k].payload.value < bound && Substable(pool, vs[k].payload.value)
  }

  lemma AnonymousIsOk(pool: seq<Node>, i: TypeId)
    requires Below(pool) && Placement(pool) && i < |pool|
    requires pool[i].Reference? || (Bare(pool[i]) && pool[i].defn.None?)
    ensures NodeOk(pool, i)
  {
  }

  /** A definition's own type variables, its anonymous parts, a named type or alias written where no type variable
      is in scope, or a generic whose body mentions no variable but its parameters. */
  ghost predicate Definable(pool: seq<Node>, n: Node)
    requires Below(pool) && Placement(pool)
  {
    && Addable(n, |pool|)
    && match n
       case Struct(fs, defn, inst) =>
         inst.None? && (defn.Some? ==> forall k :: 0 <= k < |fs| ==> VarFree(pool, fs[k].typeId))
       case Enum(vs, defn, inst) =>
         inst.None? && (defn.Some? ==> forall k :: 0 <= k < |vs| ==> vs[k].payload.Some? ==>
           VarFree(pool, vs[k].payload.value))
       case OpaqueAlias(aliasee, _) => VarFree(pool, aliasee)
       case Generic(params, body, _) =>
         ParamsOk(pool, params) && Substable(pool, body) && VarsWithin(Den(pool, body), Keys(pool, params))
       case _ => true
  }

  lemma DefinedIsOk(pool: seq<Node>, n: Node)
    requires ValidPool(pool) && Definable(pool, n) && ValidPool(Appended(pool, n))
    ensures NodeOk(Appended(pool, n), |Appended(pool, n)| - 1)
  {
    var bigger := Appended(pool, n);
    var i := |bigger| - 1;
    AppendedEntries(pool, n);
    assert forall j :: 0 <= j < |pool| ==> bigger[j] == pool[j];
    match n {
      case Struct(fs, defn, _) =>
        if defn.Some? {
          forall k | 0 <= k < |fs| ensures VarFree(bigger, fs[k].typeId) { VarFreeStable(pool, bigger, fs[k].typeId); }
        }
      case Enum(vs, defn, _) => if defn.Some? { DefinedEnumIsFree(pool, n); }
      case OpaqueAlias(aliasee, _) => VarFreeStable(pool, bigger, aliasee);
      case Generic(params, body, _) =>
        DenStable(pool, bigger, body);
        SubstableStable(pool, bigger, body);
        KeysStable(pool, bigger, params);
      case _ =>
    }
  }

  lemma DefinedEnumIsFree(pool: seq<Node>, n: Node)
    requires ValidPool(pool) && n.Enum? && n.inst.None? && Addable(n, |pool|) && ValidPool(Appended(pool, n))
    requires forall k :: 0 <= k < |n.variants| ==> n.variants[k].payload.Some? ==>
      VarFree(pool, n.variants[k].payload.value)
    ensures VarFree(Appended(pool, n), |Appended(pool, n)| - 1)
  {
    var bigger := Appended(pool, n);
    AppendedEntries(pool, n);
    var vs := bigger[|bigger| - 1].variants;
    forall k | 0 <= k < |vs| && vs[k].payload.Some? ensures VarFree(bigger, vs[k].payload.value) {
      assert vs[k].payload == n.variants[k].payload;
      VarFreeStable(pool, bigger, vs[k].payload.value);
    }
  }

  lemma NamedNeverMerges(pool: seq<Node>, n: Node)
    requires (n.Struct? || n.Enum?) && n.defn.Some?
    ensures forall i :: 0 <= i < |pool| ==> !TypeEq(pool[i], n)
  {
  }

  lemma IdsStable(pool: seq<Node>, bigger: seq<Node>, from: seq<TypeId>, to: seq<TypeId>,
                  params: seq<GenericParam>, passed: seq<TypeId>)
    requires pool <= bigger && Below(bigger) && Placement(pool) && IdsSubstituted(pool, from, to, params, passed)
    ensures IdsSubstituted(bigger, from, to, params, passed)
  {
    forall k | 0 <= k < |from| ensures Substituted(bigger, from[k], to[k], params, passed) {
      SubstitutedStable(pool, bigger, from[k], to[k], params, passed);
    }
  }

  lemma FieldsStable(pool: seq<Node>, bigger: seq<Node>, from: seq<Field>, to: seq<Field>,
                     params: seq<GenericParam>, passed: seq<TypeId>)
    requires pool <= bigger && Below(bigger) && Placement(pool) && FieldsSubstituted(pool, from, to, params, passed)
    ensures FieldsSubstituted(bigger, from, to, params, passed)
  {
    forall k | 0 <= k < |from| ensures Substituted(bigger, from[k].typeId, to[k].typeId, params, passed) {
      SubstitutedStable(pool, bigger, from[k].typeId, to[k].typeId, params, passed);
    }
  }

  lemma VariantsStable(pool: seq<Node>, bigger: seq<Node>, from: seq<Variant>, to: seq<Variant>,
                       params: seq<GenericParam>, passed: seq<TypeId>)
    requires pool <= bigger && Below(bigger) && Placement(pool) && VariantsSubstituted(pool, from, to, params, passed)
    ensures VariantsSubstituted(bigger, from, to, params, passed)
  {
    forall k | 0 <= k < |from| && from[k].payload.Some?
      ensures Substituted(bigger, from[k].payload.value, to[k].payload.value, params, passed)
    {
      SubstitutedStable(pool, bigger, from[k].payload.value, to[k].payload.value, params, passed);
    }
  }

  lemma IdsStep(was: seq<Node>, pool: seq<Node>, ids: seq<TypeId>, k: nat, newIds: seq<TypeId>, newId: TypeId,
                params: seq<GenericParam>, passed: seq<TypeId>)
    requires was <= pool && Below(pool) && Placement(was) && k < |ids|
      && IdsSubstituted(was, ids[..k], newIds, params, passed)
    requires Substituted(pool, ids[k], newId, params, passed)
    ensures IdsSubstituted(pool, ids[..k + 1], newIds + [newId], params, passed)
  {
    IdsStable(was, pool, ids[..k], newIds, params, passed);
    assert ids[..k + 1] == ids[..k] + [ids[k]];
  }

  lemma FieldsStep(was: seq<Node>, pool: seq<Node>, fields: seq<Field>, k: nat, newFields: seq<Field>, newId: TypeId,
                   params: seq<GenericParam>, passed: seq<TypeId>)
    requires was <= pool && Below(pool) && Placement(was) && k < |fields|
    requires FieldsSubstituted(was, fields[..k], newFields, params, passed)
    requires Substituted(pool, fields[k].typeId, newId, params, passed)
    ensures FieldsSubstituted(pool, fields[..k + 1], newFields + [fields[k].(typeId := newId)], params, passed)
    ensures newFields + [fields[k].(typeId := newId)] == fields[..k + 1] <==>
      newFields == fields[..k] && newId == fields[k].typeId
  {
    FieldsStable(was, pool, fields[..k], newFields, params, passed);
    assert fields[..k + 1] == fields[..k] + [fields[k]];
    var longer := newFields + [fields[k].(typeId := newId)];
    assert longer[..k] == newFields && longer[k].typeId == newId;
    assert fields[..k + 1][..k] == fields[..k] && fields[..k + 1][k] == fields[k];
  }

  lemma VariantsStep(was: seq<Node>, pool: seq<Node>, variants: seq<Variant>, k: nat, newVariants: seq<Variant>,
                     v: Variant,
                     params: seq<GenericParam>, passed: seq<TypeId>)
    requires was <= pool && Below(pool) && Placement(was) && k < |variants|
    requires VariantsSubstituted(was, variants[..k], newVariants, params, passed)
    requires VariantsSubstituted(pool, [variants[k]], [v], params, passed)
    ensures VariantsSubstituted(pool, variants[..k + 1], newVariants + [v], params, passed)
    ensures newVariants + [v] == variants[..k + 1] <==> newVariants == variants[..k] && v == variants[k]
  {
    VariantsStable(was, pool, variants[..k], newVariants, params, passed);
    assert variants[..k + 1] == variants[..k] + [variants[k]];
    var longer := newVariants + [v];
    assert longer[..k] == newVariants && longer[k] == v;
    assert variants[..k + 1][..k] == variants[..k] && variants[..k + 1][k] == variants[k];
    forall j | 0 <= j < k + 1
      ensures longer[j] == variants[j].(payload := longer[j].payload)
      ensures longer[j].payload.Some? == variants[j].payload.Some?
      ensures variants[j].payload.Some? ==>
        Substituted(pool, variants[j].payload.value, longer[j].payload.value, params, passed)
    {
      if j < k {
        assert newVariants[j] == longer[j] && variants[..k][j] == variants[j];
      } else {
        assert [variants[k]][0] == variants[k] && [v][0] == v;
      }
    }
  }

  lemma InstanceFacts(pool: seq<Node>, specs: map<Instance, TypeId>, t: TypeId)
    requires GoodPool(pool, specs, None) && t < |pool| && InstanceOf(pool[t]).Some?
    ensures InstanceOk(pool, t) && InstanceBelow(pool[t].inst, t)
    ensures Substable(pool, t) ==> SubstableAll(pool, pool[t].inst.value.args, t)
  {
    assert NodeOk(pool, t) && ChildrenBelow(pool[t], t);
  }

  /** Distinct variables have distinct ids, so finding the parameter by id is finding it by meaning. */
  lemma {:induction false} VariableLookup(pool: seq<Node>, t: TypeId, k: nat, params: seq<GenericParam>,
                                          passed: seq<TypeId>)
    requires ValidPool(pool) && t < |pool| && pool[t].TypeVariable? && Bound(pool, params, passed)
    requires k <= |params| && (forall j :: 0 <= j < k ==> params[j].typeId != t)
      && (k < |params| ==> params[k].typeId == t)
    ensures Substituted(pool, t, if k < |params| then passed[k] else t, params, passed)
    decreases k
  {
    LookupAt(pool, t, 0, k, params, passed);
    assert Keys(pool, params)[0..] == Keys(pool, params) && Vals(pool, passed)[0..] == Vals(pool, passed);
  }

  lemma {:induction false} LookupAt(pool: seq<Node>, t: TypeId, from: nat, k: nat, params: seq<GenericParam>,
                                    passed: seq<TypeId>)
    requires ValidPool(pool) && t < |pool| && pool[t].TypeVariable? && Bound(pool, params, passed)
    requires from <= k <= |params|
    requires (forall j :: from <= j < k ==> params[j].typeId != t) && (k < |params| ==> params[k].typeId == t)
    ensures Lookup(Den(pool, t), Keys(pool, params)[from..], Vals(pool, passed)[from..]) ==
      if k < |params| then Den(pool, passed[k]) else Den(pool, t)
    decreases k - from
  {
    var keys, vals := Keys(pool, params), Vals(pool, passed);
    if from < k {
      DenInjective(pool, params[from].typeId, t);
      LookupAt(pool, t, from + 1, k, params, passed);
      assert keys[from..][1..] == keys[from + 1..] && vals[from..][1..] == vals[from + 1..];
    }
  }

  /** n is generic g's struct or enum body rebuilt for args, named as an instance. */
  ghost predicate RebuiltBody(pool: seq<Node>, n: Node, g: TypeId, args: seq<TypeId>) {
    && Below(pool) && g < |pool| && pool[g].Generic? && Bound(pool, pool[g].params, args)
    && var body := pool[pool[g].body];
    && Bare(body) && InstanceOf(n) == Some(Instance(g, args)) && n.defn == Some(pool[g].genericDefn)
    && body.Struct? == n.Struct?
    && (n.Struct? ==> FieldsSubstituted(pool, body.fields, n.fields, pool[g].params, args))
    && (n.Enum? ==> VariantsSubstituted(pool, body.variants, n.variants, pool[g].params, args))
  }

  /** The entry about to be pushed for a new instance satisfies the instance invariant. */
  lemma NewInstanceOk(pool: seq<Node>, n: Node, g: TypeId, args: seq<TypeId>)
    requires ValidPool(pool) && RebuiltBody(pool, n, g, args)
    ensures Addable(n, |pool|) && Below(Appended(pool, n))
    ensures InstanceOk(Appended(pool, n), |Appended(pool, n)| - 1)
  {
    var params, body := pool[g].params, pool[g].body;
    assert PlacedAt(pool, body);
    AppendedBelow(pool, n);
    AppendedEntries(pool, n);
    var bigger := Appended(pool, n);
    BoundStable(pool, bigger, params, args);
    if n.Struct? {
      FieldsStable(pool, bigger, pool[body].fields, n.fields, params, args);
      StructShape(bigger, body, n.fields, |bigger| - 1, params, args);
    } else {
      VariantsStable(pool, bigger, pool[body].variants, n.variants, params, args);
      EnumShape(bigger, body, n.variants, |bigger| - 1, params, args);
    }
  }

  /** Re-instantiating on substituted arguments denotes the substituted application. */
  lemma InstanceSubstituted(was: seq<Node>, pool: seq<Node>, specs: map<Instance, TypeId>, t: TypeId, r: TypeId,
                            newArgs: seq<TypeId>, params: seq<GenericParam>, passed: seq<TypeId>)
    requires was <= pool && t < |was| && Placement(was) && GoodPool(pool, specs, None) && InstanceOf(pool[t]).Some?
    requires Bound(was, params, passed) && IdsSubstituted(was, pool[t].inst.value.args, newArgs, params, passed)
    requires ResultOk(pool, Instance(pool[t].inst.value.parent, newArgs), r)
    ensures Substituted(pool, t, r, params, passed)
  {
    InstanceFacts(pool, specs, t);
    BoundStable(was, pool, params, passed);
    IdsStable(was, pool, pool[t].inst.value.args, newArgs, params, passed);
    ApplicationSubstituted(pool, t, r, newArgs, params, passed);
  }

  lemma ApplicationSubstituted(pool: seq<Node>, t: TypeId, r: TypeId, newArgs: seq<TypeId>,
                               params: seq<GenericParam>, passed: seq<TypeId>)
    requires Bound(pool, params, passed) && t < |pool| && r < |pool| && InstanceOf(pool[t]).Some?
    requires IdsSubstituted(pool, pool[t].inst.value.args, newArgs, params, passed)
    requires InstanceOf(pool[r]) == Some(Instance(pool[t].inst.value.parent, newArgs))
    ensures Substituted(pool, t, r, params, passed)
  {
    var args := pool[t].inst.value.args;
    var a, b := Den(pool, r), Subst(pool, Den(pool, t), params, passed);
    forall k | 0 <= k < |args| ensures a.args[k] == b.args[k] {
      assert Substituted(pool, args[k], newArgs[k], params, passed);
    }
    assert a.args == b.args;
  }
}
