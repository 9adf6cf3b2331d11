/** Instantiation is substitution in fully expanded types, and the shallow type-variable test is sound. */
module TypeExpansion {
  import opened Wrappers
  import opened TypePool
  import opened GenericInvariants
  import opened Instantiation

  // ---------- substitution laws ----------

  lemma {:induction false} LookupVars(v: Tree, keys: seq<Tree>, vals: seq<Tree>, within: seq<Tree>)
    requires |keys| <= |vals| && v in keys && forall k :: 0 <= k < |vals| ==> VarsWithin(vals[k], within)
    ensures VarsWithin(Lookup(v, keys, vals), within)
    decreases |keys|
  {
    if keys[0] != v { LookupVars(v, keys[1..], vals[1..], within); }
  }

  /** Substituting trees over `within` for all variables leaves a tree over `within`. */
  lemma {:induction false} SubstVars(t: Tree, keys: seq<Tree>, vals: seq<Tree>, within: seq<Tree>)
    requires |keys| <= |vals| && VarsWithin(t, keys) && forall k :: 0 <= k < |vals| ==> VarsWithin(vals[k], within)
    ensures VarsWithin(SubstTree(t, keys, vals), within)
    decreases t
  {
    match t {
      case TVar(_, _) => LookupVars(t, keys, vals, within);
      case TRef(inner) => SubstVars(inner, keys, vals, within);
      case TStruct(fs) =>
        forall k | 0 <= k < |fs| ensures VarsWithin(SubstTree(fs[k].tree, keys, vals), within) {
          SubstVars(fs[k].tree, keys, vals, within);
        }
      case TEnum(vs) =>
        forall k | 0 <= k < |vs| && vs[k].payload.Some?
          ensures VarsWithin(SubstTree(vs[k].payload.value, keys, vals), within)
        {
          SubstVars(vs[k].payload.value, keys, vals, within);
        }
      case TApp(_, args) =>
        forall k | 0 <= k < |args| ensures VarsWithin(SubstTree(args[k], keys, vals), within) {
          SubstVars(args[k], keys, vals, within);
        }
      case TVariant(whole, _) => SubstVars(whole, keys, vals, within);
      case _ =>
    }
  }

  ghost function SubstAll(ts: seq<Tree>, keys: seq<Tree>, vals: seq<Tree>): (r: seq<Tree>)
    requires |keys| <= |vals|
    ensures |r| == |ts| && forall k :: 0 <= k < |ts| ==> r[k] == SubstTree(ts[k], keys, vals)
  {
    seq(|ts|, k requires 0 <= k < |ts| => SubstTree(ts[k], keys, vals))
  }

  lemma {:induction false} LookupCompose(v: Tree, ks: seq<Tree>, xs: seq<Tree>, keys: seq<Tree>, vals: seq<Tree>)
    requires |ks| <= |xs| && |keys| <= |vals| && v in ks
    ensures SubstTree(Lookup(v, ks, xs), keys, vals) == Lookup(v, ks, SubstAll(xs, keys, vals))
    decreases |ks|
  {
    if ks[0] != v {
      LookupCompose(v, ks[1..], xs[1..], keys, vals);
      assert SubstAll(xs, keys, vals)[1..] == SubstAll(xs[1..], keys, vals);
    }
  }

  /** Two substitutions in a row are one, when the first replaces every variable. */
  lemma {:induction false} SubstCompose(t: Tree, ks: seq<Tree>, xs: seq<Tree>, keys: seq<Tree>, vals: seq<Tree>)
    requires |ks| <= |xs| && |keys| <= |vals| && VarsWithin(t, ks)
    ensures SubstTree(SubstTree(t, ks, xs), keys, vals) == SubstTree(t, ks, SubstAll(xs, keys, vals))
    decreases t
  {
    var a, b := SubstTree(SubstTree(t, ks, xs), keys, vals), SubstTree(t, ks, SubstAll(xs, keys, vals));
    match t {
      case TVar(_, _) => LookupCompose(t, ks, xs, keys, vals);
      case TRef(inner) => SubstCompose(inner, ks, xs, keys, vals);
      case TStruct(fs) =>
        forall k | 0 <= k < |fs| ensures a.fields[k] == b.fields[k] { SubstCompose(fs[k].tree, ks, xs, keys, vals); }
      case TEnum(vs) =>
        forall k | 0 <= k < |vs| ensures a.variants[k] == b.variants[k] {
          if vs[k].payload.Some? { SubstCompose(vs[k].payload.value, ks, xs, keys, vals); }
        }
      case TApp(_, args) =>
        forall k | 0 <= k < |args| ensures a.args[k] == b.args[k] { SubstCompose(args[k], ks, xs, keys, vals); }
      case TVariant(whole, _) => SubstCompose(whole, ks, xs, keys, vals);
      case _ =>
    }
  }

  // ---------- variables of expansions ----------

  /** What a type's meaning over `within` says about its children's meanings. */
  lemma ShapeVars(pool: seq<Node>, id: TypeId, within: seq<Tree>)
    requires ValidPool(pool) && NodesOk(pool) && id < |pool| && (pool[id].Struct? || pool[id].Enum?)
    requires VarsWithin(Den(pool, id), within)
    ensures VarsWithin(Shape(pool, id), within)
  {
    assert NodeOk(pool, id);
    if InstanceOf(pool[id]).Some? {
      var I := pool[id].inst.value;
      var g := pool[I.parent];
      assert NodeOk(pool, I.parent);
      forall k | 0 <= k < |I.args| ensures VarsWithin(Vals(pool, I.args)[k], within) {
        assert Den(pool, id).args[k] == Den(pool, I.args[k]);
      }
      SubstVars(Shape(pool, g.body), Keys(pool, g.params), Vals(pool, I.args), within);
    } else if pool[id].defn.Some? {
      VarFreeMeaningClosed(pool, id);
      ClosedWithin(Shape(pool, id), within);
    }
  }

  lemma {:induction false} ClosedWithin(t: Tree, within: seq<Tree>)
    requires Closed(t)
    ensures VarsWithin(t, within)
    decreases t
  {
    match t {
      case TRef(inner) => ClosedWithin(inner, within);
      case TStruct(fs) => forall k | 0 <= k < |fs| ensures VarsWithin(fs[k].tree, within) {
        ClosedWithin(fs[k].tree, within);
      }
      case TEnum(vs) =>
        forall k | 0 <= k < |vs| && vs[k].payload.Some? ensures VarsWithin(vs[k].payload.value, within) {
          ClosedWithin(vs[k].payload.value, within);
        }
      case TApp(_, args) => forall k | 0 <= k < |args| ensures VarsWithin(args[k], within) {
        ClosedWithin(args[k], within);
      }
      case TVariant(whole, _) => ClosedWithin(whole, within);
      case _ =>
    }
  }

  // ---------- instances are walked through structurally ----------

  lemma LookupIn(v: Tree, keys: seq<Tree>, vals: seq<Tree>) returns (k: nat)
    requires |keys| <= |vals|
    ensures k <= |keys| && (k < |keys| ==> keys[k] == v) && forall j :: 0 <= j < k ==> keys[j] != v
    ensures Lookup(v, keys, vals) == if k < |keys| then vals[k] else v
    decreases |keys|
  {
    if keys == [] || keys[0] == v {
      k := 0;
    } else {
      k := LookupIn(v, keys[1..], vals[1..]);
      k := k + 1;
    }
  }

  /** Substituting walkable types into a walkable type gives a walkable type. */
  lemma {:induction false} SubstitutedSubstable(pool: seq<Node>, from: TypeId, to: TypeId,
                                                params: seq<GenericParam>, passed: seq<TypeId>)
    requires ValidPool(pool) && Substituted(pool, from, to, params, passed) && Substable(pool, from)
    requires forall k :: 0 <= k < |passed| ==> Substable(pool, passed[k])
    ensures Substable(pool, to)
    decreases from, 1
  {
    var a, b := pool[from], pool[to];
    if InstanceOf(a).Some? {
      ArgsSubstable(pool, from, to, params, passed);
    } else if Bare(a) && a.defn.None? {
      AnonymousSubstable(pool, from, to, params, passed);
    } else {
      match a {
        case TypeVariable(_, _) =>
          var k := LookupIn(Den(pool, from), Keys(pool, params), Vals(pool, passed));
          DenInjective(pool, to, if k < |params| then passed[k] else from);
        case Reference(inner) => SubstitutedSubstable(pool, inner, b.inner, params, passed);
        case _ => DenInjective(pool, from, to);
      }
    }
  }

  lemma {:induction false} AnonymousSubstable(pool: seq<Node>, from: TypeId, to: TypeId,
                                              params: seq<GenericParam>, passed: seq<TypeId>)
    requires ValidPool(pool) && Substituted(pool, from, to, params, passed) && Substable(pool, from)
    requires Bare(pool[from]) && pool[from].defn.None?
    requires forall k :: 0 <= k < |passed| ==> Substable(pool, passed[k])
    ensures Substable(pool, to)
    decreases from, 0
  {
    var a, b := pool[from], pool[to];
    AnonymousSameLength(pool, from, to, params, passed);
    assert ChildrenBelow(a, from);
    if a.Struct? {
      forall k | 0 <= k < |b.fields| ensures Substable(pool, b.fields[k].typeId) {
        FieldSubstituted(pool, from, to, k, params, passed);
        SubstitutedSubstable(pool, a.fields[k].typeId, b.fields[k].typeId, params, passed);
      }
    } else {
      forall k | 0 <= k < |b.variants| && b.variants[k].payload.Some?
        ensures Substable(pool, b.variants[k].payload.value)
      {
        PayloadSubstituted(pool, from, to, k, params, passed);
        SubstitutedSubstable(pool, a.variants[k].payload.value, b.variants[k].payload.value, params, passed);
      }
    }
  }

  lemma {:induction false} ArgsSubstable(pool: seq<Node>, from: TypeId, to: TypeId, params: seq<GenericParam>,
                                         passed: seq<TypeId>)
    requires ValidPool(pool) && Substituted(pool, from, to, params, passed) && Substable(pool, from)
    requires InstanceOf(pool[from]).Some?
    requires forall k :: 0 <= k < |passed| ==> Substable(pool, passed[k])
    ensures Substable(pool, to)
    decreases from, 0
  {
    ArgsSubstituted(pool, from, to, params, passed);
    var xs, ys := pool[from].inst.value.args, pool[to].inst.value.args;
    assert ChildrenBelow(pool[from], from);
    forall k | 0 <= k < |ys| ensures Substable(pool, ys[k]) {
      assert Substituted(pool, xs[k], ys[k], params, passed);
      SubstitutedSubstable(pool, xs[k], ys[k], params, passed);
    }
  }

  lemma ArgsSubstituted(pool: seq<Node>, from: TypeId, to: TypeId, params: seq<GenericParam>, passed: seq<TypeId>)
    requires Substituted(pool, from, to, params, passed) && InstanceOf(pool[from]).Some?
    ensures InstanceOf(pool[to]).Some? && pool[to].inst.value.parent == pool[from].inst.value.parent
    ensures IdsSubstituted(pool, pool[from].inst.value.args, pool[to].inst.value.args, params, passed)
  {
    var xs, ys := pool[from].inst.value.args, pool[to].inst.value.args;
    forall k | 0 <= k < |xs| ensures Substituted(pool, xs[k], ys[k], params, passed) {
      assert Den(pool, to).args[k] == Den(pool, ys[k]) && Den(pool, from).args[k] == Den(pool, xs[k]);
    }
  }

  lemma FieldSubstituted(pool: seq<Node>, from: TypeId, to: TypeId, k: nat, params: seq<GenericParam>,
                         passed: seq<TypeId>)
    requires Bound(pool, params, passed) && from < |pool| && to < |pool| && pool[from].Struct?
    requires Bare(pool[from]) && pool[from].defn.None? && Substituted(pool, from, to, params, passed)
    requires k < |pool[from].fields|
    ensures pool[to].Struct? && Bare(pool[to]) && pool[to].defn.None?
    ensures |pool[to].fields| == |pool[from].fields| && pool[to].fields[k].name == pool[from].fields[k].name
    ensures Substituted(pool, pool[from].fields[k].typeId, pool[to].fields[k].typeId, params, passed)
  {
    var s, u := Shape(pool, to), Subst(pool, Shape(pool, from), params, passed);
    assert s == u && s.fields[k] == u.fields[k];
  }

  lemma PayloadSubstituted(pool: seq<Node>, from: TypeId, to: TypeId, k: nat, params: seq<GenericParam>,
                           passed: seq<TypeId>)
    requires Bound(pool, params, passed) && from < |pool| && to < |pool| && pool[from].Enum?
    requires Bare(pool[from]) && pool[from].defn.None? && Substituted(pool, from, to, params, passed)
    requires k < |pool[from].variants|
    ensures pool[to].Enum? && Bare(pool[to]) && pool[to].defn.None?
    ensures |pool[to].variants| == |pool[from].variants| && pool[to].variants[k].name == pool[from].variants[k].name
    ensures pool[to].variants[k].payload.Some? == pool[from].variants[k].payload.Some?
    ensures pool[from].variants[k].payload.Some? ==>
      Substituted(pool, pool[from].variants[k].payload.value, pool[to].variants[k].payload.value, params, passed)
  {
    var s, u := Shape(pool, to), Subst(pool, Shape(pool, from), params, passed);
    assert s == u && s.variants[k] == u.variants[k];
  }

  /** The fields of an instance with walkable arguments are walkable. */
  lemma InstanceFieldSubstable(pool: seq<Node>, i: TypeId, specs: map<Instance, TypeId>, k: nat)
    requires GoodPool(pool, specs, None) && i < |pool| && InstanceOf(pool[i]).Some? && Substable(pool, i)
    requires pool[i].Struct? && k < |pool[i].fields|
    ensures pool[i].fields[k].typeId < i && Substable(pool, pool[i].fields[k].typeId)
  {
    InstanceFacts(pool, specs, i);
    var I := pool[i].inst.value;
    var g := pool[I.parent];
    assert ChildrenBelow(pool[i], i) && NodeOk(pool, I.parent);
    InstanceField(pool, i, k);
    SubstitutedSubstable(pool, pool[g.body].fields[k].typeId, pool[i].fields[k].typeId, g.params, I.args);
  }

  lemma InstancePayloadSubstable(pool: seq<Node>, i: TypeId, specs: map<Instance, TypeId>, k: nat)
    requires GoodPool(pool, specs, None) && i < |pool| && InstanceOf(pool[i]).Some? && Substable(pool, i)
    requires pool[i].Enum? && k < |pool[i].variants| && pool[i].variants[k].payload.Some?
    ensures pool[i].variants[k].payload.value < i && Substable(pool, pool[i].variants[k].payload.value)
  {
    InstanceFacts(pool, specs, i);
    var I := pool[i].inst.value;
    var g := pool[I.parent];
    assert ChildrenBelow(pool[i], i) && NodeOk(pool, I.parent);
    InstancePayload(pool, i, k);
    SubstitutedSubstable(pool, pool[g.body].variants[k].payload.value, pool[i].variants[k].payload.value, g.params,
      I.args);
  }

  lemma InstanceField(pool: seq<Node>, i: TypeId, k: nat)
    requires Below(pool) && i < |pool| && InstanceOf(pool[i]).Some? && InstanceOk(pool, i)
    requires pool[i].Struct? && k < |pool[i].fields|
    ensures var g := pool[pool[i].inst.value.parent];
      && k < |pool[g.body].fields| && pool[g.body].fields[k].name == pool[i].fields[k].name
      && Substituted(pool, pool[g.body].fields[k].typeId, pool[i].fields[k].typeId, g.params, pool[i].inst.value.args)
  {
    var g := pool[pool[i].inst.value.parent];
    var s, u := Shape(pool, i), Subst(pool, Shape(pool, g.body), g.params, pool[i].inst.value.args);
    assert s == u && s.fields[k] == u.fields[k];
  }

  lemma InstancePayload(pool: seq<Node>, i: TypeId, k: nat)
    requires Below(pool) && i < |pool| && InstanceOf(pool[i]).Some? && InstanceOk(pool, i)
    requires pool[i].Enum? && k < |pool[i].variants|
    ensures var g := pool[pool[i].inst.value.parent];
      && k < |pool[g.body].variants| && pool[g.body].variants[k].name == pool[i].variants[k].name
      && pool[g.body].variants[k].payload.Some? == pool[i].variants[k].payload.Some?
      && (pool[i].variants[k].payload.Some? ==>
           Substituted(pool, pool[g.body].variants[k].payload.value, pool[i].variants[k].payload.value,
                       g.params, pool[i].inst.value.args))
  {
    var g := pool[pool[i].inst.value.parent];
    var s, u := Shape(pool, i), Subst(pool, Shape(pool, g.body), g.params, pool[i].inst.value.args);
    assert s == u && s.variants[k] == u.variants[k];
  }

  // ---------- expansion commutes with substitution ----------

  ghost function ExpandAll(pool: seq<Node>, ids: seq<TypeId>): (r: seq<Tree>)
    requires Below(pool) && Placement(pool) && forall k :: 0 <= k < |ids| ==> ids[k] < |pool|
    ensures |r| == |ids| && forall k :: 0 <= k < |ids| ==> r[k] == Expand(pool, ids[k])
  {
    seq(|ids|, k requires 0 <= k < |ids| => Expand(pool, ids[k]))
  }

  ghost function SubstExpanded(pool: seq<Node>, t: Tree, params: seq<GenericParam>, passed: seq<TypeId>): Tree
    requires Placement(pool) && Bound(pool, params, passed)
  {
    SubstTree(t, Keys(pool, params), ExpandAll(pool, passed))
  }

  ghost predicate ExpandsTo(pool: seq<Node>, from: TypeId, to: TypeId, params: seq<GenericParam>, passed: seq<TypeId>) {
    && Placement(pool) && Bound(pool, params, passed) && from < |pool| && to < |pool|
    && Expand(pool, to) == SubstExpanded(pool, Expand(pool, from), params, passed)
  }

  lemma {:induction false} ExpandSubst(pool: seq<Node>, specs: map<Instance, TypeId>, from: TypeId, to: TypeId,
                                       params: seq<GenericParam>, passed: seq<TypeId>)
    requires GoodPool(pool, specs, None) && Substituted(pool, from, to, params, passed) && Substable(pool, from)
    ensures ExpandsTo(pool, from, to, params, passed)
    decreases from, 2
  {
    match pool[from] {
      case TypeVariable(_, _) => ExpandVariable(pool, from, to, params, passed);
      case Reference(inner) => ExpandSubst(pool, specs, inner, pool[to].inner, params, passed);
      case Struct(_, _, _) => ExpandSubstShape(pool, specs, from, to, params, passed);
      case Enum(_, _, _) => ExpandSubstShape(pool, specs, from, to, params, passed);
      case OpaqueAlias(_, _) =>
        assert NodeOk(pool, from);
        VarFreeExpansionClosed(pool, from);
        DenInjective(pool, from, to);
        SubstClosed(Expand(pool, from), Keys(pool, params), ExpandAll(pool, passed));
      case _ => DenInjective(pool, from, to);
    }
  }

  lemma ExpandVariable(pool: seq<Node>, from: TypeId, to: TypeId, params: seq<GenericParam>, passed: seq<TypeId>)
    requires ValidPool(pool) && Substituted(pool, from, to, params, passed) && pool[from].TypeVariable?
    ensures ExpandsTo(pool, from, to, params, passed)
  {
    var v, keys := Den(pool, from), Keys(pool, params);
    var k := LookupIn(v, keys, Vals(pool, passed));
    var j := LookupIn(v, keys, ExpandAll(pool, passed));
    assert k == j;
    var image := if k < |keys| then passed[k] else from;
    assert Den(pool, image) == Lookup(v, keys, Vals(pool, passed));
    DenInjective(pool, to, image);
  }

  /** The children of a substituted struct or enum are the substituted children, whether or not it is an instance. */
  ghost predicate ChildrenSubstituted(pool: seq<Node>, from: TypeId, to: TypeId, params: seq<GenericParam>,
                                      passed: seq<TypeId>) {
    && from < |pool| && to < |pool|
    && match (pool[from], pool[to])
       case (Struct(fs, _, _), Struct(gs, _, _)) => FieldsSubstituted(pool, fs, gs, params, passed)
       case (Enum(vs, _, _), Enum(ws, _, _)) =>
         && |vs| == |ws|
         && forall k :: 0 <= k < |vs| ==>
              && ws[k].name == vs[k].name && ws[k].payload.Some? == vs[k].payload.Some?
              && (vs[k].payload.Some? ==> Substituted(pool, vs[k].payload.value, ws[k].payload.value, params, passed))
       case _ => false
  }

  lemma {:induction false} ExpandSubstShape(pool: seq<Node>, specs: map<Instance, TypeId>, from: TypeId, to: TypeId,
                                            params: seq<GenericParam>, passed: seq<TypeId>)
    requires GoodPool(pool, specs, None) && Substituted(pool, from, to, params, passed) && Substable(pool, from)
    requires pool[from].Struct? || pool[from].Enum?
    ensures ExpandsTo(pool, from, to, params, passed)
    decreases from, 1
  {
    if Bare(pool[from]) && pool[from].defn.Some? {
      assert NodeOk(pool, from);
      VarFreeExpansionClosed(pool, from);
      DenInjective(pool, from, to);
      SubstClosed(Expand(pool, from), Keys(pool, params), ExpandAll(pool, passed));
    } else {
      ShapeChildren(pool, specs, from, to, params, passed);
      ExpandChildren(pool, specs, from, to, params, passed);
    }
  }

  ghost predicate ChildSubstable(pool: seq<Node>, id: TypeId)
    requires Below(pool) && id < |pool|
  {
    && (pool[id].Struct? ==> SubstableAll(pool, FieldIds(pool[id].fields), id))
    && (pool[id].Enum? ==> SubstablePayloads(pool, pool[id].variants, id))
  }

  lemma {:induction false} ExpandChildren(pool: seq<Node>, specs: map<Instance, TypeId>, from: TypeId, to: TypeId,
                                          params: seq<GenericParam>, passed: seq<TypeId>)
    requires GoodPool(pool, specs, None) && Bound(pool, params, passed)
    requires from < |pool| && ChildSubstable(pool, from) && ChildrenSubstituted(pool, from, to, params, passed)
    ensures ExpandsTo(pool, from, to, params, passed)
    decreases from, 0
  {
    var a, b := Expand(pool, to), SubstExpanded(pool, Expand(pool, from), params, passed);
    if pool[from].Struct? {
      var fs := pool[from].fields;
      forall k | 0 <= k < |fs| ensures a.fields[k] == b.fields[k] {
        assert FieldIds(fs)[k] == fs[k].typeId;
        ExpandSubst(pool, specs, fs[k].typeId, pool[to].fields[k].typeId, params, passed);
      }
      assert a == b;
    } else {
      var vs := pool[from].variants;
      forall k | 0 <= k < |vs| ensures a.variants[k] == b.variants[k] {
        if vs[k].payload.Some? {
          ExpandSubst(pool, specs, vs[k].payload.value, pool[to].variants[k].payload.value, params, passed);
        }
      }
      assert a == b;
    }
  }

  lemma ShapeChildren(pool: seq<Node>, specs: map<Instance, TypeId>, from: TypeId, to: TypeId,
                      params: seq<GenericParam>, passed: seq<TypeId>)
    requires GoodPool(pool, specs, None) && Substituted(pool, from, to, params, passed) && Substable(pool, from)
    requires pool[from].Struct? || pool[from].Enum?
    requires Bare(pool[from]) ==> pool[from].defn.None?
    ensures ChildSubstable(pool, from) && ChildrenSubstituted(pool, from, to, params, passed)
  {
    assert ChildrenBelow(pool[from], from);
    if InstanceOf(pool[from]).Some? {
      InstanceChildren(pool, specs, from, to, params, passed);
    } else if pool[from].Struct? {
      AnonymousSameLength(pool, from, to, params, passed);
      forall k | 0 <= k < |pool[from].fields|
        ensures pool[to].fields[k].name == pool[from].fields[k].name
        ensures Substituted(pool, pool[from].fields[k].typeId, pool[to].fields[k].typeId, params, passed)
      {
        FieldSubstituted(pool, from, to, k, params, passed);
      }
    } else {
      AnonymousSameLength(pool, from, to, params, passed);
      forall k | 0 <= k < |pool[from].variants|
        ensures pool[to].variants[k].name == pool[from].variants[k].name
        ensures pool[to].variants[k].payload.Some? == pool[from].variants[k].payload.Some?
        ensures pool[from].variants[k].payload.Some? ==>
          Substituted(pool, pool[from].variants[k].payload.value, pool[to].variants[k].payload.value, params, passed)
      {
        PayloadSubstituted(pool, from, to, k, params, passed);
      }
    }
  }

  lemma AnonymousSameLength(pool: seq<Node>, from: TypeId, to: TypeId, params: seq<GenericParam>, passed: seq<TypeId>)
    requires Substituted(pool, from, to, params, passed) && Bare(pool[from]) && pool[from].defn.None?
    ensures pool[to].Struct? == pool[from].Struct? && Bare(pool[to])
    ensures pool[from].Struct? ==> |pool[to].fields| == |pool[from].fields|
    ensures pool[from].Enum? ==> |pool[to].variants| == |pool[from].variants|
  {
    var s, u := Shape(pool, to), Subst(pool, Shape(pool, from), params, passed);
    assert s == u;
  }

  lemma InstanceChildren(pool: seq<Node>, specs: map<Instance, TypeId>, from: TypeId, to: TypeId,
                         params: seq<GenericParam>, passed: seq<TypeId>)
    requires GoodPool(pool, specs, None) && Substituted(pool, from, to, params, passed) && Substable(pool, from)
    requires InstanceOf(pool[from]).Some?
    ensures ChildSubstable(pool, from) && ChildrenSubstituted(pool, from, to, params, passed)
  {
    InstanceShape(pool, specs, from, to, params, passed);
    ShapeSubstitutedChildren(pool, from, to, params, passed);
    InstanceChildrenSubstable(pool, specs, from);
  }

  lemma InstanceChildrenSubstable(pool: seq<Node>, specs: map<Instance, TypeId>, i: TypeId)
    requires GoodPool(pool, specs, None) && i < |pool| && InstanceOf(pool[i]).Some? && Substable(pool, i)
    ensures ChildSubstable(pool, i)
  {
    if pool[i].Struct? {
      InstanceFieldsSubstable(pool, specs, i);
    } else {
      InstancePayloadsSubstable(pool, specs, i);
    }
  }

  lemma InstanceFieldsSubstable(pool: seq<Node>, specs: map<Instance, TypeId>, i: TypeId)
    requires GoodPool(pool, specs, None) && i < |pool| && InstanceOf(pool[i]).Some? && Substable(pool, i)
    requires pool[i].Struct?
    ensures SubstableAll(pool, FieldIds(pool[i].fields), i)
  {
    var ids := FieldIds(pool[i].fields);
    forall k | 0 <= k < |ids| ensures ids[k] < i && Substable(pool, ids[k]) {
      InstanceFieldSubstable(pool, i, specs, k);
    }
  }

  lemma InstancePayloadsSubstable(pool: seq<Node>, specs: map<Instance, TypeId>, i: TypeId)
    requires GoodPool(pool, specs, None) && i < |pool| && InstanceOf(pool[i]).Some? && Substable(pool, i)
    requires pool[i].Enum?
    ensures SubstablePayloads(pool, pool[i].variants, i)
  {
    forall k | 0 <= k < |pool[i].variants| && pool[i].variants[k].payload.Some?
      ensures pool[i].variants[k].payload.value < i && Substable(pool, pool[i].variants[k].payload.value)
    {
      InstancePayloadSubstable(pool, i, specs, k);
    }
  }

  lemma GenericBodyWithin(pool: seq<Node>, g: TypeId)
    requires ValidPool(pool) && NodesOk(pool) && g < |pool| && pool[g].Generic? && Bare(pool[pool[g].body])
    ensures ParamsOk(pool, pool[g].params) && VarsWithin(Shape(pool, pool[g].body), Keys(pool, pool[g].params))
  {
    assert NodeOk(pool, g);
    ShapeVars(pool, pool[g].body, Keys(pool, pool[g].params));
  }

  /** For instances the two substitutions, of the generic's parameters and of ours, compose. */
  lemma InstanceShape(pool: seq<Node>, specs: map<Instance, TypeId>, from: TypeId, to: TypeId,
                      params: seq<GenericParam>, passed: seq<TypeId>)
    requires GoodPool(pool, specs, None) && Substituted(pool, from, to, params, passed)
    requires InstanceOf(pool[from]).Some?
    ensures InstanceOf(pool[to]).Some? && pool[to].Struct? == pool[from].Struct?
    ensures Shape(pool, to) == Subst(pool, Shape(pool, from), params, passed)
  {
    ArgsSubstituted(pool, from, to, params, passed);
    InstanceFacts(pool, specs, from);
    InstanceFacts(pool, specs, to);
    var parent := pool[from].inst.value.parent;
    GenericBodyWithin(pool, parent);
    ArgsCompose(pool, pool[from].inst.value.args, pool[to].inst.value.args, params, passed);
    SubstCompose(Shape(pool, pool[parent].body), Keys(pool, pool[parent].params),
      Vals(pool, pool[from].inst.value.args),
                 Keys(pool, params), Vals(pool, passed));
  }

  lemma ArgsCompose(pool: seq<Node>, xs: seq<TypeId>, ys: seq<TypeId>, params: seq<GenericParam>, passed: seq<TypeId>)
    requires Bound(pool, params, passed) && IdsSubstituted(pool, xs, ys, params, passed)
    requires forall k :: 0 <= k < |xs| ==> xs[k] < |pool| && ys[k] < |pool|
    ensures Vals(pool, ys) == SubstAll(Vals(pool, xs), Keys(pool, params), Vals(pool, passed))
  {
    forall k | 0 <= k < |xs|
      ensures Vals(pool, ys)[k] == SubstAll(Vals(pool, xs), Keys(pool, params), Vals(pool, passed))[k]
    {
      assert Substituted(pool, xs[k], ys[k], params, passed);
    }
  }

  lemma ShapeSubstitutedChildren(pool: seq<Node>, from: TypeId, to: TypeId, params: seq<GenericParam>,
                                 passed: seq<TypeId>)
    requires Bound(pool, params, passed) && from < |pool| && to < |pool|
    requires (pool[from].Struct? && pool[to].Struct?) || (pool[from].Enum? && pool[to].Enum?)
    requires Shape(pool, to) == Subst(pool, Shape(pool, from), params, passed)
    ensures ChildrenSubstituted(pool, from, to, params, passed)
  {
    var s, u := Shape(pool, to), Subst(pool, Shape(pool, from), params, passed);
    if pool[from].Struct? {
      assert forall k :: 0 <= k < |s.fields| ==> s.fields[k] == u.fields[k];
    } else {
      assert forall k :: 0 <= k < |s.variants| ==> s.variants[k] == u.variants[k];
    }
  }

  /** Main result: the type returned for generic g and args, with every name and instance inside it
      replaced by its structure, is g's body so expanded with its parameters replaced simultaneously. */
  lemma InstantiationIsSubstitution(pool: seq<Node>, specs: map<Instance, TypeId>, g: TypeId, args: seq<TypeId>,
                                    r: TypeId)
    requires GoodPool(pool, specs, None) && ResultOk(pool, Instance(g, args), r)
    ensures ExpandsTo(pool, pool[g].body, r, pool[g].params, args)
  {
    var body := pool[g].body;
    assert GenericOk(pool, g) by { assert NodeOk(pool, g); }
    assert ChildrenBelow(pool[g], g);
    if Bare(pool[body]) {
      InstanceFacts(pool, specs, r);
      ShapeSubstitutedChildren(pool, body, r, pool[g].params, args);
      BareChildSubstable(pool, body);
      ExpandChildren(pool, specs, body, r, pool[g].params, args);
    } else {
      ExpandSubst(pool, specs, body, r, pool[g].params, args);
    }
  }

  lemma BareChildSubstable(pool: seq<Node>, id: TypeId)
    requires Below(pool) && id < |pool| && Bare(pool[id]) && Substable(pool, id)
    ensures ChildSubstable(pool, id)
  {
    assert ChildrenBelow(pool[id], id);
  }
}
