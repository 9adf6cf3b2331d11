/** The type-variable test that decides which functions reach code generation. */
module TypeVariableTest {
  import opened Wrappers
  import opened TypePool
  import opened GenericInvariants
  import opened Instantiation
  import opened TypeExpansion

  /** For an instance only the arguments are looked at, never the fields; for a variant only its own payload. */
  predicate DoesTypeReferenceTypeVariables(pool: seq<Node>, id: TypeId)
    requires Below(pool) && Placement(pool) && id < |pool|
    decreases id
  {
    var info := InstanceInfo(pool, id);
    InstanceInfoBelow(pool, id);
    if info.Some? then
      exists k :: 0 <= k < |info.value.args| && DoesTypeReferenceTypeVariables(pool, info.value.args[k])
    else
      match pool[id]
      case TypeVariable(_, _) => true
      case Struct(fs, _, _) =>
        exists k :: 0 <= k < |fs| && fs[k].typeId < id && DoesTypeReferenceTypeVariables(pool, fs[k].typeId)
      case Reference(inner) => DoesTypeReferenceTypeVariables(pool, inner)
      case Enum(vs, _, _) =>
        exists k :: 0 <= k < |vs| && vs[k].payload.Some? && vs[k].payload.value < id
          && DoesTypeReferenceTypeVariables(pool, vs[k].payload.value)
      case EnumVariant(v) => v.payload.Some? && DoesTypeReferenceTypeVariables(pool, v.payload.value)
      case OpaqueAlias(aliasee, _) => DoesTypeReferenceTypeVariables(pool, aliasee)
      case Generic(_, _, _) => true
      case _ => false
  }

  // ---------- the types code generation visits ----------

  /** The types that code generation visits directly from a type: for a variant, the payloads of its whole enum. */
  ghost predicate Visits(pool: seq<Node>, id: TypeId, c: TypeId)
    requires Below(pool) && Placement(pool) && id < |pool|
  {
    c < id && match pool[id]
    case Reference(inner) => c == inner
    case Struct(fs, _, _) => exists k :: 0 <= k < |fs| && fs[k].typeId == c
    case Enum(vs, _, _) => HasPayload(vs, c)
    case EnumVariant(_) => HasPayload(pool[WholeEnum(pool, id)].variants, c)
    case OpaqueAlias(aliasee, _) => c == aliasee
    case _ => false
  }

  ghost predicate HasPayload(vs: seq<Variant>, c: TypeId) {
    exists k :: 0 <= k < |vs| && vs[k].payload == Some(c)
  }

  ghost predicate Reaches(pool: seq<Node>, id: TypeId, x: TypeId)
    requires Below(pool) && Placement(pool) && id < |pool|
    decreases id
  {
    x == id || exists c :: 0 <= c < id && Visits(pool, id, c) && Reaches(pool, c, x)
  }

  lemma {:induction false} ReachesOn(pool: seq<Node>, id: TypeId, x: TypeId, y: TypeId)
    requires Below(pool) && Placement(pool) && id < |pool| && x < |pool|
    requires Reaches(pool, id, x) && Reaches(pool, x, y)
    ensures Reaches(pool, id, y)
    decreases id
  {
    if x != id {
      var c :| 0 <= c < id && Visits(pool, id, c) && Reaches(pool, c, x);
      ReachesOn(pool, c, x, y);
    }
  }

  ghost predicate ReachesVariable(pool: seq<Node>, id: TypeId)
    requires Below(pool) && Placement(pool) && id < |pool|
  {
    exists x :: 0 <= x < |pool| && Reaches(pool, id, x) && pool[x].TypeVariable?
  }

  lemma VariableReached(pool: seq<Node>, id: TypeId, c: TypeId)
    requires Below(pool) && Placement(pool) && id < |pool| && Visits(pool, id, c) && ReachesVariable(pool, c)
    ensures ReachesVariable(pool, id)
  {
    var x :| 0 <= x < |pool| && Reaches(pool, c, x) && pool[x].TypeVariable?;
    assert Reaches(pool, id, x);
  }

  lemma VariableReachedBelow(pool: seq<Node>, id: TypeId)
    requires Below(pool) && Placement(pool) && id < |pool| && ReachesVariable(pool, id) && !pool[id].TypeVariable?
    ensures exists c :: Visits(pool, id, c) && ReachesVariable(pool, c)
  {
    var x :| 0 <= x < |pool| && Reaches(pool, id, x) && pool[x].TypeVariable?;
    var c :| 0 <= c < id && Visits(pool, id, c) && Reaches(pool, c, x);
    assert ReachesVariable(pool, c);
  }

  /** The expansion of a type is closed exactly when those of the types it visits are. */
  lemma ClosedStep(pool: seq<Node>, id: TypeId)
    requires Below(pool) && Placement(pool) && id < |pool| && !pool[id].TypeVariable?
    ensures Closed(Expand(pool, id)) <==> forall c :: Visits(pool, id, c) ==> Closed(Expand(pool, c))
  {
    match pool[id] {
      case Reference(inner) => assert Visits(pool, id, inner);
      case Struct(fs, _, _) => FieldsClosedStep(pool, id);
      case Enum(vs, _, _) => VariantsClosedStep(pool, id);
      case EnumVariant(_) => VariantsClosedStep(pool, id);
      case OpaqueAlias(aliasee, _) => assert Visits(pool, id, aliasee);
      case _ =>
    }
  }

  lemma FieldsClosedStep(pool: seq<Node>, id: TypeId)
    requires Below(pool) && Placement(pool) && id < |pool| && pool[id].Struct?
    ensures Closed(Expand(pool, id)) <==> forall c :: Visits(pool, id, c) ==> Closed(Expand(pool, c))
  {
    var fs, r := pool[id].fields, Expand(pool, id).fields;
    assert ChildrenBelow(pool[id], id);
    if forall c :: Visits(pool, id, c) ==> Closed(Expand(pool, c)) {
      forall k | 0 <= k < |fs| ensures Closed(r[k].tree) { assert Visits(pool, id, fs[k].typeId); }
    }
    if Closed(Expand(pool, id)) {
      forall c: TypeId | Visits(pool, id, c) ensures Closed(Expand(pool, c)) {
        var k :| 0 <= k < |fs| && fs[k].typeId == c;
        assert Closed(r[k].tree);
      }
    }
  }

  lemma VariantsClosedStep(pool: seq<Node>, id: TypeId)
    requires Below(pool) && Placement(pool) && id < |pool| && (pool[id].Enum? || pool[id].EnumVariant?)
    ensures Closed(Expand(pool, id)) <==> forall c :: Visits(pool, id, c) ==> Closed(Expand(pool, c))
  {
    FamilyBelow(pool, id);
    var vs, r := pool[WholeEnum(pool, id)].variants, Expand(pool, id).variants;
    if forall c :: Visits(pool, id, c) ==> Closed(Expand(pool, c)) {
      forall k | 0 <= k < |vs| && vs[k].payload.Some? ensures Closed(r[k].payload.value) {
        assert Visits(pool, id, vs[k].payload.value);
      }
    }
    if Closed(Expand(pool, id)) {
      forall c: TypeId | Visits(pool, id, c) ensures Closed(Expand(pool, c)) {
        var k :| 0 <= k < |vs| && vs[k].payload == Some(c);
        assert Closed(r[k].payload.value);
      }
    }
  }

  /** No variable in the expansion means that code generation visits none. */
  lemma {:induction false} ClosedReachesNoVariable(pool: seq<Node>, id: TypeId)
    requires Below(pool) && Placement(pool) && id < |pool|
    ensures Closed(Expand(pool, id)) <==> !ReachesVariable(pool, id)
    decreases id
  {
    if pool[id].TypeVariable? {
      assert Reaches(pool, id, id);
      return;
    }
    ClosedStep(pool, id);
    forall c: TypeId | 0 <= c < id ensures Closed(Expand(pool, c)) <==> !ReachesVariable(pool, c) {
      ClosedReachesNoVariable(pool, c);
    }
    if ReachesVariable(pool, id) {
      VariableReachedBelow(pool, id);
    } else {
      forall c: TypeId | Visits(pool, id, c) ensures Closed(Expand(pool, c)) {
        if ReachesVariable(pool, c) { VariableReached(pool, id, c); }
      }
    }
  }

  // ---------- a negative answer carries over to the types visited ----------

  lemma {:induction false} VarFreePasses(pool: seq<Node>, id: TypeId)
    requires Below(pool) && Placement(pool) && id < |pool| && VarFree(pool, id)
    ensures !DoesTypeReferenceTypeVariables(pool, id)
    decreases id
  {
    InstanceInfoBelow(pool, id);
    forall j | 0 <= j < id && VarFree(pool, j) ensures !DoesTypeReferenceTypeVariables(pool, j) {
      VarFreePasses(pool, j);
    }
    if pool[id].EnumVariant? {
      assert PlacedAt(pool, id);
      FamilyBelow(pool, id);
      var v := pool[id].variant;
      assert pool[v.enumTypeId].variants[v.index] == v;
    }
  }

  /** Substituting types that pass for all variables of a type gives a type that passes. */
  lemma {:induction false} SubstitutedPasses(pool: seq<Node>, from: TypeId, to: TypeId, params: seq<GenericParam>,
                                             passed: seq<TypeId>)
    requires ValidPool(pool) && NodesOk(pool) && Substituted(pool, from, to, params, passed) && Substable(pool, from)
    requires VarsWithin(Den(pool, from), Keys(pool, params))
    requires forall k :: 0 <= k < |passed| ==> !DoesTypeReferenceTypeVariables(pool, passed[k])
    ensures !DoesTypeReferenceTypeVariables(pool, to)
    decreases from, 1
  {
    var a := pool[from];
    assert NodeOk(pool, from) && ChildrenBelow(a, from);
    if InstanceOf(a).Some? {
      ArgsPass(pool, from, to, params, passed);
    } else if Bare(a) && a.defn.None? {
      AnonymousPasses(pool, from, to, params, passed);
    } else {
      match a {
        case TypeVariable(_, _) =>
          var k := LookupIn(Den(pool, from), Keys(pool, params), Vals(pool, passed));
          DenInjective(pool, to, passed[k]);
        case Reference(inner) => SubstitutedPasses(pool, inner, pool[to].inner, params, passed);
        case Struct(_, _, _) => UnchangedPasses(pool, from, to);
        case Enum(_, _, _) => UnchangedPasses(pool, from, to);
        case OpaqueAlias(_, _) => UnchangedPasses(pool, from, to);
        case _ => DenInjective(pool, from, to);
      }
    }
  }

  lemma UnchangedPasses(pool: seq<Node>, from: TypeId, to: TypeId)
    requires ValidPool(pool) && from < |pool| && to < |pool| && Den(pool, to) == Den(pool, from) && VarFree(pool, from)
    ensures !DoesTypeReferenceTypeVariables(pool, to)
  {
    DenInjective(pool, from, to);
    VarFreePasses(pool, from);
  }

  lemma {:induction false} ArgsPass(pool: seq<Node>, from: TypeId, to: TypeId, params: seq<GenericParam>,
                                    passed: seq<TypeId>)
    requires ValidPool(pool) && NodesOk(pool) && Substituted(pool, from, to, params, passed) && Substable(pool, from)
    requires VarsWithin(Den(pool, from), Keys(pool, params)) && InstanceOf(pool[from]).Some?
    requires forall k :: 0 <= k < |passed| ==> !DoesTypeReferenceTypeVariables(pool, passed[k])
    ensures !DoesTypeReferenceTypeVariables(pool, to)
    decreases from, 0
  {
    ArgsSubstituted(pool, from, to, params, passed);
    var xs, ys := pool[from].inst.value.args, pool[to].inst.value.args;
    assert ChildrenBelow(pool[from], from) && ChildrenBelow(pool[to], to);
    forall k | 0 <= k < |ys| ensures !DoesTypeReferenceTypeVariables(pool, ys[k]) {
      assert Substituted(pool, xs[k], ys[k], params, passed);
      assert Den(pool, from).args[k] == Den(pool, xs[k]);
      SubstitutedPasses(pool, xs[k], ys[k], params, passed);
    }
  }

  lemma {:induction false} AnonymousPasses(pool: seq<Node>, from: TypeId, to: TypeId, params: seq<GenericParam>,
                                           passed: seq<TypeId>)
    requires ValidPool(pool) && NodesOk(pool) && Substituted(pool, from, to, params, passed) && Substable(pool, from)
    requires VarsWithin(Den(pool, from), Keys(pool, params)) && Bare(pool[from]) && pool[from].defn.None?
    requires forall k :: 0 <= k < |passed| ==> !DoesTypeReferenceTypeVariables(pool, passed[k])
    ensures !DoesTypeReferenceTypeVariables(pool, to)
    decreases from, 0
  {
    var a, b := pool[from], pool[to];
    AnonymousSameLength(pool, from, to, params, passed);
    assert ChildrenBelow(a, from) && ChildrenBelow(b, to);
    if a.Struct? {
      forall k | 0 <= k < |b.fields| ensures !DoesTypeReferenceTypeVariables(pool, b.fields[k].typeId) {
        FieldSubstituted(pool, from, to, k, params, passed);
        assert VarsWithin(Shape(pool, from).fields[k].tree, Keys(pool, params));
        SubstitutedPasses(pool, a.fields[k].typeId, b.fields[k].typeId, params, passed);
      }
    } else {
      forall k | 0 <= k < |b.variants| && b.variants[k].payload.Some?
        ensures !DoesTypeReferenceTypeVariables(pool, b.variants[k].payload.value)
      {
        PayloadSubstituted(pool, from, to, k, params, passed);
        assert VarsWithin(Shape(pool, from).variants[k].payload.value, Keys(pool, params));
        SubstitutedPasses(pool, a.variants[k].payload.value, b.variants[k].payload.value, params, passed);
      }
    }
  }

  /** What an instance's fields are made of passes when its arguments do, because a generic's variables are
      its parameters. */
  lemma InstanceVisitsPassing(pool: seq<Node>, i: TypeId, c: TypeId)
    requires ValidPool(pool) && NodesOk(pool) && i < |pool| && InstanceOf(pool[i]).Some? && Visits(pool, i, c)
    requires !DoesTypeReferenceTypeVariables(pool, i)
    ensures !DoesTypeReferenceTypeVariables(pool, c)
  {
    assert NodeOk(pool, i) && ChildrenBelow(pool[i], i);
    var I := pool[i].inst.value;
    var g := pool[I.parent];
    assert NodeOk(pool, I.parent);
    GenericBodyWithin(pool, I.parent);
    BareChildSubstable(pool, g.body);
    if pool[i].Struct? {
      var k :| 0 <= k < |pool[i].fields| && pool[i].fields[k].typeId == c;
      InstanceField(pool, i, k);
      assert FieldIds(pool[g.body].fields)[k] == pool[g.body].fields[k].typeId;
      assert VarsWithin(Shape(pool, g.body).fields[k].tree, Keys(pool, g.params));
      SubstitutedPasses(pool, pool[g.body].fields[k].typeId, c, g.params, I.args);
    } else {
      var k :| 0 <= k < |pool[i].variants| && pool[i].variants[k].payload == Some(c);
      InstancePayload(pool, i, k);
      assert VarsWithin(Shape(pool, g.body).variants[k].payload.value, Keys(pool, g.params));
      SubstitutedPasses(pool, pool[g.body].variants[k].payload.value, c, g.params, I.args);
    }
  }

  /** A variant of an enum that was not made from a generic. */
  ghost predicate LooseVariant(pool: seq<Node>, id: TypeId)
    requires Placement(pool) && id < |pool|
  {
    pool[id].EnumVariant? && InstanceOf(pool[WholeEnum(pool, id)]).None?
  }

  /** Only at a loose variant does the test look at less than code generation visits. */
  lemma VisitedPass(pool: seq<Node>, id: TypeId, c: TypeId)
    requires ValidPool(pool) && NodesOk(pool) && id < |pool| && Visits(pool, id, c)
    requires !LooseVariant(pool, id) && !DoesTypeReferenceTypeVariables(pool, id)
    ensures !DoesTypeReferenceTypeVariables(pool, c)
  {
    if pool[id].EnumVariant? {
      var e := WholeEnum(pool, id);
      assert PlacedAt(pool, id);
      InstanceInfoBelow(pool, id);
      assert InstanceInfo(pool, e) == InstanceInfo(pool, id);
      InstanceVisitsPassing(pool, e, c);
    } else if InstanceOf(pool[id]).Some? {
      InstanceVisitsPassing(pool, id, c);
    } else {
      PlainVisitsPassing(pool, id, c);
    }
  }

  lemma PlainVisitsPassing(pool: seq<Node>, id: TypeId, c: TypeId)
    requires ValidPool(pool) && id < |pool| && Visits(pool, id, c) && InstanceOf(pool[id]).None?
    requires !pool[id].EnumVariant? && !DoesTypeReferenceTypeVariables(pool, id)
    ensures !DoesTypeReferenceTypeVariables(pool, c)
  {
    match pool[id] {
      case Struct(fs, _, _) =>
        var k :| 0 <= k < |fs| && fs[k].typeId == c;
      case Enum(vs, _, _) =>
        var k :| 0 <= k < |vs| && vs[k].payload == Some(c);
      case _ =>
    }
  }

  // ---------- main results ----------

  /** What code generation panics on: a type variable or a generic that was never instantiated. */
  predicate Refused(n: Node) {
    n.TypeVariable? || n.Generic?
  }

  ghost predicate CanGenerate(pool: seq<Node>, id: TypeId)
    requires Below(pool) && Placement(pool) && id < |pool|
  {
    forall x :: 0 <= x < |pool| && Reaches(pool, id, x) ==> !Refused(pool[x])
  }

  /** A loose variant one of whose siblings' payloads leads code generation to a type variable or a generic. */
  ghost predicate Leaks(pool: seq<Node>, id: TypeId)
    requires Below(pool) && Placement(pool) && id < |pool|
  {
    LooseVariant(pool, id) && exists c :: Visits(pool, id, c) && !CanGenerate(pool, c)
  }

  ghost predicate ReachesNoLeak(pool: seq<Node>, id: TypeId)
    requires Below(pool) && Placement(pool) && id < |pool|
  {
    forall x :: 0 <= x < |pool| && Reaches(pool, id, x) ==> !Leaks(pool, x)
  }

  /** Main result: for a type on which the test answers no, code generation meets a type variable or a generic exactly
      when it visits a variant of an enum that is no instance and has a sibling that leads to one. */
  lemma {:induction false} TestIsSoundExactlyWhen(pool: seq<Node>, specs: map<Instance, TypeId>, id: TypeId)
    requires GoodPool(pool, specs, None) && id < |pool| && !DoesTypeReferenceTypeVariables(pool, id)
    ensures CanGenerate(pool, id) <==> ReachesNoLeak(pool, id)
    decreases id
  {
    if ReachesNoLeak(pool, id) {
      NoLeakCanGenerate(pool, specs, id);
    } else {
      var x :| 0 <= x < |pool| && Reaches(pool, id, x) && Leaks(pool, x);
      var c :| Visits(pool, x, c) && !CanGenerate(pool, c);
      var y :| 0 <= y < |pool| && Reaches(pool, c, y) && Refused(pool[y]);
      assert Reaches(pool, x, y);
      ReachesOn(pool, id, x, y);
    }
  }

  lemma {:induction false} NoLeakCanGenerate(pool: seq<Node>, specs: map<Instance, TypeId>, id: TypeId)
    requires GoodPool(pool, specs, None) && id < |pool| && !DoesTypeReferenceTypeVariables(pool, id)
    requires ReachesNoLeak(pool, id)
    ensures CanGenerate(pool, id)
    decreases id, 1
  {
    assert !Refused(pool[id]);
    assert Reaches(pool, id, id);
    forall c: TypeId | 0 <= c < id && Visits(pool, id, c) ensures CanGenerate(pool, c) {
      if !LooseVariant(pool, id) {
        VisitedPass(pool, id, c);
        NoLeakCarries(pool, id, c);
        NoLeakCanGenerate(pool, specs, c);
      }
    }
  }

  lemma NoLeakCarries(pool: seq<Node>, id: TypeId, c: TypeId)
    requires Below(pool) && Placement(pool) && id < |pool| && Visits(pool, id, c) && ReachesNoLeak(pool, id)
    ensures ReachesNoLeak(pool, c)
  {
    forall x | 0 <= x < |pool| && Reaches(pool, c, x) ensures !Leaks(pool, x) {
      assert Reaches(pool, id, x);
    }
  }

  /** What can be generated has no type variable left in its expansion. */
  lemma GeneratedIsClosed(pool: seq<Node>, id: TypeId)
    requires Below(pool) && Placement(pool) && id < |pool| && CanGenerate(pool, id)
    ensures Closed(Expand(pool, id))
  {
    ClosedReachesNoVariable(pool, id);
  }

  /** Asking the test about the whole enum of every variant visited is enough. */
  lemma {:induction false} TestOnWholeEnumsIsSound(pool: seq<Node>, specs: map<Instance, TypeId>, id: TypeId)
    requires GoodPool(pool, specs, None) && id < |pool| && !DoesTypeReferenceTypeVariables(pool, id)
    requires forall x :: 0 <= x < |pool| && Reaches(pool, id, x) && pool[x].EnumVariant? ==>
      !DoesTypeReferenceTypeVariables(pool, WholeEnum(pool, x))
    ensures CanGenerate(pool, id)
    decreases id
  {
    assert !Refused(pool[id]);
    assert Reaches(pool, id, id);
    forall c: TypeId | 0 <= c < id && Visits(pool, id, c) ensures CanGenerate(pool, c) {
      if LooseVariant(pool, id) {
        var e := WholeEnum(pool, id);
        assert PlacedAt(pool, id);
        assert PlacedAt(pool, e) && Visits(pool, e, c);
        PlainVisitsPassing(pool, e, c);
      } else {
        VisitedPass(pool, id, c);
      }
      forall x | 0 <= x < |pool| && Reaches(pool, c, x) && pool[x].EnumVariant?
        ensures !DoesTypeReferenceTypeVariables(pool, WholeEnum(pool, x))
      {
        assert Reaches(pool, id, x);
      }
      TestOnWholeEnumsIsSound(pool, specs, c);
    }
  }

  /** A function is generated only when no part of its signature passes the test. */
  predicate ShouldCodegen(pool: seq<Node>, ret: TypeId, params: seq<TypeId>)
    requires Below(pool) && Placement(pool) && ret < |pool| && forall k :: 0 <= k < |params| ==> params[k] < |pool|
  {
    && !DoesTypeReferenceTypeVariables(pool, ret)
    && forall k :: 0 <= k < |params| ==> !DoesTypeReferenceTypeVariables(pool, params[k])
  }

  /** The signature of an admitted function can be generated exactly when no part of it leads to a leaking variant. */
  lemma AdmittedSignatureGeneratedExactlyWhen(pool: seq<Node>, specs: map<Instance, TypeId>, ret: TypeId,
                                              params: seq<TypeId>)
    requires GoodPool(pool, specs, None) && ret < |pool| && forall k :: 0 <= k < |params| ==> params[k] < |pool|
    requires ShouldCodegen(pool, ret, params)
    ensures (CanGenerate(pool, ret) && forall k :: 0 <= k < |params| ==> CanGenerate(pool, params[k])) <==>
      (ReachesNoLeak(pool, ret) && forall k :: 0 <= k < |params| ==> ReachesNoLeak(pool, params[k]))
  {
    TestIsSoundExactlyWhen(pool, specs, ret);
    forall k | 0 <= k < |params| ensures CanGenerate(pool, params[k]) <==> ReachesNoLeak(pool, params[k]) {
      TestIsSoundExactlyWhen(pool, specs, params[k]);
    }
  }

  // ---------- an admitted function that code generation refuses ----------

  /** The types of `fn f[T](x: enum A(T), B(i64).B): i64`. */
  function LeakingPool(): seq<Node> {
    var a, b := Variant("A", 0, Some(0), 2, 4), Variant("B", 1, Some(1), 3, 4);
    [TypeVariable("T", 1), Integer(I64), EnumVariant(a), EnumVariant(b), Enum([a, b], None, None)]
  }

  lemma LeakingPoolPlaced()
    ensures Below(LeakingPool()) && Placement(LeakingPool())
  {
    var pool := LeakingPool();
    forall i | 0 <= i < |pool| ensures ChildrenBelow(pool[i], i) {}
    var vs := pool[4].variants;
    forall j | 0 <= j < |vs|
      ensures pool[2 + j] == EnumVariant(vs[j]) && vs[j].index == j && vs[j].myTypeId == 2 + j && vs[j].enumTypeId == 4
    {
    }
    EnumPlacedAt(pool, 4, 2, vs);
  }

  lemma LeakingPoolDistinct()
    ensures Distinct(LeakingPool())
  {
    var pool := LeakingPool();
    forall i, j | 0 <= i < j < |pool| ensures !TypeEq(pool[i], pool[j]) {}
  }

  lemma LeakingPoolIsGood()
    ensures GoodPool(LeakingPool(), map[], None)
  {
    LeakingPoolPlaced();
    LeakingPoolDistinct();
    forall i | 0 <= i < |LeakingPool()| ensures Unnamed(LeakingPool()[i]) {}
    UnnamedIsGood(LeakingPool());
  }

  lemma LeakingPoolAnswers()
    requires Below(LeakingPool()) && Placement(LeakingPool())
    ensures ShouldCodegen(LeakingPool(), 1, [3]) && DoesTypeReferenceTypeVariables(LeakingPool(), 4)
  {
    var pool := LeakingPool();
    assert !DoesTypeReferenceTypeVariables(pool, 1) && !DoesTypeReferenceTypeVariables(pool, 3);
    assert DoesTypeReferenceTypeVariables(pool, pool[4].variants[0].payload.value);
  }

  lemma SiblingReached()
    requires Below(LeakingPool()) && Placement(LeakingPool())
    ensures Leaks(LeakingPool(), 3) && ReachesVariable(LeakingPool(), 3)
  {
    var pool := LeakingPool();
    assert pool[WholeEnum(pool, 3)].variants[0].payload == Some(0);
    assert Visits(pool, 3, 0) && Reaches(pool, 0, 0);
    assert ReachesVariable(pool, 0) && !CanGenerate(pool, 0);
    VariableReached(pool, 3, 0);
  }

  /** The function is admitted, the test answers yes on the whole enum, and the parameter's code needs variable T. */
  lemma AdmittedVariantLeaks()
    ensures GoodPool(LeakingPool(), map[], None) && ShouldCodegen(LeakingPool(), 1, [3])
    ensures DoesTypeReferenceTypeVariables(LeakingPool(), 4)
    ensures !Closed(Expand(LeakingPool(), 3)) && Leaks(LeakingPool(), 3)
  {
    LeakingPoolIsGood();
    LeakingPoolAnswers();
    SiblingReached();
    ClosedReachesNoVariable(LeakingPool(), 3);
  }
}
