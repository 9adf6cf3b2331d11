/** What becomes of a call's type arguments: constraints are checked against them by position, and specialised functions
    are found by their types alone. */
module CallSpecialization {
  import opened Wrappers
  import opened TypePool
  import opened Inference
  import opened InferenceInverts
  import opened CallInference

  type AbilityId = nat

  /** Type arguments written out in a call, in the order of declaration. */
  function Declared(typeParams: seq<Ident>, ids: seq<TypeId>): (r: seq<TypeParam>)
    requires |typeParams| == |ids|
    ensures |r| == |ids| && forall k :: 0 <= k < |ids| ==> r[k] == TypeParam(typeParams[k], ids[k])
  {
    seq(|ids|, k requires 0 <= k < |ids| => TypeParam(typeParams[k], ids[k]))
  }

  function IdsOf(given: seq<TypeParam>): (r: seq<TypeId>)
    ensures |r| == |given| && forall k :: 0 <= k < |given| ==> r[k] == given[k].typeId
  {
    seq(|given|, k requires 0 <= k < |given| => given[k].typeId)
  }

  /** One argument for each type parameter, in whatever order. */
  ghost predicate Complete(typeParams: seq<Ident>, given: seq<TypeParam>) {
    && DistinctNames(typeParams) && DistinctNames(NamesOf(given)) && |given| == |typeParams|
    && forall n :: n in typeParams ==> Named(given, n)
  }

  /** The type that a type parameter got. */
  function ArgumentFor(given: seq<TypeParam>, n: Ident): TypeId {
    var r := FindSolution(given, n);
    if r.Some? then r.value else 0
  }

  lemma {:induction false} FoundAt(given: seq<TypeParam>, k: nat)
    requires DistinctNames(NamesOf(given)) && k < |given|
    ensures FindSolution(given, given[k].name) == Some(given[k].typeId)
  {
    var n := given[k].name;
    var r := FindSolution(given, n);
    var j :| 0 <= j < |given| && IsFirst(given, n, j) && given[j].typeId == r.value;
    assert NamesOf(given)[j] == NamesOf(given)[k];
  }

  // ---------- ability constraints ----------

  /** Each argument implements what is asked of the type parameter declared at its position. */
  ghost predicate PositionsImplement(constraints: seq<seq<AbilityId>>, impls: set<(AbilityId, TypeId)>,
                                     given: seq<TypeParam>)
  {
    forall k, a :: 0 <= k < |constraints| && k < |given| && a in constraints[k] ==> (a, given[k].typeId) in impls
  }

  /** Each type parameter got a type that implements what is asked of it. */
  ghost predicate ParametersImplement(typeParams: seq<Ident>, constraints: seq<seq<AbilityId>>,
                                      impls: set<(AbilityId, TypeId)>, given: seq<TypeParam>)
  {
    forall k, a :: 0 <= k < |constraints| && k < |typeParams| && a in constraints[k] ==>
      (a, ArgumentFor(given, typeParams[k])) in impls
  }

  method CheckConstraints(constraints: seq<seq<AbilityId>>, impls: set<(AbilityId, TypeId)>, given: seq<TypeParam>)
    returns (ok: bool)
    ensures ok <==> PositionsImplement(constraints, impls, given)
  {
    var k := 0;
    while k < |constraints| && k < |given|
      invariant k <= |constraints| && k <= |given|
      invariant forall j, a :: 0 <= j < k && a in constraints[j] ==> (a, given[j].typeId) in impls
    {
      for i := 0 to |constraints[k]|
        invariant forall h :: 0 <= h < i ==> (constraints[k][h], given[k].typeId) in impls
      {
        var ability := constraints[k][i];
        if (ability, given[k].typeId) !in impls {
          return false;
        }
      }
      k := k + 1;
    }
    ok := true;
  }

  /** Each position holds the type of the parameter declared there. */
  ghost predicate InPlace(typeParams: seq<Ident>, given: seq<TypeParam>) {
    |typeParams| <= |given| && forall k :: 0 <= k < |typeParams| ==>
      given[k].typeId == ArgumentFor(given, typeParams[k])
  }

  ghost predicate CheckedRightly(typeParams: seq<Ident>, given: seq<TypeParam>, constraints: seq<seq<AbilityId>>,
                                 impls: set<(AbilityId, TypeId)>)
  {
    PositionsImplement(constraints, impls, given) <==> ParametersImplement(typeParams, constraints, impls, given)
  }

  function NoConstraints(n: nat): (r: seq<seq<AbilityId>>)
    ensures |r| == n && forall k :: 0 <= k < n ==> r[k] == []
  {
    seq(n, _ => [])
  }

  /** Main result on constraints: whatever is asked and whatever is implemented, the check decides whether each type
      parameter got a type that fits, if and only if each position holds the type of the parameter declared there. */
  lemma {:induction false} ConstraintsRightExactlyWhen(typeParams: seq<Ident>, given: seq<TypeParam>)
    requires Complete(typeParams, given)
    ensures InPlace(typeParams, given) <==>
      forall constraints, impls | |constraints| == |typeParams| :: CheckedRightly(typeParams, given, constraints, impls)
  {
    if !InPlace(typeParams, given) {
      var k :| 0 <= k < |typeParams| && given[k].typeId != ArgumentFor(given, typeParams[k]);
      WronglyAccepted(typeParams, given, k);
      assert !CheckedRightly(typeParams, given, NoConstraints(|typeParams|)[k := [0]], {(0, given[k].typeId)});
    }
    forall constraints, impls | InPlace(typeParams, given) && |constraints| == |typeParams|
      ensures CheckedRightly(typeParams, given, constraints, impls)
    {
      InPlaceChecked(typeParams, given, constraints, impls);
    }
  }

  lemma {:induction false} InPlaceChecked(typeParams: seq<Ident>, given: seq<TypeParam>,
                                          constraints: seq<seq<AbilityId>>, impls: set<(AbilityId, TypeId)>)
    requires InPlace(typeParams, given) && |typeParams| == |given| && |constraints| == |typeParams|
    ensures CheckedRightly(typeParams, given, constraints, impls)
  {
  }

  /** A constraint that only the type at its position meets is taken to be met. */
  lemma {:induction false} WronglyAccepted(typeParams: seq<Ident>, given: seq<TypeParam>, k: nat)
    requires |given| == |typeParams| && k < |typeParams| && given[k].typeId != ArgumentFor(given, typeParams[k])
    ensures var constraints, impls := NoConstraints(|typeParams|)[k := [0]], {(0, given[k].typeId)};
      && PositionsImplement(constraints, impls, given)
      && !ParametersImplement(typeParams, constraints, impls, given)
  {
    var constraints, impls := NoConstraints(|typeParams|)[k := [0]], {(0, given[k].typeId)};
    assert 0 in constraints[k] && (0, ArgumentFor(given, typeParams[k])) !in impls;
  }

  /** Arguments in the order of declaration are in place. */
  lemma {:induction false} DeclaredInPlace(typeParams: seq<Ident>, given: seq<TypeParam>)
    requires DistinctNames(typeParams) && NamesOf(given) == typeParams
    ensures InPlace(typeParams, given)
  {
    forall k | 0 <= k < |typeParams| ensures given[k].typeId == ArgumentFor(given, typeParams[k]) {
      FoundAt(given, k);
    }
  }

  /** So arguments that come in some order of names are in place, whatever their types, exactly if that order is the
      order of declaration; the order of inferred arguments is that in which the parameters are met first. */
  lemma {:induction false} InPlaceExactlyWhen(typeParams: seq<Ident>, names: seq<Ident>)
    requires SameNames(typeParams, names)
    ensures names == typeParams <==>
      forall ids | |ids| == |names| :: InPlace(typeParams, Declared(names, ids))
  {
    if names != typeParams {
      var k :| 0 <= k < |names| && names[k] != typeParams[k];
      Displaced(typeParams, names, k);
    } else {
      forall ids | |ids| == |names| ensures InPlace(typeParams, Declared(names, ids)) {
        DeclaredNames(names, ids);
        DeclaredInPlace(typeParams, Declared(names, ids));
      }
    }
  }

  lemma {:induction false} Displaced(typeParams: seq<Ident>, names: seq<Ident>, k: nat)
    requires SameNames(typeParams, names) && k < |names| && names[k] != typeParams[k]
    ensures !InPlace(typeParams, Declared(names, Positions(|names|)))
  {
    var given := Declared(names, Positions(|names|));
    DeclaredNames(names, Positions(|names|));
    assert typeParams[k] in names;
    var j :| 0 <= j < |names| && names[j] == typeParams[k];
    FoundAt(given, j);
    assert ArgumentFor(given, typeParams[k]) == j;
  }

  ghost predicate SameNames(a: seq<Ident>, b: seq<Ident>) {
    DistinctNames(a) && DistinctNames(b) && |a| == |b| && forall n :: n in a <==> n in b
  }

  function Positions(n: nat): (r: seq<TypeId>)
    ensures |r| == n && forall k :: 0 <= k < n ==> r[k] == k
  {
    seq(n, k => k)
  }

  lemma {:induction false} DeclaredNames(names: seq<Ident>, ids: seq<TypeId>)
    requires |names| == |ids|
    ensures NamesOf(Declared(names, ids)) == names && IdsOf(Declared(names, ids)) == ids
  {
  }

  // ---------- specialised functions ----------

  /** A function made for some types: the key it is found by, and what the type parameters mean in its body. */
  datatype Specialization = Specialization(key: seq<TypeId>, bound: seq<TypeParam>)

  class GenericFunction {
    var specializations: seq<Specialization>

    constructor ()
      ensures Valid() && specializations == []
    {
      specializations := [];
    }

    /** Keys are the types of what is bound, and no key comes twice. */
    ghost predicate Valid()
      reads this
    {
      && (forall i :: 0 <= i < |specializations| ==> specializations[i].key == IdsOf(specializations[i].bound))
      && forall i, j :: 0 <= i < j < |specializations| ==> specializations[i].key != specializations[j].key
    }

    /** The function for the given type arguments: one with the same types in the same order, or a new one; fails for a
        new one if a name comes twice. */
    method Specialize(given: seq<TypeParam>) returns (r: Result<nat>)
      requires Valid()
      modifies this
      ensures Valid() && old(specializations) <= specializations
      ensures r.Ok? ==> r.value < |specializations| && specializations[r.value].key == IdsOf(given)
      ensures r.Ok? && r.value < |old(specializations)| ==> specializations == old(specializations)
      ensures r.Ok? && r.value >= |old(specializations)| ==>
        specializations == old(specializations) + [Specialization(IdsOf(given), given)]
      ensures r.Err? <==>
        !DistinctNames(NamesOf(given)) && forall i :: 0 <= i < |old(specializations)| ==>
          old(specializations)[i].key != IdsOf(given)
    {
      var typeIds := IdsOf(given);
      var i := 0;
      while i < |specializations|
        invariant i <= |specializations| && specializations == old(specializations)
        invariant forall j :: 0 <= j < i ==> specializations[j].key != typeIds
      {
        if specializations[i].key == typeIds {
          return Ok(i);
        }
        i := i + 1;
      }
      var distinct := AllDistinct(given);
      if !distinct {
        return Err;
      }
      specializations := specializations + [Specialization(typeIds, given)];
      r := Ok(i);
    }
  }

  /** Names bound one after the other; fails at one that is bound already. */
  method AllDistinct(given: seq<TypeParam>) returns (distinct: bool)
    ensures distinct <==> DistinctNames(NamesOf(given))
  {
    var names: set<Ident> := {};
    for k := 0 to |given|
      invariant forall n :: n in names <==> exists j :: 0 <= j < k && given[j].name == n
      invariant forall i, j :: 0 <= i < j < k ==> given[i].name != given[j].name
    {
      if given[k].name in names {
        var j :| 0 <= j < k && given[j].name == given[k].name;
        assert NamesOf(given)[j] == NamesOf(given)[k];
        return false;
      }
      names := names + {given[k].name};
    }
    distinct := true;
  }

  /** Every name means the same type. */
  ghost predicate SameBindings(a: seq<TypeParam>, b: seq<TypeParam>) {
    forall n :: FindSolution(a, n) == FindSolution(b, n)
  }

  /** Main result on specialised functions: a function made for type arguments in one order serves a call with them in
      another order for all types with equal keys, if and only if the orders are the same. */
  lemma {:induction false} ReuseRightExactlyWhen(made: seq<Ident>, called: seq<Ident>)
    requires SameNames(made, called)
    ensures made == called <==>
      forall ids | |ids| == |made| :: SameBindings(Declared(made, ids), Declared(called, ids))
  {
    if made != called {
      var k :| 0 <= k < |made| && made[k] != called[k];
      Swapped(made, called, k);
    }
  }

  lemma {:induction false} Swapped(made: seq<Ident>, called: seq<Ident>, k: nat)
    requires SameNames(made, called) && k < |made| && made[k] != called[k]
    ensures !SameBindings(Declared(made, Positions(|made|)), Declared(called, Positions(|made|)))
  {
    var ids, n := Positions(|made|), made[k];
    var a, b := Declared(made, ids), Declared(called, ids);
    DeclaredNames(made, ids);
    DeclaredNames(called, ids);
    assert n in called;
    var j :| 0 <= j < |called| && called[j] == n;
    FoundAt(a, k);
    FoundAt(b, j);
    assert FindSolution(a, n) == Some(k) && FindSolution(b, n) == Some(j);
  }

  // ---------- a function whose type parameters are met in another order ----------

  /** `fn f[A, B](b: B, a: A): i64`, with A and B as entries 0 and 1. */
  function SwappedPool(): seq<Node> {
    [TypeVariable("A", 0), TypeVariable("B", 0), Integer(I64), Scalar(BoolType)]
  }

  function SwappedSignature(): Signature {
    Signature(["A", "B"], [1, 0], 2)
  }

  lemma {:induction false} SwappedInferred(pool: seq<Node>, sig: Signature, args: seq<Arg>)
    requires pool == SwappedPool() && sig == SwappedSignature() && args == [Evaluated(2), Evaluated(3)]
    ensures InPool(pool, sig, args, None)
    ensures Infer(pool, {}, sig, args, None) == Ok([TypeParam("B", 2), TypeParam("A", 3)])
  {
    assert forall i :: 0 <= i < |pool| ==> ChildrenBelow(pool[i], i) && PlacedAt(pool, i);
    var none: seq<TypeParam> := [];
    var first, second := [TypeParam("B", 2)], [TypeParam("B", 2), TypeParam("A", 3)];
    assert none + first == first && first + [TypeParam("A", 3)] == second;
    assert ArgStep(pool, {}, sig, args, 0, none) == Ok(first);
    assert FindSolution(first[1..], "A") == None;
    assert ArgStep(pool, {}, sig, args, 1, first) == Ok(second);
    assert ArgLoop(pool, {}, sig, args, 1, first) == Ok(second);
  }

  lemma {:induction false} SwappedBindings(inferred: seq<TypeParam>, written: seq<TypeParam>)
    requires inferred == [TypeParam("B", 2), TypeParam("A", 3)] && written == [TypeParam("A", 2), TypeParam("B", 3)]
    ensures IdsOf(inferred) == IdsOf(written) && !SameBindings(inferred, written) && !InPlace(["A", "B"], inferred)
  {
    assert FindSolution(inferred[1..], "A") == Some(3) && FindSolution(inferred, "A") == Some(3);
    assert FindSolution(written, "A") == Some(2);
    assert IdsOf(inferred) == [2, 3] && IdsOf(written) == [2, 3];
    assert ["A", "B"][0] == "A";
  }

  /** The call `f(1, true)` yields B := i64, A := bool: the same types in the same order as in `f[i64, bool](true, 1)`.
      So the two calls share one function although A and B mean different types, and a constraint on A is checked
      against i64. */
  lemma {:induction false} SwappedCallsClash(inferred: seq<TypeParam>, written: seq<TypeParam>)
    requires inferred == [TypeParam("B", 2), TypeParam("A", 3)] && written == Declared(["A", "B"], [2, 3])
    ensures InPool(SwappedPool(), SwappedSignature(), [Evaluated(2), Evaluated(3)], None)
    ensures Infer(SwappedPool(), {}, SwappedSignature(), [Evaluated(2), Evaluated(3)], None) == Ok(inferred)
    ensures IdsOf(inferred) == IdsOf(written) && !SameBindings(inferred, written) && !InPlace(["A", "B"], inferred)
  {
    SwappedInferred(SwappedPool(), SwappedSignature(), [Evaluated(2), Evaluated(3)]);
    assert written == [TypeParam("A", 2), TypeParam("B", 3)];
    SwappedBindings(inferred, written);
  }
}
