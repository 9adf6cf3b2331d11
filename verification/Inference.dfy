/** Inference of type arguments by one-sided matching of a passed type against a parameter type. */
module Inference {
  import opened Wrappers
  import opened TypePool

  datatype TypeParam = TypeParam(name: Ident, typeId: TypeId)

  /** The coercions the type checker allows besides identity. */
  type Coercions = set<(TypeId, TypeId)>

  predicate CheckTypes(coercions: Coercions, expected: TypeId, actual: TypeId) {
    expected == actual || (expected, actual) in coercions
  }

  function FindSolution(solved: seq<TypeParam>, name: Ident): (r: Option<TypeId>)
    ensures r.None? <==> forall k :: 0 <= k < |solved| ==> solved[k].name != name
    ensures r.Some? ==> exists k :: 0 <= k < |solved| && IsFirst(solved, name, k) && solved[k].typeId == r.value
  {
    if solved == [] then None
    else if solved[0].name == name then assert IsFirst(solved, name, 0); Some(solved[0].typeId)
    else
      var r := FindSolution(solved[1..], name);
      assert forall k :: 1 <= k < |solved| ==> solved[k] == solved[1..][k - 1];
      assert forall k :: 0 <= k < |solved| - 1 && IsFirst(solved[1..], name, k) ==> IsFirst(solved, name, k + 1);
      r
  }

  /** Entry k is the first one with the given name. */
  ghost predicate IsFirst(solved: seq<TypeParam>, name: Ident, k: nat) {
    k < |solved| && solved[k].name == name && forall j :: 0 <= j < k ==> solved[j].name != name
  }

  // ---------- the matching function ----------

  function Solve(pool: seq<Node>, coercions: Coercions, solved: seq<TypeParam>, passed: TypeId,
                 arg: TypeId): Result<seq<TypeParam>>
    requires Below(pool) && Placement(pool) && passed < |pool| && arg < |pool|
    decreases arg, 2, if pool[passed].EnumVariant? then 1 else 0
  {
    var passedInfo, argInfo := InstanceInfo(pool, passed), InstanceInfo(pool, arg);
    if passedInfo.Some? && argInfo.Some? then
      if passedInfo.value.parent == argInfo.value.parent then
        InstanceInfoBelow(pool, passed);
        InstanceInfoBelow(pool, arg);
        SolveIds(pool, coercions, solved, passedInfo.value.args, argInfo.value.args, |pool|, arg)
      else Ok(solved)
    else
      match (pool[passed], pool[arg])
      case (_, TypeVariable(name, _)) => SolveVariable(coercions, solved, passed, name)
      case (Reference(p), Reference(a)) => Solve(pool, coercions, solved, p, a)
      case (Struct(ps, _, _), Struct(fs, _, _)) =>
        if |ps| != |fs| then Ok(solved) else SolveFields(pool, coercions, solved, ps, fs, passed, arg)
      case (Enum(ps, _, _), Enum(vs, _, _)) =>
        if |ps| != |vs| then Ok(solved) else SolveVariants(pool, coercions, solved, ps, vs, passed, arg)
      case (EnumVariant(v), Enum(_, _, _)) =>
        assert PlacedAt(pool, passed);
        Solve(pool, coercions, solved, v.enumTypeId, arg)
      case _ => Ok(solved)
  }

  /** A variable already solved must agree with the new type; otherwise the new type is its solution. */
  function SolveVariable(coercions: Coercions, solved: seq<TypeParam>, passed: TypeId,
                         name: Ident): Result<seq<TypeParam>> {
    match FindSolution(solved, name)
    case Some(existing) => if CheckTypes(coercions, existing, passed) then Ok(solved) else Err
    case None => Ok(solved + [TypeParam(name, passed)])
  }

  function SolveIds(pool: seq<Node>, coercions: Coercions, solved: seq<TypeParam>, ps: seq<TypeId>, args: seq<TypeId>,
                    passedBound: TypeId, argBound: TypeId): Result<seq<TypeParam>>
    requires Below(pool) && Placement(pool) && passedBound <= |pool| && argBound <= |pool|
    requires (forall k :: 0 <= k < |ps| ==> ps[k] < passedBound) && forall k :: 0 <= k < |args| ==> args[k] < argBound
    decreases argBound, 1, |args|
  {
    if ps == [] || args == [] then Ok(solved)
    else
      match Solve(pool, coercions, solved, ps[0], args[0])
      case Ok(more) => SolveIds(pool, coercions, more, ps[1..], args[1..], passedBound, argBound)
      case Err => Err
  }

  function SolveFields(pool: seq<Node>, coercions: Coercions, solved: seq<TypeParam>, ps: seq<Field>, fs: seq<Field>,
                       passedBound: TypeId, argBound: TypeId): Result<seq<TypeParam>>
    requires Below(pool) && Placement(pool) && passedBound <= |pool| && argBound <= |pool| && |ps| == |fs|
    requires forall k :: 0 <= k < |ps| ==> ps[k].typeId < passedBound && fs[k].typeId < argBound
    decreases argBound, 1, |fs|
  {
    if fs == [] || fs[0].name != ps[0].name then Ok(solved)
    else
      match Solve(pool, coercions, solved, ps[0].typeId, fs[0].typeId)
      case Ok(more) => SolveFields(pool, coercions, more, ps[1..], fs[1..], passedBound, argBound)
      case Err => Err
  }

  function SolveVariants(pool: seq<Node>, coercions: Coercions, solved: seq<TypeParam>, ps: seq<Variant>,
                         vs: seq<Variant>,
                         passedBound: TypeId, argBound: TypeId): Result<seq<TypeParam>>
    requires Below(pool) && Placement(pool) && passedBound <= |pool| && argBound <= |pool| && |ps| == |vs|
    requires PayloadsBelow(ps, passedBound) && PayloadsBelow(vs, argBound)
    decreases argBound, 1, |vs|
  {
    if vs == [] || vs[0].name != ps[0].name then Ok(solved)
    else if ps[0].payload.Some? && vs[0].payload.None? then Ok(solved)
    else if ps[0].payload.None? then SolveVariants(pool, coercions, solved, ps[1..], vs[1..], passedBound, argBound)
    else
      match Solve(pool, coercions, solved, ps[0].payload.value, vs[0].payload.value)
      case Ok(more) => SolveVariants(pool, coercions, more, ps[1..], vs[1..], passedBound, argBound)
      case Err => Err
  }

  // ---------- the loops ----------

  /** `solved` is the list the caller threads through; an error abandons it. */
  method SolveGenericParams(pool: seq<Node>, coercions: Coercions, solved: seq<TypeParam>, passed: TypeId, arg: TypeId)
    returns (r: Result<seq<TypeParam>>)
    requires Below(pool) && Placement(pool) && passed < |pool| && arg < |pool|
    ensures r == Solve(pool, coercions, solved, passed, arg)
    decreases arg, 2, if pool[passed].EnumVariant? then 1 else 0
  {
    var passedInfo, argInfo := InstanceInfo(pool, passed), InstanceInfo(pool, arg);
    if passedInfo.Some? && argInfo.Some? {
      if passedInfo.value.parent == argInfo.value.parent {
        InstanceInfoBelow(pool, passed);
        InstanceInfoBelow(pool, arg);
        r := SolveArgs(pool, coercions, solved, passedInfo.value.args, argInfo.value.args, arg);
        return;
      }
      return Ok(solved);
    }
    match (pool[passed], pool[arg]) {
      case (_, TypeVariable(name, _)) =>
        var existing := FindSolution(solved, name);
        if existing.Some? {
          return if CheckTypes(coercions, existing.value, passed) then Ok(solved) else Err;
        }
        return Ok(solved + [TypeParam(name, passed)]);
      case (Reference(p), Reference(a)) =>
        r := SolveGenericParams(pool, coercions, solved, p, a);
      case (Struct(ps, _, _), Struct(fs, _, _)) =>
        if |ps| != |fs| { return Ok(solved); }
        r := SolveStruct(pool, coercions, solved, passed, arg);
      case (Enum(ps, _, _), Enum(vs, _, _)) =>
        if |ps| != |vs| { return Ok(solved); }
        r := SolveEnum(pool, coercions, solved, passed, arg);
      case (EnumVariant(v), Enum(_, _, _)) =>
        assert PlacedAt(pool, passed);
        r := SolveGenericParams(pool, coercions, solved, v.enumTypeId, arg);
      case _ =>
        return Ok(solved);
    }
  }

  method SolveArgs(pool: seq<Node>, coercions: Coercions, solved: seq<TypeParam>, ps: seq<TypeId>, args: seq<TypeId>,
                   argBound: TypeId)
    returns (r: Result<seq<TypeParam>>)
    requires Below(pool) && Placement(pool) && argBound <= |pool|
    requires (forall k :: 0 <= k < |ps| ==> ps[k] < |pool|) && forall k :: 0 <= k < |args| ==> args[k] < argBound
    ensures r == SolveIds(pool, coercions, solved, ps, args, |pool|, argBound)
    decreases argBound, 1
  {
    var done, k := solved, 0;
    ghost var target := SolveIds(pool, coercions, solved, ps, args, |pool|, argBound);
    while k < |ps| && k < |args|
      invariant k <= |ps| && k <= |args|
      invariant SolveIds(pool, coercions, done, ps[k..], args[k..], |pool|, argBound) == target
    {
      var step := SolveGenericParams(pool, coercions, done, ps[k], args[k]);
      assert ps[k..][1..] == ps[k + 1..] && args[k..][1..] == args[k + 1..];
      if step.Err? { return Err; }
      done := step.value;
      k := k + 1;
    }
    return Ok(done);
  }

  method SolveStruct(pool: seq<Node>, coercions: Coercions, solved: seq<TypeParam>, passed: TypeId, arg: TypeId)
    returns (r: Result<seq<TypeParam>>)
    requires Below(pool) && Placement(pool) && passed < |pool| && arg < |pool|
    requires pool[passed].Struct? && pool[arg].Struct? && |pool[passed].fields| == |pool[arg].fields|
    ensures ChildrenBelow(pool[passed], passed) && ChildrenBelow(pool[arg], arg)
    ensures r == SolveFields(pool, coercions, solved, pool[passed].fields, pool[arg].fields, passed, arg)
    decreases arg, 1
  {
    assert ChildrenBelow(pool[passed], passed) && ChildrenBelow(pool[arg], arg);
    var ps, fs := pool[passed].fields, pool[arg].fields;
    var done := solved;
    ghost var target := SolveFields(pool, coercions, solved, ps, fs, passed, arg);
    for k := 0 to |fs|
      invariant SolveFields(pool, coercions, done, ps[k..], fs[k..], passed, arg) == target
    {
      assert ps[k..][1..] == ps[k + 1..] && fs[k..][1..] == fs[k + 1..];
      if fs[k].name != ps[k].name { return Ok(done); }
      var step := SolveGenericParams(pool, coercions, done, ps[k].typeId, fs[k].typeId);
      if step.Err? { return Err; }
      done := step.value;
    }
    return Ok(done);
  }

  method SolveEnum(pool: seq<Node>, coercions: Coercions, solved: seq<TypeParam>, passed: TypeId, arg: TypeId)
    returns (r: Result<seq<TypeParam>>)
    requires Below(pool) && Placement(pool) && passed < |pool| && arg < |pool|
    requires pool[passed].Enum? && pool[arg].Enum? && |pool[passed].variants| == |pool[arg].variants|
    ensures PayloadsBelow(pool[passed].variants, passed) && PayloadsBelow(pool[arg].variants, arg)
    ensures r == SolveVariants(pool, coercions, solved, pool[passed].variants, pool[arg].variants, passed, arg)
    decreases arg, 1
  {
    assert ChildrenBelow(pool[passed], passed) && ChildrenBelow(pool[arg], arg);
    var ps, vs := pool[passed].variants, pool[arg].variants;
    var done := solved;
    ghost var target := SolveVariants(pool, coercions, solved, ps, vs, passed, arg);
    for k := 0 to |vs|
      invariant SolveVariants(pool, coercions, done, ps[k..], vs[k..], passed, arg) == target
    {
      assert ps[k..][1..] == ps[k + 1..] && vs[k..][1..] == vs[k + 1..];
      if vs[k].name != ps[k].name { return Ok(done); }
      if ps[k].payload.Some? {
        if vs[k].payload.None? { return Ok(done); }
        var step := SolveGenericParams(pool, coercions, done, ps[k].payload.value, vs[k].payload.value);
        if step.Err? { return Err; }
        done := step.value;
      }
    }
    return Ok(done);
  }
}
