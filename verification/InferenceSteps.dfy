/** What inference does with types that do not match: it keeps what it found before the first difference. */
module InferenceSteps {
  import opened Wrappers
  import opened TypePool
  import opened Instantiation
  import opened Inference

  type Solutions = Result<seq<TypeParam>>

  /** Two lists of ids that can be matched pairwise. */
  ghost predicate Listed(pool: seq<Node>, ps: seq<TypeId>, args: seq<TypeId>, passedBound: TypeId, argBound: TypeId) {
    && Below(pool) && Placement(pool) && passedBound <= |pool| && argBound <= |pool|
    && (forall k :: 0 <= k < |ps| ==> ps[k] < passedBound) && forall k :: 0 <= k < |args| ==> args[k] < argBound
  }

  /** What one more pair adds to what the pairs before it gave. */
  ghost function Next(pool: seq<Node>, coercions: Coercions, r: Solutions, passed: TypeId, arg: TypeId): Solutions
    requires Below(pool) && Placement(pool) && passed < |pool| && arg < |pool|
  {
    if r.Ok? then Solve(pool, coercions, r.value, passed, arg) else Err
  }

  /** Pairs are matched from the first to the last, each with the solutions of those before it. */
  lemma {:induction false} PairsInTurn(pool: seq<Node>, coercions: Coercions, solved: seq<TypeParam>, ps: seq<TypeId>,
                                       args: seq<TypeId>, passedBound: TypeId, argBound: TypeId, k: nat)
    requires Listed(pool, ps, args, passedBound, argBound) && k < |ps| && k < |args|
    ensures SolveIds(pool, coercions, solved, ps[..k + 1], args[..k + 1], passedBound, argBound) ==
      Next(pool, coercions, SolveIds(pool, coercions, solved, ps[..k], args[..k], passedBound, argBound), ps[k],
        args[k])
    decreases k
  {
    var step := Solve(pool, coercions, solved, ps[0], args[0]);
    assert ps[..k + 1][1..] == ps[1..][..k] && args[..k + 1][1..] == args[1..][..k];
    if k > 0 {
      assert ps[..k][1..] == ps[1..][..k - 1] && args[..k][1..] == args[1..][..k - 1];
      if step.Ok? {
        PairsInTurn(pool, coercions, step.value, ps[1..], args[1..], passedBound, argBound, k - 1);
      }
    }
  }

  /** Of lists of different lengths, what is left over of the longer one is ignored. */
  lemma {:induction false} RestIgnored(pool: seq<Node>, coercions: Coercions, solved: seq<TypeParam>, ps: seq<TypeId>,
                                       args: seq<TypeId>, passedBound: TypeId, argBound: TypeId, n: nat)
    requires Listed(pool, ps, args, passedBound, argBound) && n == (if |ps| < |args| then |ps| else |args|)
    ensures SolveIds(pool, coercions, solved, ps, args, passedBound, argBound) ==
      SolveIds(pool, coercions, solved, ps[..n], args[..n], passedBound, argBound)
    decreases n
  {
    if n > 0 {
      var step := Solve(pool, coercions, solved, ps[0], args[0]);
      assert ps[..n][1..] == ps[1..][..n - 1] && args[..n][1..] == args[1..][..n - 1];
      if step.Ok? { RestIgnored(pool, coercions, step.value, ps[1..], args[1..], passedBound, argBound, n - 1); }
    }
  }

  /** Fields before position k have the same names pairwise, and those at k, if any, do not. */
  ghost predicate DifferAt(ps: seq<Ident>, fs: seq<Ident>, k: nat) {
    && k <= |ps| == |fs| && (forall j :: 0 <= j < k ==> ps[j] == fs[j])
    && (k < |fs| ==> ps[k] != fs[k])
  }

  ghost function FieldNames(fs: seq<Field>): (r: seq<Ident>)
    ensures |r| == |fs| && forall k :: 0 <= k < |fs| ==> r[k] == fs[k].name
  {
    seq(|fs|, k requires 0 <= k < |fs| => fs[k].name)
  }

  /** Struct fields are matched as long as their names agree. */
  lemma {:induction false} FieldsUpToDifference(pool: seq<Node>, coercions: Coercions, solved: seq<TypeParam>,
                                                ps: seq<Field>, fs: seq<Field>, passedBound: TypeId, argBound: TypeId,
                                                k: nat)
    requires Listed(pool, FieldIds(ps), FieldIds(fs), passedBound, argBound)
    requires DifferAt(FieldNames(ps), FieldNames(fs), k)
    requires forall j :: 0 <= j < |ps| ==> ps[j].typeId < passedBound && fs[j].typeId < argBound
    ensures SolveFields(pool, coercions, solved, ps, fs, passedBound, argBound) ==
      SolveIds(pool, coercions, solved, FieldIds(ps[..k]), FieldIds(fs[..k]), passedBound, argBound)
    decreases k
  {
    if k > 0 {
      assert FieldNames(ps)[0] == FieldNames(fs)[0];
      var step := Solve(pool, coercions, solved, ps[0].typeId, fs[0].typeId);
      assert FieldIds(ps[..k])[1..] == FieldIds(ps[1..][..k - 1]);
      assert FieldIds(fs[..k])[1..] == FieldIds(fs[1..][..k - 1]);
      assert FieldNames(ps)[1..] == FieldNames(ps[1..]) && FieldNames(fs)[1..] == FieldNames(fs[1..]);
      if step.Ok? {
        FieldsUpToDifference(pool, coercions, step.value, ps[1..], fs[1..], passedBound, argBound, k - 1);
      }
    } else if fs != [] {
      assert FieldNames(ps)[0] != FieldNames(fs)[0];
    }
  }

  /** The variants before position k agree pairwise: a passed payload has a payload to be matched with. */
  ghost predicate PayloadsDifferAt(ps: seq<Variant>, vs: seq<Variant>, k: nat) {
    && k <= |ps| == |vs| && (forall j :: 0 <= j < k ==> VariantsAgree(ps[j], vs[j]))
    && (k < |vs| ==> !VariantsAgree(ps[k], vs[k]))
  }

  ghost predicate VariantsAgree(p: Variant, v: Variant) {
    p.name == v.name && (p.payload.Some? ==> v.payload.Some?)
  }

  /** The payloads of the passed variants that have one, and those of their partners. */
  ghost function Partners(ps: seq<Variant>, vs: seq<Variant>): (r: (seq<TypeId>, seq<TypeId>))
    requires |ps| == |vs|
    ensures |r.0| == |r.1|
  {
    if ps == [] then ([], [])
    else
      var rest := Partners(ps[1..], vs[1..]);
      if ps[0].payload.Some? && vs[0].payload.Some?
      then ([ps[0].payload.value] + rest.0, [vs[0].payload.value] + rest.1) else rest
  }

  lemma {:induction false} PartnersBelow(ps: seq<Variant>, vs: seq<Variant>, passedBound: TypeId, argBound: TypeId)
    requires |ps| == |vs| && PayloadsBelow(ps, passedBound) && PayloadsBelow(vs, argBound)
    ensures forall k :: 0 <= k < |Partners(ps, vs).0| ==>
      Partners(ps, vs).0[k] < passedBound && Partners(ps, vs).1[k] < argBound
  {
    if ps != [] { PartnersBelow(ps[1..], vs[1..], passedBound, argBound); }
  }

  /** Enum variants are matched as long as their names agree and no passed payload is left without a partner. */
  lemma {:induction false} VariantsUpToDifference(pool: seq<Node>, coercions: Coercions, solved: seq<TypeParam>,
                                                  ps: seq<Variant>, vs: seq<Variant>, passedBound: TypeId,
                                                  argBound: TypeId, k: nat)
    requires Below(pool) && Placement(pool) && passedBound <= |pool| && argBound <= |pool|
    requires PayloadsDifferAt(ps, vs, k) && PayloadsBelow(ps, passedBound) && PayloadsBelow(vs, argBound)
    ensures var pairs := Partners(ps[..k], vs[..k]);
      && Listed(pool, pairs.0, pairs.1, passedBound, argBound)
      && SolveVariants(pool, coercions, solved, ps, vs, passedBound, argBound) ==
           SolveIds(pool, coercions, solved, pairs.0, pairs.1, passedBound, argBound)
    decreases k
  {
    PartnersBelow(ps[..k], vs[..k], passedBound, argBound);
    if k > 0 {
      assert VariantsAgree(ps[0], vs[0]);
      assert ps[..k][1..] == ps[1..][..k - 1] && vs[..k][1..] == vs[1..][..k - 1];
      if ps[0].payload.None? {
        VariantsUpToDifference(pool, coercions, solved, ps[1..], vs[1..], passedBound, argBound, k - 1);
      } else {
        var step := Solve(pool, coercions, solved, ps[0].payload.value, vs[0].payload.value);
        if step.Ok? {
          VariantsUpToDifference(pool, coercions, step.value, ps[1..], vs[1..], passedBound, argBound, k - 1);
        }
      }
    }
  }

  // ---------- the whole match ----------

  ghost predicate BothInstances(pool: seq<Node>, passed: TypeId, arg: TypeId)
    requires Placement(pool) && passed < |pool| && arg < |pool|
  {
    InstanceInfo(pool, passed).Some? && InstanceInfo(pool, arg).Some?
  }

  /** A variable with a solution takes the passed type only if that is the solution or may stand for it; a variable
      without one gets the passed type. */
  lemma VariableSolvedOnce(pool: seq<Node>, coercions: Coercions, solved: seq<TypeParam>, passed: TypeId, arg: TypeId)
    requires Below(pool) && Placement(pool) && passed < |pool| && arg < |pool| && pool[arg].TypeVariable?
    ensures forall k: nat :: IsFirst(solved, pool[arg].name, k) ==>
      var was := solved[k].typeId;
      Solve(pool, coercions, solved, passed, arg) ==
        if was == passed || (was, passed) in coercions then Ok(solved) else Err
    ensures (forall k: nat :: !IsFirst(solved, pool[arg].name, k)) ==>
      Solve(pool, coercions, solved, passed, arg) == Ok(solved + [TypeParam(pool[arg].name, passed)])
  {
  }

  /** Instances of one generic are matched by their arguments, those of different generics not at all. */
  lemma InstancesByArguments(pool: seq<Node>, coercions: Coercions, solved: seq<TypeParam>, passed: TypeId, arg: TypeId)
    requires Below(pool) && Placement(pool) && passed < |pool| && arg < |pool| && BothInstances(pool, passed, arg)
    ensures var p, a := InstanceInfo(pool, passed).value, InstanceInfo(pool, arg).value;
      && Listed(pool, p.args, a.args, |pool|, arg)
      && Solve(pool, coercions, solved, passed, arg) ==
           if p.parent == a.parent then SolveIds(pool, coercions, solved, p.args, a.args, |pool|, arg) else Ok(solved)
  {
    InstanceInfoBelow(pool, passed);
    InstanceInfoBelow(pool, arg);
  }

  /** Structs with equally many fields are matched up to the first name that differs, others not at all. */
  lemma StructsUpToDifference(pool: seq<Node>, coercions: Coercions, solved: seq<TypeParam>, passed: TypeId,
                              arg: TypeId, k: nat)
    requires Below(pool) && Placement(pool) && passed < |pool| && arg < |pool| && !BothInstances(pool, passed, arg)
    requires pool[passed].Struct? && pool[arg].Struct?
    ensures var ps, fs := pool[passed].fields, pool[arg].fields;
      && (|ps| != |fs| ==> Solve(pool, coercions, solved, passed, arg) == Ok(solved))
      && (DifferAt(FieldNames(ps), FieldNames(fs), k) ==>
           Listed(pool, FieldIds(ps[..k]), FieldIds(fs[..k]), passed, arg)
           && Solve(pool, coercions, solved, passed, arg) ==
                SolveIds(pool, coercions, solved, FieldIds(ps[..k]), FieldIds(fs[..k]), passed, arg))
  {
    var ps, fs := pool[passed].fields, pool[arg].fields;
    assert ChildrenBelow(pool[passed], passed) && ChildrenBelow(pool[arg], arg);
    if DifferAt(FieldNames(ps), FieldNames(fs), k) {
      FieldsUpToDifference(pool, coercions, solved, ps, fs, passed, arg, k);
    }
  }

  /** The same for enums, where a passed payload without a partner is a difference too. */
  lemma EnumsUpToDifference(pool: seq<Node>, coercions: Coercions, solved: seq<TypeParam>, passed: TypeId,
                            arg: TypeId, k: nat)
    requires Below(pool) && Placement(pool) && passed < |pool| && arg < |pool| && !BothInstances(pool, passed, arg)
    requires pool[passed].Enum? && pool[arg].Enum?
    ensures var ps, vs := pool[passed].variants, pool[arg].variants;
      && (|ps| != |vs| ==> Solve(pool, coercions, solved, passed, arg) == Ok(solved))
      && (PayloadsDifferAt(ps, vs, k) ==>
           var pairs := Partners(ps[..k], vs[..k]);
           Listed(pool, pairs.0, pairs.1, passed, arg)
           && Solve(pool, coercions, solved, passed, arg) ==
                SolveIds(pool, coercions, solved, pairs.0, pairs.1, passed, arg))
  {
    var ps, vs := pool[passed].variants, pool[arg].variants;
    assert ChildrenBelow(pool[passed], passed) && ChildrenBelow(pool[arg], arg);
    if PayloadsDifferAt(ps, vs, k) {
      VariantsUpToDifference(pool, coercions, solved, ps, vs, passed, arg, k);
    }
  }

  /** Types of different kinds reveal nothing, unless a variant meets an enum. */
  lemma OtherKindsRevealNothing(pool: seq<Node>, coercions: Coercions, solved: seq<TypeParam>, passed: TypeId,
                                arg: TypeId)
    requires Below(pool) && Placement(pool) && passed < |pool| && arg < |pool| && !BothInstances(pool, passed, arg)
    requires !pool[arg].TypeVariable? && (pool[arg].Reference? ==> !pool[passed].Reference?)
    requires (pool[arg].Struct? ==> !pool[passed].Struct?)
    requires (pool[arg].Enum? ==> !pool[passed].Enum? && !pool[passed].EnumVariant?)
    ensures Solve(pool, coercions, solved, passed, arg) == Ok(solved)
  {
  }
}
