/** Type arguments of a call to a generic function: inferred from the arguments, checked, and used to find the
    specialised function. */
module CallInference {
  import opened Wrappers
  import opened TypePool
  import opened GenericInvariants
  import opened Inference
  import opened InferenceInverts

  /** A generic function's type parameters, in the order in which they are declared, and its types. */
  datatype Signature = Signature(typeParams: seq<Ident>, params: seq<TypeId>, ret: TypeId)

  /** The argument given for a parameter: none, one that cannot be typed before the type arguments are known, or one
      of some type. */
  datatype Arg = Missing | Unevaluated | Evaluated(typeId: TypeId)

  ghost predicate InPool(pool: seq<Node>, sig: Signature, args: seq<Arg>, expected: Option<TypeId>) {
    && Below(pool) && Placement(pool) && |args| == |sig.params| && sig.ret < |pool|
    && (forall k :: 0 <= k < |args| ==> sig.params[k] < |pool| && (args[k].Evaluated? ==> args[k].typeId < |pool|))
    && (expected.Some? ==> expected.value < |pool|)
  }

  // ---------- the argument loop ----------

  /** What argument k adds to the solutions. */
  function ArgStep(pool: seq<Node>, coercions: Coercions, sig: Signature, args: seq<Arg>, k: nat,
                   solved: seq<TypeParam>): Result<seq<TypeParam>>
    requires InPool(pool, sig, args, None) && k < |args|
  {
    match args[k]
    case Missing => Err
    case Unevaluated => Ok(solved)
    case Evaluated(t) => Solve(pool, coercions, solved, t, sig.params[k])
  }

  /** The loop from argument k on, which stops as soon as there are enough solutions. */
  function ArgLoop(pool: seq<Node>, coercions: Coercions, sig: Signature, args: seq<Arg>, k: nat,
                   solved: seq<TypeParam>): Result<seq<TypeParam>>
    requires InPool(pool, sig, args, None) && k <= |args|
    decreases |args| - k
  {
    if k == |args| then Ok(solved)
    else
      var step := ArgStep(pool, coercions, sig, args, k, solved);
      if step.Err? || |step.value| == |sig.typeParams| then step
      else ArgLoop(pool, coercions, sig, args, k + 1, step.value)
  }

  /** With solutions still missing the expected type is matched against the return type. */
  function WithExpected(pool: seq<Node>, coercions: Coercions, sig: Signature, expected: Option<TypeId>,
                        solved: seq<TypeParam>): Result<seq<TypeParam>>
    requires Below(pool) && Placement(pool) && sig.ret < |pool| && (expected.Some? ==> expected.value < |pool|)
  {
    var more :=
      if |solved| < |sig.typeParams| && expected.Some? then Solve(pool, coercions, solved, expected.value, sig.ret)
      else Ok(solved);
    if more.Err? || |more.value| < |sig.typeParams| then Err else more
  }

  function Infer(pool: seq<Node>, coercions: Coercions, sig: Signature, args: seq<Arg>,
                 expected: Option<TypeId>): Result<seq<TypeParam>>
    requires InPool(pool, sig, args, expected)
  {
    var solved := ArgLoop(pool, coercions, sig, args, 0, []);
    if solved.Err? then Err else WithExpected(pool, coercions, sig, expected, solved.value)
  }

  method InferCallTypeArgs(pool: seq<Node>, coercions: Coercions, sig: Signature, args: seq<Arg>,
                           expected: Option<TypeId>)
    returns (r: Result<seq<TypeParam>>)
    requires InPool(pool, sig, args, expected)
    ensures r == Infer(pool, coercions, sig, args, expected)
  {
    var solved: seq<TypeParam> := [];
    var k := 0;
    ghost var target := ArgLoop(pool, coercions, sig, args, 0, []);
    var enough := false;
    while k < |args| && !enough
      invariant k <= |args|
      invariant if enough then Ok(solved) == target else ArgLoop(pool, coercions, sig, args, k, solved) == target
      decreases |args| - k, !enough
    {
      match args[k] {
        case Missing => return Err;
        case Unevaluated =>
        case Evaluated(t) =>
          var step := SolveGenericParams(pool, coercions, solved, t, sig.params[k]);
          if step.Err? {
            return Err;
          }
          solved := step.value;
      }
      enough := |solved| == |sig.typeParams|;
      k := k + 1;
    }
    if |solved| < |sig.typeParams| && expected.Some? {
      var step := SolveGenericParams(pool, coercions, solved, expected.value, sig.ret);
      if step.Err? {
        return Err;
      }
      solved := step.value;
    }
    r := if |solved| < |sig.typeParams| then Err else Ok(solved);
  }

  // ---------- which calls are inferred ----------

  ghost predicate DistinctNames(names: seq<Ident>) {
    forall i, j :: 0 <= i < j < |names| ==> names[i] != names[j]
  }

  /** The only variables of the type are the function's own type parameters. */
  ghost predicate OwnVariables(sig: Signature, scope: ScopeId, t: Tree) {
    forall n, s :: HasVar(TVar(n, s), t) ==> n in sig.typeParams && s == scope
  }

  ghost predicate SignatureOk(pool: seq<Node>, sig: Signature, scope: ScopeId)
    requires Below(pool) && sig.ret < |pool| && forall k :: 0 <= k < |sig.params| ==> sig.params[k] < |pool|
  {
    && sig.typeParams != [] && DistinctNames(sig.typeParams)
    && (forall k :: 0 <= k < |sig.params| ==> OwnVariables(sig, scope, Den(pool, sig.params[k])))
    && OwnVariables(sig, scope, Den(pool, sig.ret))
  }

  /** A call whose arguments and expected type, if any, have types that come from the signature by one substitution, or
      variants of such enum types. */
  ghost predicate CallFits(pool: seq<Node>, sig: Signature, args: seq<Arg>, expected: Option<TypeId>, keys: seq<Tree>,
                           vals: seq<Tree>)
    requires InPool(pool, sig, args, expected)
  {
    && |keys| <= |vals|
    && (forall k :: 0 <= k < |args| && args[k].Evaluated? ==>
      PassedAs(pool, args[k].typeId, sig.params[k], SubstTree(Den(pool, sig.params[k]), keys, vals)))
    && (expected.Some? ==>
      PassedAs(pool, expected.value, sig.ret, SubstTree(Den(pool, sig.ret), keys, vals)))
  }

  /** The name is met in the parameter of one of the first k arguments that could be typed. */
  ghost predicate SeenBefore(pool: seq<Node>, sig: Signature, args: seq<Arg>, k: nat, n: Ident)
    requires InPool(pool, sig, args, None) && k <= |args|
  {
    exists j :: 0 <= j < k && args[j].Evaluated? && Seen(n, Den(pool, sig.params[j]))
  }

  ghost predicate SeenInCall(pool: seq<Node>, sig: Signature, args: seq<Arg>, expected: Option<TypeId>, n: Ident)
    requires InPool(pool, sig, args, expected)
  {
    SeenBefore(pool, sig, args, |args|, n) || (expected.Some? && Seen(n, Den(pool, sig.ret)))
  }

  /** What the type parameters stand for. */
  ghost function Meant(scope: ScopeId, keys: seq<Tree>, vals: seq<Tree>): imap<Ident, Tree>
    requires |keys| <= |vals|
  {
    imap n: Ident | true :: Lookup(TVar(n, scope), keys, vals)
  }

  /** One entry for each type parameter, and it denotes what the parameter stands for. */
  ghost predicate Solves(pool: seq<Node>, sig: Signature, scope: ScopeId, solved: seq<TypeParam>, keys: seq<Tree>,
                         vals: seq<Tree>)
    requires Below(pool) && |keys| <= |vals|
  {
    && SolvedOk(pool, solved, Meant(scope, keys, vals)) && |solved| == |sig.typeParams|
    && forall n :: Named(solved, n) <==> n in sig.typeParams
  }

  lemma {:induction false} OwnAgree(sig: Signature, scope: ScopeId, t: Tree, keys: seq<Tree>, vals: seq<Tree>)
    requires OwnVariables(sig, scope, t) && |keys| <= |vals|
    ensures Agrees(t, keys, vals, Meant(scope, keys, vals))
  {
    AgreesOnVars(t, keys, vals, Meant(scope, keys, vals));
  }

  lemma {:induction false} SeenIsOwn(sig: Signature, scope: ScopeId, t: Tree, n: Ident)
    requires OwnVariables(sig, scope, t) && Seen(n, t)
    ensures n in sig.typeParams
  {
    SeenOccurs(n, t);
    var s := OccursAsVar(n, t);
  }

  /** The names met in the parameters of the first k arguments, in order. */
  ghost function VisitBefore(pool: seq<Node>, sig: Signature, args: seq<Arg>, k: nat): seq<Ident>
    requires InPool(pool, sig, args, None) && k <= |args|
  {
    if k == 0 then []
    else
      VisitBefore(pool, sig, args, k - 1) +
        if args[k - 1].Evaluated? then Visit(Den(pool, sig.params[k - 1])) else []
  }

  /** The names met in a call, in order. */
  ghost function VisitCall(pool: seq<Node>, sig: Signature, args: seq<Arg>, expected: Option<TypeId>): seq<Ident>
    requires InPool(pool, sig, args, expected)
  {
    VisitBefore(pool, sig, args, |args|) + if expected.Some? then Visit(Den(pool, sig.ret)) else []
  }

  lemma {:induction false} VisitedBefore(pool: seq<Node>, sig: Signature, args: seq<Arg>, k: nat, n: Ident)
    requires InPool(pool, sig, args, None) && k <= |args|
    ensures n in VisitBefore(pool, sig, args, k) <==> SeenBefore(pool, sig, args, k, n)
  {
    if k > 0 {
      VisitedBefore(pool, sig, args, k - 1, n);
      VisitedIsSeen(Den(pool, sig.params[k - 1]), n);
    }
  }

  /** The solutions so far: the right ones, for exactly the names met, in the order in which they were met first. */
  ghost predicate SolvedBefore(pool: seq<Node>, sig: Signature, scope: ScopeId, args: seq<Arg>, k: nat,
                               solved: seq<TypeParam>, keys: seq<Tree>, vals: seq<Tree>)
    requires InPool(pool, sig, args, None) && k <= |args| && |keys| <= |vals|
  {
    && SolvedOk(pool, solved, Meant(scope, keys, vals))
    && NamesOf(solved) == Merge([], VisitBefore(pool, sig, args, k))
  }

  lemma {:induction false} SolvedNames(pool: seq<Node>, sig: Signature, scope: ScopeId, args: seq<Arg>, k: nat,
                                       solved: seq<TypeParam>, keys: seq<Tree>, vals: seq<Tree>, n: Ident)
    requires InPool(pool, sig, args, None) && k <= |args| && |keys| <= |vals|
    requires SolvedBefore(pool, sig, scope, args, k, solved, keys, vals)
    ensures Named(solved, n) <==> SeenBefore(pool, sig, args, k, n)
  {
    NamedInNames(solved, n);
    InMerge([], VisitBefore(pool, sig, args, k), n);
    VisitedBefore(pool, sig, args, k, n);
  }

  lemma {:induction false} NextSolved(pool: seq<Node>, specs: map<Instance, TypeId>, coercions: Coercions,
                                      sig: Signature, scope: ScopeId, args: seq<Arg>, k: nat, solved: seq<TypeParam>,
                                      keys: seq<Tree>, vals: seq<Tree>)
    requires GoodPool(pool, specs, None) && InPool(pool, sig, args, None) && SignatureOk(pool, sig, scope)
    requires CallFits(pool, sig, args, None, keys, vals) && k < |args| && !args[k].Missing?
    requires SolvedBefore(pool, sig, scope, args, k, solved, keys, vals)
    ensures var step := ArgStep(pool, coercions, sig, args, k, solved);
      step.Ok? && SolvedBefore(pool, sig, scope, args, k + 1, step.value, keys, vals)
  {
    var before := VisitBefore(pool, sig, args, k);
    if args[k].Evaluated? {
      var t := Den(pool, sig.params[k]);
      OwnAgree(sig, scope, t, keys, vals);
      PassedInverts(pool, specs, coercions, solved, args[k].typeId, sig.params[k], keys, vals,
        Meant(scope, keys, vals));
      MergeConcat([], before, Visit(t));
    } else {
      assert VisitBefore(pool, sig, args, k + 1) == before;
    }
  }

  // ---------- counting solutions ----------

  ghost function NameSet(names: seq<Ident>): set<Ident> {
    set n | n in names
  }

  lemma {:induction false} DistinctCount(names: seq<Ident>)
    requires DistinctNames(names)
    ensures |NameSet(names)| == |names|
  {
    if names != [] {
      var front, last := names[..|names| - 1], names[|names| - 1];
      DistinctCount(front);
      assert NameSet(names) == NameSet(front) + {last} && last !in NameSet(front);
    }
  }

  /** Distinct solutions for type parameters are never too many, and enough of them cover all. */
  lemma {:induction false} EnoughMeansAll(typeParams: seq<Ident>, solved: seq<TypeParam>)
    requires DistinctNames(typeParams) && DistinctNames(NamesOf(solved))
    requires forall n :: Named(solved, n) ==> n in typeParams
    ensures |solved| <= |typeParams|
    ensures |solved| == |typeParams| <==> forall n :: n in typeParams ==> Named(solved, n)
  {
    var a, b := NameSet(NamesOf(solved)), NameSet(typeParams);
    DistinctCount(NamesOf(solved));
    DistinctCount(typeParams);
    forall n ensures Named(solved, n) <==> n in a { NamedInNames(solved, n); }
    assert b == a + (b - a);
    assert |b| == |a| + |b - a|;
    if |a| == |b| {
      assert b - a == {};
      forall n | n in typeParams ensures Named(solved, n) { assert n in b; }
    }
    if forall n :: n in typeParams ==> Named(solved, n) {
      assert b <= a;
      assert b - a == {};
    }
  }

  lemma {:induction false} OkNames(pool: seq<Node>, solved: seq<TypeParam>, asg: imap<Ident, Tree>)
    requires Below(pool) && SolvedOk(pool, solved, asg)
    ensures DistinctNames(NamesOf(solved))
  {
  }

  // ---------- the main result ----------

  lemma {:induction false} BeforeIsOwn(pool: seq<Node>, sig: Signature, scope: ScopeId, args: seq<Arg>, k: nat,
                                       solved: seq<TypeParam>, keys: seq<Tree>, vals: seq<Tree>)
    requires InPool(pool, sig, args, None) && SignatureOk(pool, sig, scope) && k <= |args| && |keys| <= |vals|
    requires SolvedBefore(pool, sig, scope, args, k, solved, keys, vals)
    ensures forall n :: Named(solved, n) ==> n in sig.typeParams
    ensures DistinctNames(NamesOf(solved))
  {
    OkNames(pool, solved, Meant(scope, keys, vals));
    forall n | Named(solved, n) ensures n in sig.typeParams {
      SolvedNames(pool, sig, scope, args, k, solved, keys, vals, n);
      var j :| 0 <= j < k && args[j].Evaluated? && Seen(n, Den(pool, sig.params[j]));
      SeenIsOwn(sig, scope, Den(pool, sig.params[j]), n);
    }
  }

  /** An argument is missing although some type parameter has not been met before it. */
  ghost predicate MissingInTime(pool: seq<Node>, sig: Signature, args: seq<Arg>, k: nat)
    requires InPool(pool, sig, args, None)
  {
    k < |args| && args[k].Missing? && exists n :: n in sig.typeParams && !SeenBefore(pool, sig, args, k, n)
  }

  /** The loop is still running: no argument has been missing, and there are not enough solutions. */
  ghost predicate Running(sig: Signature, args: seq<Arg>, k: nat, solved: seq<TypeParam>) {
    k <= |args| && |solved| < |sig.typeParams| && forall j :: 0 <= j < k ==> !args[j].Missing?
  }

  lemma {:induction false} UnmetWhileRunning(pool: seq<Node>, sig: Signature, scope: ScopeId, args: seq<Arg>, k: nat,
                                             solved: seq<TypeParam>, keys: seq<Tree>, vals: seq<Tree>)
    requires InPool(pool, sig, args, None) && SignatureOk(pool, sig, scope) && k < |args| && |keys| <= |vals|
    requires SolvedBefore(pool, sig, scope, args, k, solved, keys, vals) && Running(sig, args, k, solved)
    ensures args[k].Missing? ==> MissingInTime(pool, sig, args, k)
  {
    BeforeIsOwn(pool, sig, scope, args, k, solved, keys, vals);
    EnoughMeansAll(sig.typeParams, solved);
    var n :| n in sig.typeParams && !Named(solved, n);
    SolvedNames(pool, sig, scope, args, k, solved, keys, vals, n);
  }

  lemma {:induction false} NeverTooMany(pool: seq<Node>, sig: Signature, scope: ScopeId, args: seq<Arg>, k: nat,
                                        solved: seq<TypeParam>, keys: seq<Tree>, vals: seq<Tree>)
    requires InPool(pool, sig, args, None) && SignatureOk(pool, sig, scope) && k <= |args| && |keys| <= |vals|
    requires SolvedBefore(pool, sig, scope, args, k, solved, keys, vals)
    ensures |solved| <= |sig.typeParams|
  {
    BeforeIsOwn(pool, sig, scope, args, k, solved, keys, vals);
    EnoughMeansAll(sig.typeParams, solved);
  }

  /** Once all type parameters are solved no missing argument matters. */
  lemma {:induction false} NoneMissingInTime(pool: seq<Node>, sig: Signature, scope: ScopeId, args: seq<Arg>, k: nat,
                                             solved: seq<TypeParam>, keys: seq<Tree>, vals: seq<Tree>)
    requires InPool(pool, sig, args, None) && SignatureOk(pool, sig, scope) && k <= |args| && |keys| <= |vals|
    requires SolvedBefore(pool, sig, scope, args, k, solved, keys, vals)
    requires (|solved| == |sig.typeParams| || k == |args|) && forall j :: 0 <= j < k ==> !args[j].Missing?
    ensures forall j :: !MissingInTime(pool, sig, args, j)
  {
    BeforeIsOwn(pool, sig, scope, args, k, solved, keys, vals);
    EnoughMeansAll(sig.typeParams, solved);
    forall j, n | k <= j < |args| && n in sig.typeParams ensures SeenBefore(pool, sig, args, j, n) {
      SolvedNames(pool, sig, scope, args, k, solved, keys, vals, n);
    }
  }

  /** The loop ends with the right solutions for exactly the names met, or for all type parameters; it fails exactly at
      an argument missing in time. */
  ghost predicate LoopEnds(pool: seq<Node>, sig: Signature, scope: ScopeId, args: seq<Arg>,
                           r: Result<seq<TypeParam>>, keys: seq<Tree>, vals: seq<Tree>)
    requires InPool(pool, sig, args, None) && |keys| <= |vals|
  {
    && (r.Err? <==> exists j :: MissingInTime(pool, sig, args, j))
    && (r.Ok? ==> SolvedBefore(pool, sig, scope, args, |args|, r.value, keys, vals))
  }

  lemma {:induction false} LoopStops(pool: seq<Node>, sig: Signature, scope: ScopeId, args: seq<Arg>, k: nat,
                                     solved: seq<TypeParam>, keys: seq<Tree>, vals: seq<Tree>)
    requires InPool(pool, sig, args, None) && SignatureOk(pool, sig, scope) && k <= |args| && |keys| <= |vals|
    requires SolvedBefore(pool, sig, scope, args, k, solved, keys, vals)
    requires (|solved| == |sig.typeParams| || k == |args|) && forall j :: 0 <= j < k ==> !args[j].Missing?
    ensures LoopEnds(pool, sig, scope, args, Ok(solved), keys, vals)
  {
    NoneMissingInTime(pool, sig, scope, args, k, solved, keys, vals);
    if k < |args| { StoppedEarly(pool, sig, scope, args, k, solved, keys, vals); }
  }

  ghost predicate StepKeeps(pool: seq<Node>, coercions: Coercions, sig: Signature, args: seq<Arg>, k: nat,
                            solved: seq<TypeParam>, good: (nat, seq<TypeParam>) -> bool)
    requires InPool(pool, sig, args, None)
  {
    k < |args| && good(k, solved) && !args[k].Missing? ==>
      var step := ArgStep(pool, coercions, sig, args, k, solved);
      step.Ok? && good(k + 1, step.value) && |step.value| <= |sig.typeParams|
  }

  /** The loop goes on until there are enough solutions or an argument is missing, and keeps whatever each step
      keeps. */
  lemma {:induction false} LoopRuns(pool: seq<Node>, coercions: Coercions, sig: Signature, args: seq<Arg>, k: nat,
                                    solved: seq<TypeParam>, good: (nat, seq<TypeParam>) -> bool)
    returns (end: nat, last: seq<TypeParam>)
    requires InPool(pool, sig, args, None) && Running(sig, args, k, solved) && good(k, solved)
    requires forall j: nat, s: seq<TypeParam> :: StepKeeps(pool, coercions, sig, args, j, s, good)
    ensures end <= |args| && good(end, last) && forall j :: 0 <= j < end ==> !args[j].Missing?
    ensures if end < |args| && |last| < |sig.typeParams|
      then args[end].Missing? && ArgLoop(pool, coercions, sig, args, k, solved) == Err
      else ArgLoop(pool, coercions, sig, args, k, solved) == Ok(last) && |last| <= |sig.typeParams|
    decreases |args| - k
  {
    if k == |args| || args[k].Missing? {
      end, last := k, solved;
    } else {
      assert StepKeeps(pool, coercions, sig, args, k, solved, good);
      var step := ArgStep(pool, coercions, sig, args, k, solved).value;
      if |step| == |sig.typeParams| {
        end, last := k + 1, step;
      } else {
        end, last := LoopRuns(pool, coercions, sig, args, k + 1, step, good);
      }
    }
  }

  lemma {:induction false} LoopSolves(pool: seq<Node>, specs: map<Instance, TypeId>, coercions: Coercions,
                                      sig: Signature, scope: ScopeId, args: seq<Arg>, keys: seq<Tree>, vals: seq<Tree>)
    requires GoodPool(pool, specs, None) && InPool(pool, sig, args, None) && SignatureOk(pool, sig, scope)
    requires CallFits(pool, sig, args, None, keys, vals)
    ensures LoopEnds(pool, sig, scope, args, ArgLoop(pool, coercions, sig, args, 0, []), keys, vals)
  {
    var good := (j: nat, s: seq<TypeParam>) => j <= |args| && SolvedBefore(pool, sig, scope, args, j, s, keys, vals);
    forall j: nat, s: seq<TypeParam> ensures StepKeeps(pool, coercions, sig, args, j, s, good) {
      if j < |args| && good(j, s) && !args[j].Missing? {
        NextSolved(pool, specs, coercions, sig, scope, args, j, s, keys, vals);
        NeverTooMany(pool, sig, scope, args, j + 1, ArgStep(pool, coercions, sig, args, j, s).value, keys, vals);
      }
    }
    assert VisitBefore(pool, sig, args, 0) == [];
    var end, last := LoopRuns(pool, coercions, sig, args, 0, [], good);
    if end < |args| && |last| < |sig.typeParams| {
      UnmetWhileRunning(pool, sig, scope, args, end, last, keys, vals);
    } else {
      LoopStops(pool, sig, scope, args, end, last, keys, vals);
    }
  }

  /** With all type parameters solved, the remaining arguments could only name them again. */
  lemma {:induction false} StoppedEarly(pool: seq<Node>, sig: Signature, scope: ScopeId, args: seq<Arg>, k: nat,
                                        solved: seq<TypeParam>, keys: seq<Tree>, vals: seq<Tree>)
    requires InPool(pool, sig, args, None) && SignatureOk(pool, sig, scope) && k <= |args| && |keys| <= |vals|
    requires SolvedBefore(pool, sig, scope, args, k, solved, keys, vals) && |solved| == |sig.typeParams|
    ensures SolvedBefore(pool, sig, scope, args, |args|, solved, keys, vals)
  {
    BeforeIsOwn(pool, sig, scope, args, k, solved, keys, vals);
    EnoughMeansAll(sig.typeParams, solved);
    NothingMoreMet(pool, sig, scope, args, k, |args|, solved);
  }

  lemma {:induction false} MergeNothing(names: seq<Ident>, visit: seq<Ident>)
    requires forall k :: 0 <= k < |visit| ==> visit[k] in names
    ensures Merge(names, visit) == names
    decreases |visit|
  {
    if visit != [] { MergeNothing(names, visit[1..]); }
  }

  lemma {:induction false} NothingMoreMet(pool: seq<Node>, sig: Signature, scope: ScopeId, args: seq<Arg>, k: nat,
                                          j: nat, solved: seq<TypeParam>)
    requires InPool(pool, sig, args, None) && SignatureOk(pool, sig, scope) && k <= j <= |args|
    requires NamesOf(solved) == Merge([], VisitBefore(pool, sig, args, k))
    requires forall n :: n in sig.typeParams ==> Named(solved, n)
    ensures NamesOf(solved) == Merge([], VisitBefore(pool, sig, args, j))
    decreases j
  {
    if k < j {
      NothingMoreMet(pool, sig, scope, args, k, j - 1, solved);
      NothingMetAt(pool, sig, scope, args, j - 1, solved);
    }
  }

  lemma {:induction false} NothingMetAt(pool: seq<Node>, sig: Signature, scope: ScopeId, args: seq<Arg>, j: nat,
                                        solved: seq<TypeParam>)
    requires InPool(pool, sig, args, None) && SignatureOk(pool, sig, scope) && j < |args|
    requires NamesOf(solved) == Merge([], VisitBefore(pool, sig, args, j))
    requires forall n :: n in sig.typeParams ==> Named(solved, n)
    ensures NamesOf(solved) == Merge([], VisitBefore(pool, sig, args, j + 1))
  {
    var before := VisitBefore(pool, sig, args, j);
    if args[j].Evaluated? {
      var t := Den(pool, sig.params[j]);
      OwnVisitMerged(sig, scope, t, solved);
      MergeConcat([], before, Visit(t));
    } else {
      assert VisitBefore(pool, sig, args, j + 1) == before + [] == before;
    }
  }

  lemma {:induction false} OwnVisitMerged(sig: Signature, scope: ScopeId, t: Tree, solved: seq<TypeParam>)
    requires OwnVariables(sig, scope, t) && forall n :: n in sig.typeParams ==> Named(solved, n)
    ensures Merge(NamesOf(solved), Visit(t)) == NamesOf(solved)
  {
    forall k | 0 <= k < |Visit(t)| ensures Visit(t)[k] in NamesOf(solved) {
      VisitedIsSeen(t, Visit(t)[k]);
      SeenIsOwn(sig, scope, t, Visit(t)[k]);
      NamedInNames(solved, Visit(t)[k]);
    }
    MergeNothing(NamesOf(solved), Visit(t));
  }

  lemma {:induction false} ArgumentsSolve(pool: seq<Node>, sig: Signature, scope: ScopeId, args: seq<Arg>,
                                          expected: Option<TypeId>, solved: seq<TypeParam>, keys: seq<Tree>,
                                          vals: seq<Tree>)
    requires InPool(pool, sig, args, expected) && SignatureOk(pool, sig, scope) && |keys| <= |vals|
    requires SolvedBefore(pool, sig, scope, args, |args|, solved, keys, vals)
    requires |solved| >= |sig.typeParams| || expected.None?
    ensures |solved| <= |sig.typeParams|
    ensures |solved| == |sig.typeParams| <==>
      forall n :: n in sig.typeParams ==> SeenInCall(pool, sig, args, expected, n)
    ensures |solved| == |sig.typeParams| ==> Solves(pool, sig, scope, solved, keys, vals)
    ensures |solved| == |sig.typeParams| ==> NamesOf(solved) == Merge([], VisitCall(pool, sig, args, expected))
  {
    BeforeIsOwn(pool, sig, scope, args, |args|, solved, keys, vals);
    EnoughMeansAll(sig.typeParams, solved);
    forall n ensures Named(solved, n) <==> SeenBefore(pool, sig, args, |args|, n) {
      SolvedNames(pool, sig, scope, args, |args|, solved, keys, vals, n);
    }
    var before := VisitBefore(pool, sig, args, |args|);
    if expected.Some? {
      if |solved| == |sig.typeParams| {
        OwnVisitMerged(sig, scope, Den(pool, sig.ret), solved);
        MergeConcat([], before, Visit(Den(pool, sig.ret)));
      }
    } else {
      assert VisitCall(pool, sig, args, expected) == before;
    }
  }

  lemma {:induction false} ExpectedSolves(pool: seq<Node>, specs: map<Instance, TypeId>, coercions: Coercions,
                                          sig: Signature, scope: ScopeId, args: seq<Arg>, expected: TypeId,
                                          solved: seq<TypeParam>, keys: seq<Tree>, vals: seq<Tree>)
    requires GoodPool(pool, specs, None) && InPool(pool, sig, args, Some(expected)) && SignatureOk(pool, sig, scope)
    requires CallFits(pool, sig, args, Some(expected), keys, vals)
    requires SolvedBefore(pool, sig, scope, args, |args|, solved, keys, vals)
    ensures var more := Solve(pool, coercions, solved, expected, sig.ret);
      && more.Ok? && SolvedOk(pool, more.value, Meant(scope, keys, vals)) && |more.value| <= |sig.typeParams|
      && (forall n :: Named(more.value, n) ==> n in sig.typeParams)
      && (|more.value| == |sig.typeParams| <==>
           forall n :: n in sig.typeParams ==> SeenInCall(pool, sig, args, Some(expected), n))
      && (|more.value| == |sig.typeParams| ==> Solves(pool, sig, scope, more.value, keys, vals))
      && NamesOf(more.value) == Merge([], VisitCall(pool, sig, args, Some(expected)))
  {
    var t := Den(pool, sig.ret);
    OwnAgree(sig, scope, t, keys, vals);
    PassedInverts(pool, specs, coercions, solved, expected, sig.ret, keys, vals, Meant(scope, keys, vals));
    var more := Solve(pool, coercions, solved, expected, sig.ret).value;
    BeforeIsOwn(pool, sig, scope, args, |args|, solved, keys, vals);
    OkNames(pool, more, Meant(scope, keys, vals));
    ExtendsNames(pool, solved, Ok(more), Meant(scope, keys, vals), t);
    MergeConcat([], VisitBefore(pool, sig, args, |args|), Visit(t));
    forall n ensures Named(solved, n) <==> SeenBefore(pool, sig, args, |args|, n) {
      SolvedNames(pool, sig, scope, args, |args|, solved, keys, vals, n);
    }
    assert forall n :: Named(more, n) <==> SeenInCall(pool, sig, args, Some(expected), n);
    forall n | Named(more, n) ensures n in sig.typeParams {
      if Seen(n, t) { SeenIsOwn(sig, scope, t, n); }
    }
    EnoughMeansAll(sig.typeParams, more);
  }

  /** Main result on calls: for argument types that come from the signature by a substitution, or are variants of such
      enums, inference finds the substitution exactly when no argument is missing before all type parameters have been
      met, and each is met in a parameter whose argument could be typed, or in the return type if a type is expected;
      otherwise the call is refused. The solutions come in the order in which the type parameters are met first. */
  lemma {:induction false} CallInferredExactlyWhen(pool: seq<Node>, specs: map<Instance, TypeId>, coercions: Coercions,
                                                   sig: Signature, scope: ScopeId, args: seq<Arg>,
                                                   expected: Option<TypeId>, keys: seq<Tree>, vals: seq<Tree>)
    requires GoodPool(pool, specs, None) && InPool(pool, sig, args, expected) && SignatureOk(pool, sig, scope)
    requires CallFits(pool, sig, args, expected, keys, vals)
    ensures var r := Infer(pool, coercions, sig, args, expected);
      && (r.Ok? <==>
           && (forall k :: !MissingInTime(pool, sig, args, k))
           && forall n :: n in sig.typeParams ==> SeenInCall(pool, sig, args, expected, n))
      && (r.Ok? ==> Solves(pool, sig, scope, r.value, keys, vals))
      && (r.Ok? ==> NamesOf(r.value) == Merge([], VisitCall(pool, sig, args, expected)))
  {
    LoopSolves(pool, specs, coercions, sig, scope, args, keys, vals);
    if ArgLoop(pool, coercions, sig, args, 0, []).Err? {
      return;
    }
    var solved := ArgLoop(pool, coercions, sig, args, 0, []).value;
    if |solved| < |sig.typeParams| && expected.Some? {
      ExpectedSolves(pool, specs, coercions, sig, scope, args, expected.value, solved, keys, vals);
    } else {
      ArgumentsSolve(pool, sig, scope, args, expected, solved, keys, vals);
    }
  }

  // ---------- any call ----------

  /** What the first k arguments give, whether or not there are enough solutions before. */
  ghost function After(pool: seq<Node>, coercions: Coercions, sig: Signature, args: seq<Arg>,
                       k: nat): Result<seq<TypeParam>>
    requires InPool(pool, sig, args, None) && k <= |args|
  {
    if k == 0 then Ok([])
    else
      var before := After(pool, coercions, sig, args, k - 1);
      if before.Err? then Err else ArgStep(pool, coercions, sig, args, k - 1, before.value)
  }

  /** The solutions are as many as the type parameters. */
  predicate Enough(sig: Signature, r: Result<seq<TypeParam>>) {
    r.Ok? && |r.value| == |sig.typeParams|
  }

  /** The loop ends after k arguments: at an error, with enough solutions, or because there are no more. */
  ghost predicate EndsAfter(pool: seq<Node>, coercions: Coercions, sig: Signature, args: seq<Arg>, k: nat)
    requires InPool(pool, sig, args, None)
  {
    && k <= |args|
    && (forall j :: 0 < j < k ==> GoesOn(sig, After(pool, coercions, sig, args, j)))
    && (k == |args| || (k > 0 && !GoesOn(sig, After(pool, coercions, sig, args, k))))
  }

  predicate GoesOn(sig: Signature, r: Result<seq<TypeParam>>) {
    r.Ok? && !Enough(sig, r)
  }

  lemma {:induction false} LoopFrom(pool: seq<Node>, coercions: Coercions, sig: Signature, args: seq<Arg>, k: nat,
                                    at: nat)
    requires InPool(pool, sig, args, None) && EndsAfter(pool, coercions, sig, args, k) && at <= k
    requires After(pool, coercions, sig, args, at).Ok? && (at < k || k == |args|)
    ensures ArgLoop(pool, coercions, sig, args, at, After(pool, coercions, sig, args, at).value) ==
      After(pool, coercions, sig, args, k)
    decreases k - at
  {
    if at < k {
      assert After(pool, coercions, sig, args, at + 1) ==
        ArgStep(pool, coercions, sig, args, at, After(pool, coercions, sig, args, at).value);
      if at + 1 < k {
        assert GoesOn(sig, After(pool, coercions, sig, args, at + 1));
        LoopFrom(pool, coercions, sig, args, k, at + 1);
      } else if GoesOn(sig, After(pool, coercions, sig, args, k)) {
        LoopFrom(pool, coercions, sig, args, k, at + 1);
      }
    }
  }

  /** Whatever is passed: arguments after the end of the loop are not looked at, and the expected type is matched, last,
      only if the arguments did not give enough solutions. */
  lemma {:induction false} EnoughIsEnough(pool: seq<Node>, coercions: Coercions, sig: Signature, args: seq<Arg>,
                                          expected: Option<TypeId>, k: nat)
    requires InPool(pool, sig, args, expected) && EndsAfter(pool, coercions, sig, args, k)
    ensures var r, met := Infer(pool, coercions, sig, args, expected), After(pool, coercions, sig, args, k);
      && (met.Err? ==> r == Err)
      && (Enough(sig, met) ==> r == met)
      && (met.Ok? && |met.value| < |sig.typeParams| ==>
           r == if expected.None? then Err
                else
                  var last := Solve(pool, coercions, met.value, expected.value, sig.ret);
                  if last.Ok? && |last.value| >= |sig.typeParams| then last else Err)
  {
    LoopFrom(pool, coercions, sig, args, k, 0);
  }
}
