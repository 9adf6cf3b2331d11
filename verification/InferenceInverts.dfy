/** Inference recovers the assignment that produced the passed type. */
module InferenceInverts {
  import opened Wrappers
  import opened TypePool
  import opened GenericInvariants
  import opened Instantiation
  import opened Inference

  /** A type variable called n occurs in t. */
  ghost predicate Occurs(n: Ident, t: Tree)
    decreases t
  {
    match t
    case TVar(name, _) => name == n
    case TRef(inner) => Occurs(n, inner)
    case TStruct(fs) => exists k :: 0 <= k < |fs| && Occurs(n, fs[k].tree)
    case TEnum(vs) => exists k :: 0 <= k < |vs| && vs[k].payload.Some? && Occurs(n, vs[k].payload.value)
    case TApp(_, args) => exists k :: 0 <= k < |args| && Occurs(n, args[k])
    case TVariant(whole, _) => Occurs(n, whole)
    case _ => false
  }

  /** The same, but inference looks into a variant only if its enum is an instance of a generic. */
  ghost predicate Seen(n: Ident, t: Tree)
    decreases t
  {
    match t
    case TVar(name, _) => name == n
    case TRef(inner) => Seen(n, inner)
    case TStruct(fs) => exists k :: 0 <= k < |fs| && Seen(n, fs[k].tree)
    case TEnum(vs) => exists k :: 0 <= k < |vs| && vs[k].payload.Some? && Seen(n, vs[k].payload.value)
    case TApp(_, args) => exists k :: 0 <= k < |args| && Seen(n, args[k])
    case TVariant(whole, _) => whole.TApp? && Seen(n, whole)
    case _ => false
  }

  /** The names of variables in the order in which inference meets them. */
  ghost function Visit(t: Tree): seq<Ident>
    decreases t
  {
    match t
    case TVar(name, _) => [name]
    case TRef(inner) => Visit(inner)
    case TStruct(fs) => VisitFields(fs)
    case TEnum(vs) => VisitVariants(vs)
    case TApp(_, args) => VisitAll(args)
    case TVariant(whole, _) => if whole.TApp? then Visit(whole) else []
    case _ => []
  }

  ghost function VisitFields(fs: seq<TreeField>): seq<Ident>
    decreases fs
  {
    if fs == [] then [] else Visit(fs[0].tree) + VisitFields(fs[1..])
  }

  ghost function VisitVariants(vs: seq<TreeVariant>): seq<Ident>
    decreases vs
  {
    if vs == [] then []
    else (if vs[0].payload.Some? then Visit(vs[0].payload.value) else []) + VisitVariants(vs[1..])
  }

  ghost function VisitAll(ts: seq<Tree>): seq<Ident>
    decreases ts
  {
    if ts == [] then [] else Visit(ts[0]) + VisitAll(ts[1..])
  }

  lemma {:induction false} VisitedIsSeen(t: Tree, n: Ident)
    ensures n in Visit(t) <==> Seen(n, t)
    decreases t
  {
    match t {
      case TRef(inner) => VisitedIsSeen(inner, n);
      case TStruct(fs) => VisitedField(fs, n);
      case TEnum(vs) => VisitedVariant(vs, n);
      case TApp(_, args) => VisitedArgument(args, n);
      case TVariant(whole, _) => VisitedIsSeen(whole, n);
      case _ =>
    }
  }

  lemma {:induction false} VisitedField(fs: seq<TreeField>, n: Ident)
    ensures n in VisitFields(fs) <==> exists k :: 0 <= k < |fs| && Seen(n, fs[k].tree)
    decreases fs
  {
    if fs != [] {
      VisitedIsSeen(fs[0].tree, n);
      VisitedField(fs[1..], n);
      assert forall k :: 1 <= k < |fs| ==> fs[k] == fs[1..][k - 1];
    }
  }

  lemma {:induction false} VisitedVariant(vs: seq<TreeVariant>, n: Ident)
    ensures n in VisitVariants(vs) <==>
      exists k :: 0 <= k < |vs| && vs[k].payload.Some? && Seen(n, vs[k].payload.value)
    decreases vs
  {
    if vs != [] {
      if vs[0].payload.Some? { VisitedIsSeen(vs[0].payload.value, n); }
      VisitedVariant(vs[1..], n);
      assert forall k :: 1 <= k < |vs| ==> vs[k] == vs[1..][k - 1];
    }
  }

  lemma {:induction false} VisitedArgument(ts: seq<Tree>, n: Ident)
    ensures n in VisitAll(ts) <==> exists k :: 0 <= k < |ts| && Seen(n, ts[k])
    decreases ts
  {
    if ts != [] {
      VisitedIsSeen(ts[0], n);
      VisitedArgument(ts[1..], n);
      assert forall k :: 1 <= k < |ts| ==> ts[k] == ts[1..][k - 1];
    }
  }

  /** The names followed by those of the visit that are new, each once. */
  ghost function Merge(names: seq<Ident>, visit: seq<Ident>): seq<Ident>
    decreases |visit|
  {
    if visit == [] then names
    else Merge(if visit[0] in names then names else names + [visit[0]], visit[1..])
  }

  lemma {:induction false} MergeConcat(names: seq<Ident>, a: seq<Ident>, b: seq<Ident>)
    ensures Merge(names, a + b) == Merge(Merge(names, a), b)
    decreases |a|
  {
    if a == [] {
      assert a + b == b;
    } else {
      assert (a + b)[1..] == a[1..] + b;
      MergeConcat(if a[0] in names then names else names + [a[0]], a[1..], b);
    }
  }

  lemma {:induction false} InMerge(names: seq<Ident>, visit: seq<Ident>, n: Ident)
    ensures n in Merge(names, visit) <==> n in names || n in visit
    decreases |visit|
  {
    if visit != [] { InMerge(if visit[0] in names then names else names + [visit[0]], visit[1..], n); }
  }

  ghost function NamesOf(solved: seq<TypeParam>): (r: seq<Ident>)
    ensures |r| == |solved| && forall k :: 0 <= k < |solved| ==> r[k] == solved[k].name
  {
    seq(|solved|, k requires 0 <= k < |solved| => solved[k].name)
  }

  lemma {:induction false} NamedInNames(solved: seq<TypeParam>, n: Ident)
    ensures Named(solved, n) <==> n in NamesOf(solved)
  {
    if Named(solved, n) {
      var k :| 0 <= k < |solved| && solved[k].name == n;
      assert NamesOf(solved)[k] == n;
    }
  }

  /** The substitution sends every variable of t to what `asg` gives for the variable's name. */
  ghost predicate Agrees(t: Tree, keys: seq<Tree>, vals: seq<Tree>, asg: imap<Ident, Tree>)
    requires |keys| <= |vals|
    decreases t
  {
    match t
    case TVar(name, _) => name in asg && Lookup(t, keys, vals) == asg[name]
    case TRef(inner) => Agrees(inner, keys, vals, asg)
    case TStruct(fs) => forall k :: 0 <= k < |fs| ==> Agrees(fs[k].tree, keys, vals, asg)
    case TEnum(vs) => forall k :: 0 <= k < |vs| ==> vs[k].payload.Some? ==> Agrees(vs[k].payload.value, keys, vals, asg)
    case TApp(_, args) => forall k :: 0 <= k < |args| ==> Agrees(args[k], keys, vals, asg)
    case TVariant(whole, _) => Agrees(whole, keys, vals, asg)
    case _ => true
  }

  ghost predicate Named(solved: seq<TypeParam>, n: Ident) {
    exists k :: 0 <= k < |solved| && solved[k].name == n
  }

  /** One entry per name, each denoting the assigned meaning. */
  ghost predicate SolvedOk(pool: seq<Node>, solved: seq<TypeParam>, asg: imap<Ident, Tree>)
    requires Below(pool)
  {
    && (forall i, j :: 0 <= i < j < |solved| ==> solved[i].name != solved[j].name)
    && forall k :: 0 <= k < |solved| ==>
         && solved[k].name in asg && solved[k].typeId < |pool|
         && Den(pool, solved[k].typeId) == asg[solved[k].name]
  }

  /** r extends solved by entries for the new names of the visit, in its order. */
  ghost predicate Extends(pool: seq<Node>, solved: seq<TypeParam>, r: Result<seq<TypeParam>>, asg: imap<Ident, Tree>,
                          visit: seq<Ident>)
    requires Below(pool)
  {
    && r.Ok? && solved <= r.value && SolvedOk(pool, r.value, asg)
    && NamesOf(r.value) == Merge(NamesOf(solved), visit)
  }

  /** So the solutions are for exactly the names that were there or are met in t. */
  lemma {:induction false} ExtendsNames(pool: seq<Node>, solved: seq<TypeParam>, r: Result<seq<TypeParam>>,
                                        asg: imap<Ident, Tree>, t: Tree)
    requires Below(pool) && Extends(pool, solved, r, asg, Visit(t))
    ensures forall n :: Named(r.value, n) <==> Named(solved, n) || Seen(n, t)
  {
    forall n ensures Named(r.value, n) <==> Named(solved, n) || Seen(n, t) {
      NamedInNames(r.value, n);
      NamedInNames(solved, n);
      InMerge(NamesOf(solved), Visit(t), n);
      VisitedIsSeen(t, n);
    }
  }

  lemma {:induction false} ClosedAgrees(t: Tree, keys: seq<Tree>, vals: seq<Tree>, asg: imap<Ident, Tree>)
    requires Closed(t) && |keys| <= |vals|
    ensures Agrees(t, keys, vals, asg) && forall n :: !Seen(n, t)
    decreases t
  {
    match t {
      case TRef(inner) => ClosedAgrees(inner, keys, vals, asg);
      case TStruct(fs) =>
        forall k | 0 <= k < |fs| ensures Agrees(fs[k].tree, keys, vals, asg) && forall n :: !Seen(n, fs[k].tree) {
          ClosedAgrees(fs[k].tree, keys, vals, asg);
        }
      case TEnum(vs) =>
        forall k | 0 <= k < |vs| && vs[k].payload.Some?
          ensures Agrees(vs[k].payload.value, keys, vals, asg) && forall n :: !Seen(n, vs[k].payload.value)
        {
          ClosedAgrees(vs[k].payload.value, keys, vals, asg);
        }
      case TApp(_, args) =>
        forall k | 0 <= k < |args| ensures Agrees(args[k], keys, vals, asg) && forall n :: !Seen(n, args[k]) {
          ClosedAgrees(args[k], keys, vals, asg);
        }
      case TVariant(whole, _) => ClosedAgrees(whole, keys, vals, asg);
      case _ =>
    }
  }

  lemma {:induction false} NothingVisited(t: Tree)
    requires forall n :: !Seen(n, t)
    ensures Visit(t) == []
  {
    if Visit(t) != [] { VisitedIsSeen(t, Visit(t)[0]); }
  }

  /** passed denotes arg with its variables replaced, consistently with `asg`. */
  ghost predicate Instantiates(pool: seq<Node>, passed: TypeId, arg: TypeId, keys: seq<Tree>, vals: seq<Tree>,
                               asg: imap<Ident, Tree>)
  {
    && Below(pool) && passed < |pool| && arg < |pool| && |keys| <= |vals|
    && Den(pool, passed) == SubstTree(Den(pool, arg), keys, vals)
    && Agrees(Den(pool, arg), keys, vals, asg)
  }

  lemma {:induction false} SolveInverts(pool: seq<Node>, specs: map<Instance, TypeId>, coercions: Coercions,
                                        solved: seq<TypeParam>, passed: TypeId, arg: TypeId,
                                        keys: seq<Tree>, vals: seq<Tree>, asg: imap<Ident, Tree>)
    requires GoodPool(pool, specs, None) && Instantiates(pool, passed, arg, keys, vals, asg)
    requires SolvedOk(pool, solved, asg)
    ensures Extends(pool, solved, Solve(pool, coercions, solved, passed, arg), asg, Visit(Den(pool, arg)))
    decreases arg, 2
  {
    var p, a := pool[passed], pool[arg];
    if InstanceOf(a).Some? {
      InstanceInverts(pool, specs, coercions, solved, passed, arg, keys, vals, asg);
    } else {
      match a {
        case TypeVariable(name, scope) =>
          VariableInverts(pool, coercions, solved, passed, name, asg);
        case Reference(inner) =>
          SolveInverts(pool, specs, coercions, solved, p.inner, inner, keys, vals, asg);
        case Struct(_, _, _) => StructInverts(pool, specs, coercions, solved, passed, arg, keys, vals, asg);
        case Enum(_, _, _) => EnumInverts(pool, specs, coercions, solved, passed, arg, keys, vals, asg);
        case EnumVariant(_) => VariantInverts(pool, specs, coercions, solved, passed, arg, keys, vals, asg);
        case _ =>
          DenInjective(pool, passed, arg);
      }
    }
  }

  lemma {:induction false} VariableInverts(pool: seq<Node>, coercions: Coercions, solved: seq<TypeParam>,
                                           passed: TypeId, name: Ident, asg: imap<Ident, Tree>)
    requires ValidPool(pool) && passed < |pool| && SolvedOk(pool, solved, asg)
    requires name in asg && Den(pool, passed) == asg[name]
    ensures Extends(pool, solved, SolveVariable(coercions, solved, passed, name), asg, [name])
  {
    var existing, names := FindSolution(solved, name), NamesOf(solved);
    NamedInNames(solved, name);
    assert Merge(names, [name]) == Merge(if name in names then names else names + [name], []);
    if existing.Some? {
      SolvedBeforeHand(pool, solved, passed, name, asg);
    } else {
      assert !Named(solved, name);
      assert NamesOf(solved + [TypeParam(name, passed)]) == names + [name];
    }
  }

  lemma {:induction false} SolvedBeforeHand(pool: seq<Node>, solved: seq<TypeParam>, passed: TypeId, name: Ident,
                                            asg: imap<Ident, Tree>)
    requires ValidPool(pool) && passed < |pool| && SolvedOk(pool, solved, asg) && FindSolution(solved, name).Some?
    requires name in asg && Den(pool, passed) == asg[name]
    ensures Named(solved, name) && FindSolution(solved, name) == Some(passed)
  {
    var existing := FindSolution(solved, name).value;
    var k :| 0 <= k < |solved| && IsFirst(solved, name, k) && solved[k].typeId == existing;
    DenInjective(pool, existing, passed);
  }

  // ---------- lists of types ----------

  ghost predicate AllInstantiate(pool: seq<Node>, ps: seq<TypeId>, args: seq<TypeId>, keys: seq<Tree>, vals: seq<Tree>,
                                 asg: imap<Ident, Tree>)
  {
    |ps| == |args| && forall k :: 0 <= k < |ps| ==> Instantiates(pool, ps[k], args[k], keys, vals, asg)
  }

  /** The names met in a list of types. */
  ghost function VisitIds(pool: seq<Node>, ids: seq<TypeId>): seq<Ident>
    requires Below(pool) && forall k :: 0 <= k < |ids| ==> ids[k] < |pool|
  {
    if ids == [] then [] else Visit(Den(pool, ids[0])) + VisitIds(pool, ids[1..])
  }

  lemma ExtendsTwice(pool: seq<Node>, solved: seq<TypeParam>, mid: Result<seq<TypeParam>>, r: Result<seq<TypeParam>>,
                     asg: imap<Ident, Tree>, a: seq<Ident>, b: seq<Ident>)
    requires Below(pool) && Extends(pool, solved, mid, asg, a) && Extends(pool, mid.value, r, asg, b)
    ensures Extends(pool, solved, r, asg, a + b)
  {
    MergeConcat(NamesOf(solved), a, b);
  }

  lemma {:induction false} IdsInvert(pool: seq<Node>, specs: map<Instance, TypeId>, coercions: Coercions,
                                     solved: seq<TypeParam>, ps: seq<TypeId>, args: seq<TypeId>,
                                     passedBound: TypeId, argBound: TypeId,
                                     keys: seq<Tree>, vals: seq<Tree>, asg: imap<Ident, Tree>)
    requires GoodPool(pool, specs, None) && SolvedOk(pool, solved, asg) && passedBound <= |pool| && argBound <= |pool|
    requires (forall k :: 0 <= k < |ps| ==> ps[k] < passedBound) && forall k :: 0 <= k < |args| ==> args[k] < argBound
    requires AllInstantiate(pool, ps, args, keys, vals, asg)
    ensures Extends(pool, solved, SolveIds(pool, coercions, solved, ps, args, passedBound, argBound), asg,
                    VisitIds(pool, args))
    decreases argBound, 0, |args|
  {
    if args != [] {
      var mid := Solve(pool, coercions, solved, ps[0], args[0]);
      SolveInverts(pool, specs, coercions, solved, ps[0], args[0], keys, vals, asg);
      IdsInvert(pool, specs, coercions, mid.value, ps[1..], args[1..], passedBound, argBound, keys, vals, asg);
      ExtendsTwice(pool, solved, mid, SolveIds(pool, coercions, solved, ps, args, passedBound, argBound), asg,
                   Visit(Den(pool, args[0])), VisitIds(pool, args[1..]));
    }
  }

  /** With equal names, matching fields is matching their types in order. */
  lemma {:induction false} FieldsAreIds(pool: seq<Node>, coercions: Coercions, solved: seq<TypeParam>, ps: seq<Field>,
                                        fs: seq<Field>,
                                        passedBound: TypeId, argBound: TypeId)
    requires Below(pool) && Placement(pool) && passedBound <= |pool| && argBound <= |pool| && |ps| == |fs|
    requires forall k :: 0 <= k < |ps| ==>
      ps[k].typeId < passedBound && fs[k].typeId < argBound && ps[k].name == fs[k].name
    ensures SolveFields(pool, coercions, solved, ps, fs, passedBound, argBound) ==
      SolveIds(pool, coercions, solved, FieldIds(ps), FieldIds(fs), passedBound, argBound)
    decreases |fs|
  {
    if fs != [] {
      assert FieldIds(ps)[1..] == FieldIds(ps[1..]) && FieldIds(fs)[1..] == FieldIds(fs[1..]);
      var step := Solve(pool, coercions, solved, ps[0].typeId, fs[0].typeId);
      if step.Ok? { FieldsAreIds(pool, coercions, step.value, ps[1..], fs[1..], passedBound, argBound); }
    }
  }

  ghost function PayloadIds(vs: seq<Variant>): seq<TypeId> {
    if vs == [] then []
    else (if vs[0].payload.Some? then [vs[0].payload.value] else []) + PayloadIds(vs[1..])
  }

  lemma {:induction false} PayloadIdsBelow(vs: seq<Variant>, bound: TypeId)
    requires PayloadsBelow(vs, bound)
    ensures forall k :: 0 <= k < |PayloadIds(vs)| ==> PayloadIds(vs)[k] < bound
  {
    if vs != [] { PayloadIdsBelow(vs[1..], bound); }
  }

  ghost predicate SameCases(ps: seq<Variant>, vs: seq<Variant>) {
    |ps| == |vs| && forall k :: 0 <= k < |ps| ==> ps[k].name == vs[k].name && ps[k].payload.Some? == vs[k].payload.Some?
  }

  lemma {:induction false} VariantsAreIds(pool: seq<Node>, coercions: Coercions, solved: seq<TypeParam>,
                                          ps: seq<Variant>, vs: seq<Variant>, passedBound: TypeId, argBound: TypeId)
    requires Below(pool) && Placement(pool) && passedBound <= |pool| && argBound <= |pool| && SameCases(ps, vs)
    requires PayloadsBelow(ps, passedBound) && PayloadsBelow(vs, argBound)
    ensures forall k :: 0 <= k < |PayloadIds(ps)| ==> PayloadIds(ps)[k] < passedBound
    ensures forall k :: 0 <= k < |PayloadIds(vs)| ==> PayloadIds(vs)[k] < argBound
    ensures SolveVariants(pool, coercions, solved, ps, vs, passedBound, argBound) ==
      SolveIds(pool, coercions, solved, PayloadIds(ps), PayloadIds(vs), passedBound, argBound)
    decreases |vs|
  {
    PayloadIdsBelow(ps, passedBound);
    PayloadIdsBelow(vs, argBound);
    if vs != [] {
      if vs[0].payload.None? {
        PayloadIdsSkip(ps);
        PayloadIdsSkip(vs);
        VariantsAreIds(pool, coercions, solved, ps[1..], vs[1..], passedBound, argBound);
      } else {
        PayloadIdsTake(ps);
        PayloadIdsTake(vs);
        var step := Solve(pool, coercions, solved, ps[0].payload.value, vs[0].payload.value);
        if step.Ok? { VariantsAreIds(pool, coercions, step.value, ps[1..], vs[1..], passedBound, argBound); }
      }
    }
  }

  lemma {:induction false} PayloadIdsSkip(vs: seq<Variant>)
    requires vs != [] && vs[0].payload.None?
    ensures PayloadIds(vs) == PayloadIds(vs[1..])
  {
    assert [] + PayloadIds(vs[1..]) == PayloadIds(vs[1..]);
  }

  lemma {:induction false} PayloadIdsTake(vs: seq<Variant>)
    requires vs != [] && vs[0].payload.Some?
    ensures PayloadIds(vs) != [] && PayloadIds(vs)[0] == vs[0].payload.value
    ensures PayloadIds(vs)[1..] == PayloadIds(vs[1..])
  {
  }

  // ---------- structs, enums and instances ----------

  /** The children of passed, in order, instantiate those of arg, and together they hold all names of arg. */
  ghost predicate ChildrenInstantiate(pool: seq<Node>, passed: TypeId, arg: TypeId, ps: seq<TypeId>, args: seq<TypeId>,
                                      keys: seq<Tree>, vals: seq<Tree>, asg: imap<Ident, Tree>)
    requires Below(pool) && arg < |pool|
  {
    && (forall k :: 0 <= k < |ps| ==> ps[k] < passed) && (forall k :: 0 <= k < |args| ==> args[k] < arg)
    && AllInstantiate(pool, ps, args, keys, vals, asg)
    && Visit(Den(pool, arg)) == VisitIds(pool, args)
  }

  /** A type that mentions no variable instantiates itself. */
  lemma ClosedInstantiates(pool: seq<Node>, id: TypeId, keys: seq<Tree>, vals: seq<Tree>, asg: imap<Ident, Tree>)
    requires Below(pool) && id < |pool| && |keys| <= |vals| && Closed(Den(pool, id))
    ensures Instantiates(pool, id, id, keys, vals, asg) && Visit(Den(pool, id)) == []
  {
    SubstClosed(Den(pool, id), keys, vals);
    ClosedAgrees(Den(pool, id), keys, vals, asg);
    NothingVisited(Den(pool, id));
  }

  lemma {:induction false} NothingInAny(pool: seq<Node>, ids: seq<TypeId>)
    requires Below(pool) && forall k :: 0 <= k < |ids| ==> ids[k] < |pool| && Visit(Den(pool, ids[k])) == []
    ensures VisitIds(pool, ids) == []
  {
    if ids != [] { NothingInAny(pool, ids[1..]); }
  }

  lemma {:induction false} NamedChildren(pool: seq<Node>, arg: TypeId, ids: seq<TypeId>, keys: seq<Tree>,
                                         vals: seq<Tree>, asg: imap<Ident, Tree>)
    requires Below(pool) && arg < |pool| && |keys| <= |vals| && Den(pool, arg).TLeaf?
    requires forall k :: 0 <= k < |ids| ==> ids[k] < arg && Closed(Den(pool, ids[k]))
    ensures ChildrenInstantiate(pool, arg, arg, ids, ids, keys, vals, asg)
  {
    forall k | 0 <= k < |ids|
      ensures Instantiates(pool, ids[k], ids[k], keys, vals, asg) && Visit(Den(pool, ids[k])) == []
    {
      ClosedInstantiates(pool, ids[k], keys, vals, asg);
    }
    NothingInAny(pool, ids);
  }

  lemma NamedStructChildren(pool: seq<Node>, arg: TypeId, keys: seq<Tree>, vals: seq<Tree>, asg: imap<Ident, Tree>)
    requires ValidPool(pool) && arg < |pool| && VarFree(pool, arg) && |keys| <= |vals|
    requires pool[arg].Struct? && pool[arg].inst.None? && pool[arg].defn.Some?
    ensures ChildrenInstantiate(pool, arg, arg, FieldIds(pool[arg].fields), FieldIds(pool[arg].fields), keys, vals, asg)
  {
    VarFreeMeaningClosed(pool, arg);
    var ids := FieldIds(pool[arg].fields);
    assert ChildrenBelow(pool[arg], arg);
    forall k | 0 <= k < |ids| ensures ids[k] < arg && Closed(Den(pool, ids[k])) {
      assert ids[k] == pool[arg].fields[k].typeId;
      assert Shape(pool, arg).fields[k].tree == Den(pool, ids[k]);
    }
    NamedChildren(pool, arg, ids, keys, vals, asg);
  }

  lemma AnonymousStructChildren(pool: seq<Node>, passed: TypeId, arg: TypeId, keys: seq<Tree>, vals: seq<Tree>,
                                asg: imap<Ident, Tree>)
    requires ValidPool(pool) && Instantiates(pool, passed, arg, keys, vals, asg)
    requires pool[arg].Struct? && pool[arg].inst.None? && pool[arg].defn.None?
    ensures pool[passed].Struct? && pool[passed].inst.None? && |pool[passed].fields| == |pool[arg].fields|
    ensures forall k :: 0 <= k < |pool[arg].fields| ==> pool[passed].fields[k].name == pool[arg].fields[k].name
    ensures ChildrenInstantiate(pool, passed, arg, FieldIds(pool[passed].fields), FieldIds(pool[arg].fields), keys,
      vals, asg)
  {
    var ps, fs := pool[passed].fields, pool[arg].fields;
    var d, e := Den(pool, passed), Den(pool, arg);
    assert e == Shape(pool, arg) && d == Shape(pool, passed);
    assert ChildrenBelow(pool[arg], arg) && ChildrenBelow(pool[passed], passed);
    forall k | 0 <= k < |fs|
      ensures ps[k].name == fs[k].name && Instantiates(pool, ps[k].typeId, fs[k].typeId, keys, vals, asg)
    {
      assert d.fields[k] == TreeField(e.fields[k].name, SubstTree(e.fields[k].tree, keys, vals));
      assert Agrees(e.fields[k].tree, keys, vals, asg);
    }
    FieldsVisit(pool, e.fields, FieldIds(fs));
  }

  lemma {:induction false} FieldsVisit(pool: seq<Node>, fs: seq<TreeField>, ids: seq<TypeId>)
    requires Below(pool) && |fs| == |ids|
    requires forall k :: 0 <= k < |ids| ==> ids[k] < |pool| && fs[k].tree == Den(pool, ids[k])
    ensures VisitFields(fs) == VisitIds(pool, ids)
  {
    if ids != [] { FieldsVisit(pool, fs[1..], ids[1..]); }
  }

  lemma {:induction false} StructInverts(pool: seq<Node>, specs: map<Instance, TypeId>, coercions: Coercions,
                                         solved: seq<TypeParam>, passed: TypeId, arg: TypeId,
                                         keys: seq<Tree>, vals: seq<Tree>, asg: imap<Ident, Tree>)
    requires GoodPool(pool, specs, None) && Instantiates(pool, passed, arg, keys, vals, asg)
    requires SolvedOk(pool, solved, asg)
    requires pool[arg].Struct? && pool[arg].inst.None?
    ensures Extends(pool, solved, Solve(pool, coercions, solved, passed, arg), asg, Visit(Den(pool, arg)))
    decreases arg, 1
  {
    if pool[arg].defn.Some? {
      DenInjective(pool, passed, arg);
      assert NodeOk(pool, arg);
      NamedStructChildren(pool, arg, keys, vals, asg);
    } else {
      AnonymousStructChildren(pool, passed, arg, keys, vals, asg);
    }
    var ps, fs := pool[passed].fields, pool[arg].fields;
    SolveStructFields(pool, coercions, solved, passed, arg);
    IdsInvert(pool, specs, coercions, solved, FieldIds(ps), FieldIds(fs), passed, arg, keys, vals, asg);
  }

  lemma SolveStructFields(pool: seq<Node>, coercions: Coercions, solved: seq<TypeParam>, passed: TypeId, arg: TypeId)
    requires Below(pool) && Placement(pool) && passed < |pool| && arg < |pool|
    requires pool[arg].Struct? && pool[arg].inst.None? && pool[passed].Struct?
    requires |pool[passed].fields| == |pool[arg].fields|
    requires forall k :: 0 <= k < |pool[arg].fields| ==> pool[passed].fields[k].name == pool[arg].fields[k].name
    requires forall k :: 0 <= k < |FieldIds(pool[passed].fields)| ==> FieldIds(pool[passed].fields)[k] < passed
    requires forall k :: 0 <= k < |FieldIds(pool[arg].fields)| ==> FieldIds(pool[arg].fields)[k] < arg
    ensures Solve(pool, coercions, solved, passed, arg) ==
      SolveIds(pool, coercions, solved, FieldIds(pool[passed].fields), FieldIds(pool[arg].fields), passed, arg)
  {
    var ps, fs := pool[passed].fields, pool[arg].fields;
    forall k | 0 <= k < |fs| ensures ps[k].typeId < passed && fs[k].typeId < arg {
      assert FieldIds(ps)[k] < passed && FieldIds(fs)[k] < arg;
    }
    FieldsAreIds(pool, coercions, solved, ps, fs, passed, arg);
  }

  /** Each payload id is some variant's payload, and each payload is listed. */
  lemma {:induction false} PayloadIdsListed(vs: seq<Variant>)
    ensures forall k :: 0 <= k < |vs| && vs[k].payload.Some? ==> vs[k].payload.value in PayloadIds(vs)
    ensures forall id :: id in PayloadIds(vs) ==> exists k :: 0 <= k < |vs| && vs[k].payload == Some(id)
  {
    if vs != [] {
      PayloadIdsListed(vs[1..]);
      assert forall k :: 1 <= k < |vs| ==> vs[k] == vs[1..][k - 1];
    }
  }

  lemma NamedEnumChildren(pool: seq<Node>, arg: TypeId, keys: seq<Tree>, vals: seq<Tree>, asg: imap<Ident, Tree>)
    requires ValidPool(pool) && arg < |pool| && VarFree(pool, arg) && |keys| <= |vals|
    requires pool[arg].Enum? && pool[arg].inst.None? && pool[arg].defn.Some?
    ensures ChildrenInstantiate(pool, arg, arg, PayloadIds(pool[arg].variants), PayloadIds(pool[arg].variants), keys,
      vals, asg)
  {
    VarFreeMeaningClosed(pool, arg);
    var vs := pool[arg].variants;
    var ids := PayloadIds(vs);
    PayloadIdsListed(vs);
    assert ChildrenBelow(pool[arg], arg);
    forall k | 0 <= k < |ids| ensures ids[k] < arg && Closed(Den(pool, ids[k])) {
      assert ids[k] in ids;
      var j :| 0 <= j < |vs| && vs[j].payload == Some(ids[k]);
      assert Shape(pool, arg).variants[j].payload == Some(Den(pool, ids[k]));
    }
    NamedChildren(pool, arg, ids, keys, vals, asg);
  }

  lemma {:induction false} VariantsVisit(pool: seq<Node>, ts: seq<TreeVariant>, vs: seq<Variant>)
    requires Below(pool) && |ts| == |vs| && PayloadsBelow(vs, |pool|)
    requires forall k :: 0 <= k < |vs| ==> ts[k].payload.Some? == vs[k].payload.Some?
    requires forall k :: 0 <= k < |vs| && vs[k].payload.Some? ==> ts[k].payload.value == Den(pool, vs[k].payload.value)
    ensures forall k :: 0 <= k < |PayloadIds(vs)| ==> PayloadIds(vs)[k] < |pool|
    ensures VisitVariants(ts) == VisitIds(pool, PayloadIds(vs))
  {
    PayloadIdsBelow(vs, |pool|);
    if vs != [] {
      VariantsVisit(pool, ts[1..], vs[1..]);
      if vs[0].payload.Some? {
        assert PayloadIds(vs)[1..] == PayloadIds(vs[1..]) && PayloadIds(vs)[0] == vs[0].payload.value;
      } else {
        assert PayloadIds(vs) == PayloadIds(vs[1..]);
      }
    }
  }

  /** Payloads of two enums with the same cases pair up in order. */
  lemma {:induction false} PayloadsPair(pool: seq<Node>, ps: seq<Variant>, vs: seq<Variant>,
                                        keys: seq<Tree>, vals: seq<Tree>, asg: imap<Ident, Tree>)
    requires SameCases(ps, vs)
    requires forall k :: 0 <= k < |vs| && vs[k].payload.Some? ==>
      Instantiates(pool, ps[k].payload.value, vs[k].payload.value, keys, vals, asg)
    ensures AllInstantiate(pool, PayloadIds(ps), PayloadIds(vs), keys, vals, asg)
  {
    if vs != [] {
      PayloadsPair(pool, ps[1..], vs[1..], keys, vals, asg);
    }
  }

  lemma AnonymousEnumChildren(pool: seq<Node>, passed: TypeId, arg: TypeId, keys: seq<Tree>, vals: seq<Tree>,
                              asg: imap<Ident, Tree>)
    requires ValidPool(pool) && Instantiates(pool, passed, arg, keys, vals, asg)
    requires pool[arg].Enum? && pool[arg].inst.None? && pool[arg].defn.None?
    ensures pool[passed].Enum? && pool[passed].inst.None? && SameCases(pool[passed].variants, pool[arg].variants)
    ensures ChildrenInstantiate(pool, passed, arg, PayloadIds(pool[passed].variants), PayloadIds(pool[arg].variants),
      keys, vals, asg)
  {
    var ps, vs := pool[passed].variants, pool[arg].variants;
    var d, e := Den(pool, passed), Den(pool, arg);
    assert e == Shape(pool, arg) && d == Shape(pool, passed);
    assert ChildrenBelow(pool[arg], arg) && ChildrenBelow(pool[passed], passed);
    forall k | 0 <= k < |vs|
      ensures ps[k].name == vs[k].name && ps[k].payload.Some? == vs[k].payload.Some?
      ensures vs[k].payload.Some? ==> Instantiates(pool, ps[k].payload.value, vs[k].payload.value, keys, vals, asg)
    {
      assert d.variants[k].name == e.variants[k].name;
      if e.variants[k].payload.Some? {
        assert d.variants[k].payload == Some(SubstTree(e.variants[k].payload.value, keys, vals));
        assert Agrees(e.variants[k].payload.value, keys, vals, asg);
      }
    }
    PayloadsPair(pool, ps, vs, keys, vals, asg);
    PayloadIdsBelow(ps, passed);
    PayloadIdsBelow(vs, arg);
    VariantsVisit(pool, e.variants, vs);
  }

  lemma {:induction false} EnumInverts(pool: seq<Node>, specs: map<Instance, TypeId>, coercions: Coercions,
                                       solved: seq<TypeParam>, passed: TypeId, arg: TypeId,
                                       keys: seq<Tree>, vals: seq<Tree>, asg: imap<Ident, Tree>)
    requires GoodPool(pool, specs, None) && Instantiates(pool, passed, arg, keys, vals, asg)
    requires SolvedOk(pool, solved, asg)
    requires pool[arg].Enum? && pool[arg].inst.None?
    ensures Extends(pool, solved, Solve(pool, coercions, solved, passed, arg), asg, Visit(Den(pool, arg)))
    decreases arg, 1
  {
    if pool[arg].defn.Some? {
      DenInjective(pool, passed, arg);
      assert NodeOk(pool, arg);
      NamedEnumChildren(pool, arg, keys, vals, asg);
    } else {
      AnonymousEnumChildren(pool, passed, arg, keys, vals, asg);
    }
    var ps, vs := pool[passed].variants, pool[arg].variants;
    SolveEnumPayloads(pool, coercions, solved, passed, arg);
    IdsInvert(pool, specs, coercions, solved, PayloadIds(ps), PayloadIds(vs), passed, arg, keys, vals, asg);
  }

  lemma SolveEnumPayloads(pool: seq<Node>, coercions: Coercions, solved: seq<TypeParam>, passed: TypeId, arg: TypeId)
    requires Below(pool) && Placement(pool) && passed < |pool| && arg < |pool|
    requires pool[arg].Enum? && pool[arg].inst.None? && pool[passed].Enum?
    requires SameCases(pool[passed].variants, pool[arg].variants)
    ensures forall k :: 0 <= k < |PayloadIds(pool[passed].variants)| ==> PayloadIds(pool[passed].variants)[k] < passed
    ensures forall k :: 0 <= k < |PayloadIds(pool[arg].variants)| ==> PayloadIds(pool[arg].variants)[k] < arg
    ensures Solve(pool, coercions, solved, passed, arg) ==
      SolveIds(pool, coercions, solved, PayloadIds(pool[passed].variants), PayloadIds(pool[arg].variants), passed, arg)
  {
    assert ChildrenBelow(pool[arg], arg) && ChildrenBelow(pool[passed], passed);
    VariantsAreIds(pool, coercions, solved, pool[passed].variants, pool[arg].variants, passed, arg);
  }

  lemma InstanceChildrenInstantiate(pool: seq<Node>, passed: TypeId, arg: TypeId, keys: seq<Tree>, vals: seq<Tree>,
                                    asg: imap<Ident, Tree>)
    requires ValidPool(pool) && Instantiates(pool, passed, arg, keys, vals, asg) && InstanceOf(pool[arg]).Some?
    ensures InstanceOf(pool[passed]).Some? && pool[passed].inst.value.parent == pool[arg].inst.value.parent
    ensures ChildrenInstantiate(pool, passed, arg, pool[passed].inst.value.args, pool[arg].inst.value.args, keys,
      vals, asg)
  {
    assert ChildrenBelow(pool[arg], arg) && ChildrenBelow(pool[passed], passed);
    var d, e := Den(pool, passed), Den(pool, arg);
    var ps, args := pool[passed].inst.value.args, pool[arg].inst.value.args;
    assert d.args == DenAll(pool, ps, passed) && e.args == DenAll(pool, args, arg);
    forall k | 0 <= k < |args| ensures Instantiates(pool, ps[k], args[k], keys, vals, asg) {
      assert d.args[k] == Den(pool, ps[k]) && e.args[k] == Den(pool, args[k]);
      assert Agrees(e.args[k], keys, vals, asg);
    }
    ArgumentsVisit(pool, e.args, args);
  }

  lemma {:induction false} ArgumentsVisit(pool: seq<Node>, ts: seq<Tree>, ids: seq<TypeId>)
    requires Below(pool) && |ts| == |ids|
    requires forall k :: 0 <= k < |ids| ==> ids[k] < |pool| && ts[k] == Den(pool, ids[k])
    ensures VisitAll(ts) == VisitIds(pool, ids)
  {
    if ids != [] { ArgumentsVisit(pool, ts[1..], ids[1..]); }
  }

  lemma SolveInstance(pool: seq<Node>, coercions: Coercions, solved: seq<TypeParam>, passed: TypeId, arg: TypeId)
    requires Below(pool) && Placement(pool) && passed < |pool| && arg < |pool|
    requires InstanceOf(pool[arg]).Some? && InstanceOf(pool[passed]).Some?
    requires pool[passed].inst.value.parent == pool[arg].inst.value.parent
    ensures InstanceBelow(pool[passed].inst, passed) && InstanceBelow(pool[arg].inst, arg)
    ensures Solve(pool, coercions, solved, passed, arg) ==
      SolveIds(pool, coercions, solved, pool[passed].inst.value.args, pool[arg].inst.value.args, |pool|, arg)
  {
    InstanceInfoBelow(pool, passed);
    InstanceInfoBelow(pool, arg);
  }

  lemma {:induction false} InstanceInverts(pool: seq<Node>, specs: map<Instance, TypeId>, coercions: Coercions,
                                           solved: seq<TypeParam>, passed: TypeId, arg: TypeId,
                                           keys: seq<Tree>, vals: seq<Tree>, asg: imap<Ident, Tree>)
    requires GoodPool(pool, specs, None) && Instantiates(pool, passed, arg, keys, vals, asg)
    requires SolvedOk(pool, solved, asg)
    requires InstanceOf(pool[arg]).Some?
    ensures Extends(pool, solved, Solve(pool, coercions, solved, passed, arg), asg, Visit(Den(pool, arg)))
    decreases arg, 1
  {
    InstanceChildrenInstantiate(pool, passed, arg, keys, vals, asg);
    var ps, args := pool[passed].inst.value.args, pool[arg].inst.value.args;
    SolveInstance(pool, coercions, solved, passed, arg);
    IdsInvert(pool, specs, coercions, solved, ps, args, |pool|, arg, keys, vals, asg);
  }

  // ---------- variants ----------

  /** A type made from a variant by substitution is a variant with the same index, of an enum made from its enum. */
  lemma VariantOfSubstituted(pool: seq<Node>, passed: TypeId, arg: TypeId, keys: seq<Tree>, vals: seq<Tree>)
    requires ValidPool(pool) && passed < |pool| && arg < |pool| && |keys| <= |vals| && pool[arg].EnumVariant?
    requires Den(pool, passed) == SubstTree(Den(pool, arg), keys, vals)
    ensures pool[passed].EnumVariant? && pool[passed].variant.index == pool[arg].variant.index
    ensures Den(pool, WholeEnum(pool, passed)) == SubstTree(Den(pool, WholeEnum(pool, arg)), keys, vals)
    ensures Den(pool, arg).TVariant? && Den(pool, arg).whole == Den(pool, WholeEnum(pool, arg))
  {
    VariantMeaning(pool, arg);
    assert Den(pool, passed).TVariant?;
    VariantMeaning(pool, passed);
  }

  /** Through a variant of an instance the arguments are compared, through any other variant nothing is. */
  lemma SolveVariant(pool: seq<Node>, coercions: Coercions, solved: seq<TypeParam>, passed: TypeId, arg: TypeId)
    requires ValidPool(pool) && passed < |pool| && arg < |pool| && pool[passed].EnumVariant? && pool[arg].EnumVariant?
    ensures InstanceBelow(InstanceInfo(pool, passed), passed) && InstanceBelow(InstanceInfo(pool, arg), arg)
    ensures var p, a := InstanceInfo(pool, passed), InstanceInfo(pool, arg);
      Solve(pool, coercions, solved, passed, arg) ==
        if p.Some? && a.Some? && p.value.parent == a.value.parent
        then SolveIds(pool, coercions, solved, p.value.args, a.value.args, |pool|, arg) else Ok(solved)
  {
    InstanceInfoBelow(pool, passed);
    InstanceInfoBelow(pool, arg);
  }

  /** The arguments of the two enums, if they are instances, instantiate one another. */
  lemma {:induction false} VariantArgsInstantiate(pool: seq<Node>, passed: TypeId, arg: TypeId, keys: seq<Tree>,
                                                  vals: seq<Tree>, asg: imap<Ident, Tree>)
    requires ValidPool(pool) && Instantiates(pool, passed, arg, keys, vals, asg)
    requires pool[arg].EnumVariant? && pool[passed].EnumVariant? && InstanceInfo(pool, arg).Some?
    ensures InstanceInfo(pool, passed).Some?
    ensures InstanceInfo(pool, passed).value.parent == InstanceInfo(pool, arg).value.parent
    ensures InstanceBelow(InstanceInfo(pool, arg), arg)
    ensures AllInstantiate(pool, InstanceInfo(pool, passed).value.args, InstanceInfo(pool, arg).value.args, keys, vals,
      asg)
    ensures Visit(Den(pool, arg)) == VisitIds(pool, InstanceInfo(pool, arg).value.args)
  {
    VariantOfSubstituted(pool, passed, arg, keys, vals);
    InstanceInfoBelow(pool, arg);
    InstanceChildrenInstantiate(pool, WholeEnum(pool, passed), WholeEnum(pool, arg), keys, vals, asg);
    VariantNames(pool, arg);
  }

  lemma {:induction false} VariantNames(pool: seq<Node>, arg: TypeId)
    requires ValidPool(pool) && arg < |pool| && pool[arg].EnumVariant? && InstanceInfo(pool, arg).Some?
    ensures Visit(Den(pool, arg)) == Visit(Den(pool, WholeEnum(pool, arg)))
  {
    VariantMeaning(pool, arg);
    assert Den(pool, WholeEnum(pool, arg)).TApp?;
  }

  lemma {:induction false} VariantInverts(pool: seq<Node>, specs: map<Instance, TypeId>, coercions: Coercions,
                                          solved: seq<TypeParam>, passed: TypeId, arg: TypeId,
                                          keys: seq<Tree>, vals: seq<Tree>, asg: imap<Ident, Tree>)
    requires GoodPool(pool, specs, None) && Instantiates(pool, passed, arg, keys, vals, asg)
    requires SolvedOk(pool, solved, asg) && pool[arg].EnumVariant?
    ensures Extends(pool, solved, Solve(pool, coercions, solved, passed, arg), asg, Visit(Den(pool, arg)))
    decreases arg, 1
  {
    VariantOfSubstituted(pool, passed, arg, keys, vals);
    SolveVariant(pool, coercions, solved, passed, arg);
    if InstanceInfo(pool, arg).Some? {
      VariantArgsInstantiate(pool, passed, arg, keys, vals, asg);
      var ps, args := InstanceInfo(pool, passed).value.args, InstanceInfo(pool, arg).value.args;
      IdsInvert(pool, specs, coercions, solved, ps, args, |pool|, arg, keys, vals, asg);
    } else {
      PlainVariantHides(pool, solved, arg, asg);
    }
  }

  lemma PlainVariantHides(pool: seq<Node>, solved: seq<TypeParam>, arg: TypeId, asg: imap<Ident, Tree>)
    requires ValidPool(pool) && arg < |pool| && pool[arg].EnumVariant? && InstanceInfo(pool, arg).None?
    requires SolvedOk(pool, solved, asg)
    ensures Extends(pool, solved, Ok(solved), asg, Visit(Den(pool, arg)))
  {
    VariantMeaning(pool, arg);
    assert !Den(pool, WholeEnum(pool, arg)).TApp?;
  }

  // ---------- the main result ----------

  /** The variable v occurs in t. */
  ghost predicate HasVar(v: Tree, t: Tree)
    decreases t
  {
    match t
    case TVar(_, _) => t == v
    case TRef(inner) => HasVar(v, inner)
    case TStruct(fs) => exists k :: 0 <= k < |fs| && HasVar(v, fs[k].tree)
    case TEnum(vs) => exists k :: 0 <= k < |vs| && vs[k].payload.Some? && HasVar(v, vs[k].payload.value)
    case TApp(_, args) => exists k :: 0 <= k < |args| && HasVar(v, args[k])
    case TVariant(whole, _) => HasVar(v, whole)
    case _ => false
  }

  /** Variables of t that share a name are replaced by the same type: inference goes by name, not by scope. */
  ghost predicate SameNamedAgree(t: Tree, keys: seq<Tree>, vals: seq<Tree>)
    requires |keys| <= |vals|
  {
    forall n, s1, s2 :: HasVar(TVar(n, s1), t) && HasVar(TVar(n, s2), t) ==>
      Lookup(TVar(n, s1), keys, vals) == Lookup(TVar(n, s2), keys, vals)
  }

  /** The outcome has one entry for each variable name of t and no other, and it denotes the variable's replacement. */
  ghost predicate Recovers(pool: seq<Node>, r: Result<seq<TypeParam>>, t: Tree, keys: seq<Tree>, vals: seq<Tree>)
    requires Below(pool) && |keys| <= |vals|
  {
    && r.Ok?
    && (forall i, j :: 0 <= i < j < |r.value| ==> r.value[i].name != r.value[j].name)
    && (forall i :: 0 <= i < |r.value| ==> r.value[i].typeId < |pool| && Occurs(r.value[i].name, t))
    && (forall n, s :: HasVar(TVar(n, s), t) ==> Named(r.value, n))
    && forall i, s :: 0 <= i < |r.value| && HasVar(TVar(r.value[i].name, s), t) ==>
         Den(pool, r.value[i].typeId) == Lookup(TVar(r.value[i].name, s), keys, vals)
  }

  lemma {:induction false} OccursAsVar(n: Ident, t: Tree) returns (s: ScopeId)
    requires Occurs(n, t)
    ensures HasVar(TVar(n, s), t)
    decreases t
  {
    match t {
      case TVar(_, scope) => s := scope;
      case TRef(inner) => s := OccursAsVar(n, inner);
      case TStruct(fs) =>
        var k :| 0 <= k < |fs| && Occurs(n, fs[k].tree);
        s := OccursAsVar(n, fs[k].tree);
      case TEnum(vs) =>
        var k :| 0 <= k < |vs| && vs[k].payload.Some? && Occurs(n, vs[k].payload.value);
        s := OccursAsVar(n, vs[k].payload.value);
      case TApp(_, args) =>
        var k :| 0 <= k < |args| && Occurs(n, args[k]);
        s := OccursAsVar(n, args[k]);
      case TVariant(whole, _) => s := OccursAsVar(n, whole);
    }
  }

  lemma {:induction false} VarOccurs(n: Ident, s: ScopeId, t: Tree)
    requires HasVar(TVar(n, s), t)
    ensures Occurs(n, t)
    decreases t
  {
    match t {
      case TVar(_, _) =>
      case TRef(inner) => VarOccurs(n, s, inner);
      case TStruct(fs) =>
        var k :| 0 <= k < |fs| && HasVar(TVar(n, s), fs[k].tree);
        VarOccurs(n, s, fs[k].tree);
      case TEnum(vs) =>
        var k :| 0 <= k < |vs| && vs[k].payload.Some? && HasVar(TVar(n, s), vs[k].payload.value);
        VarOccurs(n, s, vs[k].payload.value);
      case TApp(_, args) =>
        var k :| 0 <= k < |args| && HasVar(TVar(n, s), args[k]);
        VarOccurs(n, s, args[k]);
      case TVariant(whole, _) => VarOccurs(n, s, whole);
    }
  }

  /** What the name n stands for in t. */
  ghost function Image(n: Ident, t: Tree, keys: seq<Tree>, vals: seq<Tree>): Tree
    requires |keys| <= |vals| && exists s :: HasVar(TVar(n, s), t)
  {
    var s :| HasVar(TVar(n, s), t);
    Lookup(TVar(n, s), keys, vals)
  }

  ghost function Assignment(t: Tree, keys: seq<Tree>, vals: seq<Tree>): imap<Ident, Tree>
    requires |keys| <= |vals|
  {
    imap n | exists s :: HasVar(TVar(n, s), t) :: Image(n, t, keys, vals)
  }

  ghost predicate AssignsVars(t: Tree, keys: seq<Tree>, vals: seq<Tree>, asg: imap<Ident, Tree>)
    requires |keys| <= |vals|
  {
    forall n, s :: HasVar(TVar(n, s), t) ==> n in asg && asg[n] == Lookup(TVar(n, s), keys, vals)
  }

  /** Agreement along the tree is agreement on each variable. */
  lemma {:induction false} AgreesOnVars(t: Tree, keys: seq<Tree>, vals: seq<Tree>, asg: imap<Ident, Tree>)
    requires |keys| <= |vals| && AssignsVars(t, keys, vals, asg)
    ensures Agrees(t, keys, vals, asg)
    decreases t
  {
    match t {
      case TVar(n, s) => assert HasVar(TVar(n, s), t);
      case TRef(inner) =>
        assert forall n, s :: HasVar(TVar(n, s), inner) ==> HasVar(TVar(n, s), t);
        AgreesOnVars(inner, keys, vals, asg);
      case TStruct(fs) =>
        forall k | 0 <= k < |fs| ensures Agrees(fs[k].tree, keys, vals, asg) {
          assert forall n, s :: HasVar(TVar(n, s), fs[k].tree) ==> HasVar(TVar(n, s), t);
          AgreesOnVars(fs[k].tree, keys, vals, asg);
        }
      case TEnum(vs) =>
        forall k | 0 <= k < |vs| && vs[k].payload.Some? ensures Agrees(vs[k].payload.value, keys, vals, asg) {
          assert forall n, s :: HasVar(TVar(n, s), vs[k].payload.value) ==> HasVar(TVar(n, s), t);
          AgreesOnVars(vs[k].payload.value, keys, vals, asg);
        }
      case TApp(_, args) =>
        forall k | 0 <= k < |args| ensures Agrees(args[k], keys, vals, asg) {
          assert forall n, s :: HasVar(TVar(n, s), args[k]) ==> HasVar(TVar(n, s), t);
          AgreesOnVars(args[k], keys, vals, asg);
        }
      case TVariant(whole, _) =>
        assert forall n, s :: HasVar(TVar(n, s), whole) ==> HasVar(TVar(n, s), t);
        AgreesOnVars(whole, keys, vals, asg);
      case _ =>
    }
  }

  /** No variable name of t is met only inside variants of enums that are not instances. */
  ghost predicate AllSeen(t: Tree) {
    forall n :: Occurs(n, t) ==> Seen(n, t)
  }

  lemma {:induction false} SeenOccurs(n: Ident, t: Tree)
    requires Seen(n, t)
    ensures Occurs(n, t)
    decreases t
  {
    match t {
      case TVar(_, _) =>
      case TRef(inner) => SeenOccurs(n, inner);
      case TStruct(fs) =>
        var k :| 0 <= k < |fs| && Seen(n, fs[k].tree);
        SeenOccurs(n, fs[k].tree);
      case TEnum(vs) =>
        var k :| 0 <= k < |vs| && vs[k].payload.Some? && Seen(n, vs[k].payload.value);
        SeenOccurs(n, vs[k].payload.value);
      case TApp(_, args) =>
        var k :| 0 <= k < |args| && Seen(n, args[k]);
        SeenOccurs(n, args[k]);
      case TVariant(whole, _) => SeenOccurs(n, whole);
    }
  }

  /** Main result: matching a type against a parameter type whose variables were replaced to make it returns exactly
      that replacement, if and only if same-named variables were replaced alike and each is met outside variants of
      enums that are not instances. */
  lemma InferenceInvertsSubstitution(pool: seq<Node>, specs: map<Instance, TypeId>, coercions: Coercions,
                                     passed: TypeId, arg: TypeId, keys: seq<Tree>, vals: seq<Tree>)
    requires GoodPool(pool, specs, None) && passed < |pool| && arg < |pool| && |keys| <= |vals|
    requires Den(pool, passed) == SubstTree(Den(pool, arg), keys, vals)
    ensures Recovers(pool, Solve(pool, coercions, [], passed, arg), Den(pool, arg), keys, vals) <==>
      SameNamedAgree(Den(pool, arg), keys, vals) && AllSeen(Den(pool, arg))
  {
    var t, r := Den(pool, arg), Solve(pool, coercions, [], passed, arg);
    if Recovers(pool, r, t, keys, vals) { RecoveredAgree(pool, r, t, keys, vals); }
    if SameNamedAgree(t, keys, vals) {
      var asg := Assignment(t, keys, vals);
      AgreesOnVars(t, keys, vals, asg);
      SolveInverts(pool, specs, coercions, [], passed, arg, keys, vals, asg);
      if AllSeen(t) { ExtendsRecovers(pool, r, t, keys, vals, asg); }
      if Recovers(pool, r, t, keys, vals) { RecoveredSeen(pool, r, t, keys, vals, asg); }
    }
  }

  // ---------- one variant of an enum, passed for the enum ----------

  /** A variant is matched against an enum as its whole enum is, whether or not they are instances. */
  lemma {:induction false} VariantSolvedAsEnum(pool: seq<Node>, coercions: Coercions, solved: seq<TypeParam>,
                                               passed: TypeId, arg: TypeId)
    requires Below(pool) && Placement(pool) && passed < |pool| && arg < |pool|
    requires pool[passed].EnumVariant? && pool[arg].Enum?
    ensures Solve(pool, coercions, solved, passed, arg) ==
      Solve(pool, coercions, solved, WholeEnum(pool, passed), arg)
  {
    var e := WholeEnum(pool, passed);
    assert PlacedAt(pool, passed) && InstanceInfo(pool, passed) == InstanceInfo(pool, e);
  }

  /** What is passed has the type given, or, for an enum, is one of its variants. */
  ghost predicate PassedAs(pool: seq<Node>, passed: TypeId, arg: TypeId, t: Tree)
    requires Below(pool) && Placement(pool) && passed < |pool| && arg < |pool|
  {
    || Den(pool, passed) == t
    || (pool[passed].EnumVariant? && pool[arg].Enum? && Den(pool, WholeEnum(pool, passed)) == t)
  }

  /** What is passed comes from the parameter type by the substitution, or is a variant of what does. */
  lemma {:induction false} PassedInverts(pool: seq<Node>, specs: map<Instance, TypeId>, coercions: Coercions,
                                         solved: seq<TypeParam>, passed: TypeId, arg: TypeId,
                                         keys: seq<Tree>, vals: seq<Tree>, asg: imap<Ident, Tree>)
    requires GoodPool(pool, specs, None) && passed < |pool| && arg < |pool| && |keys| <= |vals|
    requires PassedAs(pool, passed, arg, SubstTree(Den(pool, arg), keys, vals))
    requires Agrees(Den(pool, arg), keys, vals, asg) && SolvedOk(pool, solved, asg)
    ensures Extends(pool, solved, Solve(pool, coercions, solved, passed, arg), asg, Visit(Den(pool, arg)))
  {
    if Den(pool, passed) == SubstTree(Den(pool, arg), keys, vals) {
      SolveInverts(pool, specs, coercions, solved, passed, arg, keys, vals, asg);
    } else {
      VariantSolvedAsEnum(pool, coercions, solved, passed, arg);
      SolveInverts(pool, specs, coercions, solved, WholeEnum(pool, passed), arg, keys, vals, asg);
    }
  }

  /** A variant passed for an enum reveals the assignment exactly when its whole enum does. */
  lemma {:induction false} VariantInvertsExactlyWhen(pool: seq<Node>, specs: map<Instance, TypeId>,
                                                     coercions: Coercions, passed: TypeId, arg: TypeId,
                                                     keys: seq<Tree>, vals: seq<Tree>)
    requires GoodPool(pool, specs, None) && passed < |pool| && arg < |pool| && |keys| <= |vals|
    requires pool[passed].EnumVariant? && pool[arg].Enum?
    requires Den(pool, WholeEnum(pool, passed)) == SubstTree(Den(pool, arg), keys, vals)
    ensures Recovers(pool, Solve(pool, coercions, [], passed, arg), Den(pool, arg), keys, vals) <==>
      SameNamedAgree(Den(pool, arg), keys, vals) && AllSeen(Den(pool, arg))
  {
    VariantSolvedAsEnum(pool, coercions, [], passed, arg);
    InferenceInvertsSubstitution(pool, specs, coercions, WholeEnum(pool, passed), arg, keys, vals);
  }

  lemma RecoveredSeen(pool: seq<Node>, r: Result<seq<TypeParam>>, t: Tree, keys: seq<Tree>, vals: seq<Tree>,
                      asg: imap<Ident, Tree>)
    requires Below(pool) && |keys| <= |vals| && Recovers(pool, r, t, keys, vals) && Extends(pool, [], r, asg, Visit(t))
    ensures AllSeen(t)
  {
    ExtendsNames(pool, [], r, asg, t);
    forall n | Occurs(n, t) ensures Seen(n, t) {
      var s := OccursAsVar(n, t);
      assert Named(r.value, n);
    }
  }

  /** One entry per name leaves no room for two different replacements. */
  lemma RecoveredAgree(pool: seq<Node>, r: Result<seq<TypeParam>>, t: Tree, keys: seq<Tree>, vals: seq<Tree>)
    requires Below(pool) && |keys| <= |vals| && Recovers(pool, r, t, keys, vals)
    ensures SameNamedAgree(t, keys, vals)
  {
    forall n, s1, s2 | HasVar(TVar(n, s1), t) && HasVar(TVar(n, s2), t)
      ensures Lookup(TVar(n, s1), keys, vals) == Lookup(TVar(n, s2), keys, vals)
    {
      assert Named(r.value, n);
    }
  }

  lemma ExtendsRecovers(pool: seq<Node>, r: Result<seq<TypeParam>>, t: Tree, keys: seq<Tree>, vals: seq<Tree>,
                        asg: imap<Ident, Tree>)
    requires Below(pool) && |keys| <= |vals| && AssignsVars(t, keys, vals, asg) && Extends(pool, [], r, asg, Visit(t))
    requires AllSeen(t)
    ensures Recovers(pool, r, t, keys, vals)
  {
    ExtendsNames(pool, [], r, asg, t);
    forall n, s | HasVar(TVar(n, s), t) ensures Named(r.value, n) {
      VarOccurs(n, s, t);
    }
    forall i | 0 <= i < |r.value| ensures Occurs(r.value[i].name, t) {
      assert Named(r.value, r.value[i].name);
      SeenOccurs(r.value[i].name, t);
    }
  }

  // ---------- which parameter types are always inverted ----------

  /** No two variables of t share a name. */
  ghost predicate NamesTellVariables(t: Tree) {
    forall n, s1, s2 :: HasVar(TVar(n, s1), t) && HasVar(TVar(n, s2), t) ==> s1 == s2
  }

  /** Same-named variables are replaced alike by every substitution exactly when there are none. */
  lemma {:induction false} AlwaysAgreesExactlyWhen(t: Tree)
    ensures NamesTellVariables(t) <==> forall keys, vals | |keys| <= |vals| :: SameNamedAgree(t, keys, vals)
  {
    if !NamesTellVariables(t) {
      var n, s1, s2 :| HasVar(TVar(n, s1), t) && HasVar(TVar(n, s2), t) && s1 != s2;
      var keys, vals := [TVar(n, s1)], [TScalar(if s2 == 0 then UnitType else BoolType)];
      assert Lookup(TVar(n, s2), keys, vals) == Lookup(TVar(n, s2), keys[1..], vals[1..]);
      assert !SameNamedAgree(t, keys, vals);
    }
  }

  /** For such parameter types inference inverts a substitution exactly when it meets all their variables. */
  lemma DistinctNamesInvert(pool: seq<Node>, specs: map<Instance, TypeId>, coercions: Coercions,
                            passed: TypeId, arg: TypeId, keys: seq<Tree>, vals: seq<Tree>)
    requires GoodPool(pool, specs, None) && passed < |pool| && arg < |pool| && |keys| <= |vals|
    requires Den(pool, passed) == SubstTree(Den(pool, arg), keys, vals)
    requires NamesTellVariables(Den(pool, arg))
    ensures Recovers(pool, Solve(pool, coercions, [], passed, arg), Den(pool, arg), keys, vals) <==>
      AllSeen(Den(pool, arg))
  {
    AlwaysAgreesExactlyWhen(Den(pool, arg));
    InferenceInvertsSubstitution(pool, specs, coercions, passed, arg, keys, vals);
  }

  /** Type expressions without member access and without namespaces: every name is looked up in one scope. */
  datatype PlainTypeExpr =
    | NameExpr(name: Ident)
    | ReferenceExpr(inner: PlainTypeExpr)
    | StructExpr(fields: seq<(Ident, PlainTypeExpr)>)
    | EnumExpr(variants: seq<(Ident, Option<PlainTypeExpr>)>)
    | ApplyExpr(generic: TypeId, args: seq<PlainTypeExpr>)

  /** What a signature's type means when `scope` gives the types of names. */
  ghost function Resolve(scope: map<Ident, Tree>, e: PlainTypeExpr): Option<Tree>
    decreases e
  {
    match e
    case NameExpr(name) => if name in scope then Some(scope[name]) else None
    case ReferenceExpr(inner) =>
      var t := Resolve(scope, inner);
      if t.Some? then Some(TRef(t.value)) else None
    case StructExpr(fs) =>
      if forall k :: 0 <= k < |fs| ==> Resolve(scope, fs[k].1).Some? then
        Some(TStruct(seq(|fs|, k requires 0 <= k < |fs| => TreeField(fs[k].0, Resolve(scope, fs[k].1).value))))
      else None
    case EnumExpr(vs) =>
      if forall k :: 0 <= k < |vs| ==> vs[k].1.Some? ==> Resolve(scope, vs[k].1.value).Some? then
        Some(TEnum(seq(|vs|, k requires 0 <= k < |vs| =>
          TreeVariant(vs[k].0, if vs[k].1.Some? then Resolve(scope, vs[k].1.value) else None))))
      else None
    case ApplyExpr(g, args) =>
      if forall k :: 0 <= k < |args| ==> Resolve(scope, args[k]).Some? then
        Some(TApp(g, seq(|args|, k requires 0 <= k < |args| => Resolve(scope, args[k]).value)))
      else None
  }

  /** Type variables are in scope under their own names; everything else a name stands for mentions none. */
  ghost predicate VariablesUnderOwnName(scope: map<Ident, Tree>) {
    forall name :: name in scope ==> Closed(scope[name]) || (scope[name].TVar? && scope[name].name == name)
  }

  lemma {:induction false} ClosedHasNoVar(v: Tree, t: Tree)
    requires Closed(t) && v.TVar?
    ensures !HasVar(v, t)
    decreases t
  {
    match t {
      case TRef(inner) => ClosedHasNoVar(v, inner);
      case TStruct(fs) => forall k | 0 <= k < |fs| ensures !HasVar(v, fs[k].tree) { ClosedHasNoVar(v, fs[k].tree); }
      case TEnum(vs) =>
        forall k | 0 <= k < |vs| && vs[k].payload.Some? ensures !HasVar(v, vs[k].payload.value) {
          ClosedHasNoVar(v, vs[k].payload.value);
        }
      case TApp(_, args) => forall k | 0 <= k < |args| ensures !HasVar(v, args[k]) { ClosedHasNoVar(v, args[k]); }
      case TVariant(whole, _) => ClosedHasNoVar(v, whole);
      case _ =>
    }
  }

  lemma {:induction false} ResolvedVariable(scope: map<Ident, Tree>, e: PlainTypeExpr, n: Ident, s: ScopeId)
    requires VariablesUnderOwnName(scope) && Resolve(scope, e).Some? && HasVar(TVar(n, s), Resolve(scope, e).value)
    ensures n in scope && scope[n] == TVar(n, s)
    decreases e
  {
    var t := Resolve(scope, e).value;
    match e {
      case NameExpr(name) => if Closed(t) { ClosedHasNoVar(TVar(n, s), t); }
      case ReferenceExpr(inner) => ResolvedVariable(scope, inner, n, s);
      case StructExpr(fs) =>
        var k :| 0 <= k < |fs| && HasVar(TVar(n, s), t.fields[k].tree);
        ResolvedVariable(scope, fs[k].1, n, s);
      case EnumExpr(vs) =>
        var k :| 0 <= k < |vs| && t.variants[k].payload.Some? && HasVar(TVar(n, s), t.variants[k].payload.value);
        ResolvedVariable(scope, vs[k].1.value, n, s);
      case ApplyExpr(_, args) =>
        var k :| 0 <= k < |args| && HasVar(TVar(n, s), t.args[k]);
        ResolvedVariable(scope, args[k], n, s);
    }
  }

  lemma {:induction false} ResolvedIsSeen(scope: map<Ident, Tree>, e: PlainTypeExpr, n: Ident)
    requires VariablesUnderOwnName(scope) && Resolve(scope, e).Some? && Occurs(n, Resolve(scope, e).value)
    ensures Seen(n, Resolve(scope, e).value)
    decreases e
  {
    var t := Resolve(scope, e).value;
    match e {
      case NameExpr(name) =>
        if Closed(t) {
          var s := OccursAsVar(n, t);
          ClosedHasNoVar(TVar(n, s), t);
        }
      case ReferenceExpr(inner) => ResolvedIsSeen(scope, inner, n);
      case StructExpr(fs) =>
        var k :| 0 <= k < |fs| && Occurs(n, t.fields[k].tree);
        ResolvedIsSeen(scope, fs[k].1, n);
      case EnumExpr(vs) =>
        var k :| 0 <= k < |vs| && t.variants[k].payload.Some? && Occurs(n, t.variants[k].payload.value);
        ResolvedIsSeen(scope, vs[k].1.value, n);
      case ApplyExpr(_, args) =>
        var k :| 0 <= k < |args| && Occurs(n, t.args[k]);
        ResolvedIsSeen(scope, args[k], n);
    }
  }

  /** A signature whose names are all looked up in one scope cannot mix two variables of one name, and hides none. */
  lemma OneScopeTellsVariables(scope: map<Ident, Tree>, e: PlainTypeExpr)
    requires VariablesUnderOwnName(scope) && Resolve(scope, e).Some?
    ensures NamesTellVariables(Resolve(scope, e).value) && AllSeen(Resolve(scope, e).value)
  {
    forall n | Occurs(n, Resolve(scope, e).value) ensures Seen(n, Resolve(scope, e).value) {
      ResolvedIsSeen(scope, e, n);
    }
    forall n, s1, s2 | HasVar(TVar(n, s1), Resolve(scope, e).value) && HasVar(TVar(n, s2), Resolve(scope, e).value)
      ensures s1 == s2
    {
      ResolvedVariable(scope, e, n, s1);
      ResolvedVariable(scope, e, n, s2);
    }
  }

  // ---------- a signature that mixes two variables of one name ----------

  /** With `fn g[T](x: T): T` in scope, `fn f[T](p: { a: T, b: g.x })` has entry 4 as its parameter type: a function's
      name is a type, whose members are its parameters' types, here g's variable T. Entry 5 is the type of
      a variable v that holds `{ a: 1, b: true }`. */
  function ClashPool(): seq<Node> {
    [TypeVariable("T", 0), TypeVariable("T", 1), Integer(I64), Scalar(BoolType),
     Struct([Field("a", 0), Field("b", 1)], None, None), Struct([Field("a", 2), Field("b", 3)], None, None)]
  }

  lemma {:induction false} ClashPoolIsValid(pool: seq<Node>)
    requires pool == ClashPool()
    ensures ValidPool(pool)
  {
    assert Below(pool);
    assert Placement(pool) by {
      assert forall i :: 0 <= i < |pool| ==> !pool[i].Enum? && !pool[i].EnumVariant?;
    }
    assert forall i :: 0 <= i < |pool| ==> InstanceOf(pool[i]).None?;
    forall i, j | 0 <= i < j < |pool| ensures !TypeEq(pool[i], pool[j]) {
      if j == 5 { assert pool[j].fields[0] == Field("a", 2); }
      if i == 4 { assert pool[i].fields[0] == Field("a", 0); }
    }
  }

  lemma {:induction false} PairMeaning(pool: seq<Node>, id: TypeId, f: Field, g: Field)
    requires Below(pool) && id < |pool| && pool[id] == Struct([f, g], None, None) && f.typeId < id && g.typeId < id
    ensures Den(pool, id) == TStruct([TreeField(f.name, Den(pool, f.typeId)), TreeField(g.name, Den(pool, g.typeId))])
  {
    assert [f, g][0] == f && [f, g][1] == g;
    assert Shape(pool, id).fields == [TreeField(f.name, Den(pool, f.typeId)), TreeField(g.name, Den(pool, g.typeId))];
  }

  lemma {:induction false} PairSubstituted(f: TreeField, g: TreeField, keys: seq<Tree>, vals: seq<Tree>)
    requires |keys| <= |vals|
    ensures SubstTree(TStruct([f, g]), keys, vals) ==
      TStruct([TreeField(f.name, SubstTree(f.tree, keys, vals)), TreeField(g.name, SubstTree(g.tree, keys, vals))])
  {
    assert [f, g][0] == f && [f, g][1] == g;
    assert SubstTree(TStruct([f, g]), keys, vals).fields ==
      [TreeField(f.name, SubstTree(f.tree, keys, vals)), TreeField(g.name, SubstTree(g.tree, keys, vals))];
  }

  /** The struct {a: I64, b: Bool} is {a: T, b: T} with the two variables, of different scopes, replaced. */
  lemma {:induction false} ClashIsSubstitution(pool: seq<Node>)
    requires pool == ClashPool() && Below(pool)
    ensures Den(pool, 5) == SubstTree(Den(pool, 4), [TVar("T", 0), TVar("T", 1)], [TInt(I64), TScalar(BoolType)])
  {
    var keys, vals := [TVar("T", 0), TVar("T", 1)], [TInt(I64), TScalar(BoolType)];
    PairMeaning(pool, 4, Field("a", 0), Field("b", 1));
    PairMeaning(pool, 5, Field("a", 2), Field("b", 3));
    PairSubstituted(TreeField("a", TVar("T", 0)), TreeField("b", TVar("T", 1)), keys, vals);
    assert keys[1..] == [TVar("T", 1)] && vals[1..] == [TScalar(BoolType)];
    assert Lookup(TVar("T", 1), keys, vals) == Lookup(TVar("T", 1), keys[1..], vals[1..]);
  }

  lemma {:induction false} ClashRefused(pool: seq<Node>)
    requires pool == ClashPool() && Below(pool) && Placement(pool)
    ensures Solve(pool, {}, [], 5, 4) == Err
  {
    var none: seq<TypeParam> := [];
    var first := [TypeParam("T", 2)];
    assert none + first == first;
    assert Solve(pool, {}, none, 2, 0) == Ok(first);
    var ps, fs := [Field("a", 2), Field("b", 3)], [Field("a", 0), Field("b", 1)];
    assert ps[1..] == [Field("b", 3)] && fs[1..] == [Field("b", 1)];
    assert SolveFields(pool, {}, first, ps[1..], fs[1..], 5, 4) == Err by { SecondClashes(pool, first); }
    assert SolveFields(pool, {}, none, ps, fs, 5, 4) == Err;
  }

  lemma {:induction false} SecondClashes(pool: seq<Node>, first: seq<TypeParam>)
    requires pool == ClashPool() && Below(pool) && Placement(pool) && first == [TypeParam("T", 2)]
    ensures Solve(pool, {}, first, 3, 1) == Err
  {
    assert FindSolution(first, "T") == Some(2);
  }

  /** The call `f(v)` is refused although the passed type arises by substitution. */
  lemma {:induction false} ClashingNamesFail()
    ensures var pool := ClashPool();
      && ValidPool(pool)
      && Den(pool, 5) == SubstTree(Den(pool, 4), [TVar("T", 0), TVar("T", 1)], [TInt(I64), TScalar(BoolType)])
      && Solve(pool, {}, [], 5, 4) == Err
  {
    ClashPoolIsValid(ClashPool());
    ClashIsSubstitution(ClashPool());
    ClashRefused(ClashPool());
  }

  // ---------- a parameter type that hides its variable ----------

  function Anonymous(a: TypeId, b: TypeId): Node {
    Enum([Variant("A", 0, Some(a), 0, 0), Variant("B", 1, Some(b), 0, 0)], None, None)
  }

  /** With `fn f[T](x: enum A(T), B(i64).A): T` entry 2 is the parameter type, the first variant of entry
      4. Entry 5 is the
      type of a variable v of type `enum A(i64), B(i64).A`. */
  function HidingPool(): seq<Node> {
    Appended(Appended([TypeVariable("T", 0), Integer(I64)], Anonymous(0, 1)), Anonymous(1, 1))
  }

  ghost predicate HidingEntries(pool: seq<Node>) {
    && |pool| == 8 && pool[0] == TypeVariable("T", 0) && pool[1] == Integer(I64)
    && pool[2] == EnumVariant(Variant("A", 0, Some(0), 2, 4)) && pool[3] == EnumVariant(Variant("B", 1, Some(1), 3, 4))
    && pool[4] == Enum([Variant("A", 0, Some(0), 2, 4), Variant("B", 1, Some(1), 3, 4)], None, None)
    && pool[5] == EnumVariant(Variant("A", 0, Some(1), 5, 7)) && pool[6] == EnumVariant(Variant("B", 1, Some(1), 6, 7))
    && pool[7] == Enum([Variant("A", 0, Some(1), 5, 7), Variant("B", 1, Some(1), 6, 7)], None, None)
  }

  lemma {:induction false} AnonymousAppended(pool: seq<Node>, a: TypeId, b: TypeId)
    ensures var n, v, w := |pool|, Variant("A", 0, Some(a), |pool|, |pool| + 2),
      Variant("B", 1, Some(b), |pool| + 1, |pool| + 2);
      Appended(pool, Anonymous(a, b)) == pool + [EnumVariant(v), EnumVariant(w), Enum([v, w], None, None)]
  {
    var v, w := Variant("A", 0, Some(a), |pool|, |pool| + 2), Variant("B", 1, Some(b), |pool| + 1, |pool| + 2);
    assert Placed(Anonymous(a, b).variants, |pool|) == [v, w];
    assert VariantNodes([v, w]) == [EnumVariant(v), EnumVariant(w)];
  }

  lemma {:induction false} AnonymousKeepsValid(pool: seq<Node>, a: TypeId, b: TypeId)
    requires ValidPool(pool) && a < |pool| && b < |pool|
    requires forall i :: 0 <= i < |pool| ==> !TypeEq(pool[i], Anonymous(a, b))
    ensures ValidPool(Appended(pool, Anonymous(a, b)))
  {
    AppendedKeepsInvariant(pool, Anonymous(a, b));
  }

  lemma {:induction false} HidingPoolIsValid()
    ensures HidingEntries(HidingPool()) && ValidPool(HidingPool())
  {
    var first := [TypeVariable("T", 0), Integer(I64)];
    AnonymousKeepsValid(first, 0, 1);
    AnonymousAppended(first, 0, 1);
    SecondKeepsValid(first, Appended(first, Anonymous(0, 1)));
  }

  lemma {:induction false} SecondKeepsValid(first: seq<Node>, second: seq<Node>)
    requires first == [TypeVariable("T", 0), Integer(I64)] && ValidPool(second)
    requires var v, w := Variant("A", 0, Some(0), 2, 4), Variant("B", 1, Some(1), 3, 4);
      second == first + [EnumVariant(v), EnumVariant(w), Enum([v, w], None, None)]
    ensures HidingEntries(Appended(second, Anonymous(1, 1))) && ValidPool(Appended(second, Anonymous(1, 1)))
  {
    assert second[4].variants[0].payload != Anonymous(1, 1).variants[0].payload;
    AnonymousKeepsValid(second, 1, 1);
    AnonymousAppended(second, 1, 1);
  }

  lemma {:induction false} HidingUnnamed(pool: seq<Node>)
    requires HidingEntries(pool)
    ensures NothingNamed(pool)
  {
    forall i | 0 <= i < |pool| ensures Unnamed(pool[i]) {
      assert i == 0 || i == 1 || i == 2 || i == 3 || i == 4 || i == 5 || i == 6 || i == 7;
    }
  }

  lemma {:induction false} PairEnumMeaning(pool: seq<Node>, e: TypeId, v: Variant, w: Variant)
    requires Below(pool) && e < |pool| && pool[e] == Enum([v, w], None, None)
    requires v.payload.Some? && w.payload.Some? && v.payload.value < e && w.payload.value < e
    ensures Den(pool, e) == TEnum([TreeVariant(v.name, Some(Den(pool, v.payload.value))),
                                   TreeVariant(w.name, Some(Den(pool, w.payload.value)))])
  {
    assert [v, w][0] == v && [v, w][1] == w;
    assert Shape(pool, e).variants == [TreeVariant(v.name, Some(Den(pool, v.payload.value))),
                                       TreeVariant(w.name, Some(Den(pool, w.payload.value)))];
  }

  /** What enum A(a), B(i64) means. */
  ghost function AOrB(a: Tree): Tree {
    TEnum([TreeVariant("A", Some(a)), TreeVariant("B", Some(TInt(I64)))])
  }

  lemma {:induction false} HidingPoolMeanings(pool: seq<Node>)
    requires HidingEntries(pool) && Below(pool) && Placement(pool)
    ensures Den(pool, 2) == TVariant(AOrB(TVar("T", 0)), 0) && Den(pool, 5) == TVariant(AOrB(TInt(I64)), 0)
  {
    assert pool[2].EnumVariant? && pool[5].EnumVariant?;
    VariantMeaning(pool, 2);
    VariantMeaning(pool, 5);
    PairEnumMeaning(pool, 4, pool[2].variant, pool[3].variant);
    PairEnumMeaning(pool, 7, pool[5].variant, pool[6].variant);
  }

  lemma {:induction false} HiddenMeaning()
    ensures TVariant(AOrB(TInt(I64)), 0) == SubstTree(TVariant(AOrB(TVar("T", 0)), 0), [TVar("T", 0)], [TInt(I64)])
    ensures Occurs("T", TVariant(AOrB(TVar("T", 0)), 0)) && !Seen("T", TVariant(AOrB(TVar("T", 0)), 0))
  {
    var whole := AOrB(TVar("T", 0));
    var t := SubstTree(whole, [TVar("T", 0)], [TInt(I64)]);
    assert t.variants == [TreeVariant("A", Some(TInt(I64))), TreeVariant("B", Some(TInt(I64)))];
    assert Occurs("T", whole.variants[0].payload.value) && Occurs("T", whole);
  }

  /** In the call `f(v)` nothing is found out about T, although v's type is the parameter type with T := i64. */
  lemma {:induction false} HiddenVariableNotInferred()
    ensures var pool := HidingPool();
      && GoodPool(pool, map[], None)
      && Den(pool, 5) == SubstTree(Den(pool, 2), [TVar("T", 0)], [TInt(I64)])
      && Occurs("T", Den(pool, 2)) && !Seen("T", Den(pool, 2))
      && Solve(pool, {}, [], 5, 2) == Ok([])
  {
    HidingPoolIsValid();
    HiddenIn(HidingPool());
  }

  lemma {:induction false} HiddenIn(pool: seq<Node>)
    requires HidingEntries(pool) && ValidPool(pool)
    ensures GoodPool(pool, map[], None) && Den(pool, 5) == SubstTree(Den(pool, 2), [TVar("T", 0)], [TInt(I64)])
    ensures Occurs("T", Den(pool, 2)) && !Seen("T", Den(pool, 2)) && Solve(pool, {}, [], 5, 2) == Ok([])
  {
    HidingUnnamed(pool);
    UnnamedIsGood(pool);
    HidingPoolMeanings(pool);
    HiddenMeaning();
    SolveVariant(pool, {}, [], 5, 2);
  }

  /** The same value passed for the whole enum reveals T. */
  lemma {:induction false} VariantRevealsVariable(pool: seq<Node>)
    requires HidingEntries(pool) && ValidPool(pool)
    ensures Solve(pool, {}, [], 5, 4) == Ok([TypeParam("T", 1)])
  {
    VariantSolvedAsEnum(pool, {}, [], 5, 4);
    var ps, vs := pool[7].variants, pool[4].variants;
    var none: seq<TypeParam> := [];
    var one := [TypeParam("T", 1)];
    assert none + one == one;
    assert Solve(pool, {}, none, 1, 0) == Ok(one) && Solve(pool, {}, one, 1, 1) == Ok(one);
    assert ps[1..][1..] == [] && vs[1..][1..] == [] && PayloadsBelow(ps, 7) && PayloadsBelow(vs, 4);
    assert SolveVariants(pool, {}, one, ps[1..], vs[1..], 7, 4) == Ok(one);
    assert SolveVariants(pool, {}, none, ps, vs, 7, 4) == Ok(one);
    assert WholeEnum(pool, 5) == 7 && Solve(pool, {}, none, 7, 4) == SolveVariants(pool, {}, none, ps, vs, 7, 4);
  }
}
