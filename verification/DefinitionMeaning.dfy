/** What the types of definitions mean, and when the order of evaluation changes it. */
module DefinitionMeaning {
  import opened Wrappers
  import opened Scopes
  import opened Definitions
  import opened DefinitionState
  import opened DefinitionRuns
  import opened DefinitionEvaluator

  datatype Meaning =
    | MVariable(defn: DefnId, name: Ident)
    | MBuilt(defn: DefnId, parts: seq<Meaning>)
    | MGeneric(defn: DefnId, inner: Meaning)
    | MApplied(generic: Meaning, args: seq<Meaning>)
    | MSelf(defn: DefnId)

  /** What an id stands for, ids aside. */
  ghost function Mean(pool: seq<Node>, id: TypeId): Meaning
    requires BuiltBelow(pool) && id < |pool|
    decreases id
  {
    assert NodeBelow(pool[id], id);
    match pool[id]
    case Variable(d, name) => MVariable(d, name)
    case Built(d, parts) => MBuilt(d, seq(|parts|, k requires 0 <= k < |parts| => Mean(pool, parts[k])))
    case Generic(d, inner) => MGeneric(d, Mean(pool, inner))
    case Applied(generic, args) =>
      MApplied(Mean(pool, generic), seq(|args|, k requires 0 <= k < |args| => Mean(pool, args[k])))
    case RecursiveReference(d, _) => MSelf(d)
  }

  ghost predicate Meaningful(p: Program, rank: seq<nat>) {
    ProgramOk(p) && Resolvable(p) && RanksDown(p, rank)
  }

  /** A name that has candidates is meant to stand for one of them. */
  lemma {:induction false} TargetIsCandidate(p: Program, d: DefnId, u: Ident)
    requires ProgramOk(p) && d < |p.defns| && External(p.defns[d], u) && Candidates(p, p.defns[d], u) != {}
    ensures Target(p, p.defns[d], u).Some? && Target(p, p.defns[d], u).value in Candidates(p, p.defns[d], u)
  {
    assert HomeIs(p, d);
    PendingIsSeen(p, p.defns[d].home, u);
    assert forall t :: t in Candidates(p, p.defns[d], u) ==> Sees(p, p.defns[d].home, u, t);
  }

  /** What a definition means, from the program alone. */
  ghost function Meant(p: Program, rank: seq<nat>, d: DefnId): Meaning
    requires Meaningful(p, rank) && d < |p.defns|
    decreases rank[d], 1
  {
    assert DefnFits(p, p.defns[d]);
    var built := MBuilt(d, MeantUses(p, rank, d, p.defns[d].uses, |p.defns[d].uses|));
    if p.defns[d].params != [] then MGeneric(d, built) else built
  }

  ghost function MeantUses(p: Program, rank: seq<nat>, d: DefnId, us: seq<Use>, n: nat): (r: seq<Meaning>)
    requires Meaningful(p, rank) && d < |p.defns| && n <= |us| && NeedsUpTo(p, p.defns[d], us, n) <= NeedsOf(p, d)
    requires forall k :: 0 <= k < n ==> Fits(p, p.defns[d], us[k])
    ensures |r| == n
    decreases rank[d], 0, us, n
  {
    if n == 0 then [] else MeantUses(p, rank, d, us, n - 1) + [MeantUse(p, rank, d, us[n - 1])]
  }

  ghost function MeantUse(p: Program, rank: seq<nat>, d: DefnId, u: Use): Meaning
    requires Meaningful(p, rank) && d < |p.defns|
    requires Fits(p, p.defns[d], u) && Needs(p, p.defns[d], u) <= NeedsOf(p, d)
    decreases rank[d], 0, u
  {
    if u.name in p.defns[d].params then MVariable(d, u.name)
    else if u.name == p.defns[d].name then MSelf(d)
    else
      TargetIsCandidate(p, d, u.name);
      var t := Target(p, p.defns[d], u.name).value;
      assert t in Needs(p, p.defns[d], u) && RankAbove(p, rank, d);
      if u.args == [] then Meant(p, rank, t)
      else MApplied(Meant(p, rank, t), MeantUses(p, rank, d, u.args, |u.args|))
  }

  lemma {:induction false} MeantUsesAt(p: Program, rank: seq<nat>, d: DefnId, us: seq<Use>, n: nat, k: nat)
    requires Meaningful(p, rank) && d < |p.defns| && k < n <= |us| && NeedsUpTo(p, p.defns[d], us, n) <= NeedsOf(p, d)
    requires forall j :: 0 <= j < n ==> Fits(p, p.defns[d], us[j])
    ensures Needs(p, p.defns[d], us[k]) <= NeedsOf(p, d)
    ensures MeantUses(p, rank, d, us, n)[k] == MeantUse(p, rank, d, us[k])
    decreases n
  {
    if k < n - 1 { MeantUsesAt(p, rank, d, us, n - 1, k); }
  }

  // ---------- when types mean what the program says ----------

  /** The type of a use is made from the definition its name is meant to stand for, and has kept its arguments. */
  ghost predicate PartKept(p: Program, defn: Defn, u: Use, part: TypeId, pool: seq<Node>, mapping: map<DefnId, TypeId>)
    decreases u
  {
    && part < |pool|
    && if u.name in defn.params then true
       else if u.name == defn.name then pool[part].RecursiveReference?
       else
         var t := Target(p, defn, u.name);
         && t.Some? && t.value in mapping && (u.args == [] ==> part == mapping[t.value])
         && (u.args != [] ==>
           && pool[part].Applied? && pool[part].generic == mapping[t.value]
           && PartsKept(p, defn, u.args, |u.args|, pool[part].args, pool, mapping))
  }

  ghost predicate PartsKept(p: Program, defn: Defn, us: seq<Use>, n: nat, parts: seq<TypeId>, pool: seq<Node>,
                            mapping: map<DefnId, TypeId>)
    decreases us
  {
    n == |parts| <= |us| && forall k :: 0 <= k < n ==> PartKept(p, defn, us[k], parts[k], pool, mapping)
  }

  ghost predicate DefinedKept(p: Program, s: State, d: DefnId) {
    && d in s.mapping && RootOk(p, d, s.pool, s.mapping[d])
    && PartsKept(p, p.defns[d], p.defns[d].uses, |p.defns[d].uses|, s.pool[BodyOf(s.pool, s.mapping[d])].parts, s.pool,
      s.mapping)
  }

  ghost predicate AllKept(p: Program, s: State) {
    forall d: DefnId :: d in s.mapping ==> DefinedKept(p, s, d)
  }

  /** A use within definition d, its type, and what is known of both. */
  ghost predicate UseInState(p: Program, s: State, rank: seq<nat>, d: DefnId, u: Use, part: TypeId) {
    && WhollyEvaluated(p, s) && Meaningful(p, rank) && d < |p.defns|
    && Fits(p, p.defns[d], u) && Needs(p, p.defns[d], u) <= NeedsOf(p, d)
    && PartOk(p, p.defns[d], d, u, part, s.pool, s.mapping, Period({}, s.mapping.Keys))
  }

  ghost predicate UsesInState(p: Program, s: State, rank: seq<nat>, d: DefnId, us: seq<Use>, n: nat,
                              parts: seq<TypeId>)
  {
    && WhollyEvaluated(p, s) && Meaningful(p, rank) && d < |p.defns| && n <= |us|
    && (forall k :: 0 <= k < n ==> Fits(p, p.defns[d], us[k])) && NeedsUpTo(p, p.defns[d], us, n) <= NeedsOf(p, d)
    && PartsOk(p, p.defns[d], d, us, n, parts, s.pool, s.mapping, Period({}, s.mapping.Keys))
  }

  lemma {:induction false} UseIn(p: Program, s: State, rank: seq<nat>, d: DefnId, us: seq<Use>, n: nat,
                                 parts: seq<TypeId>, k: nat)
    requires UsesInState(p, s, rank, d, us, n, parts) && k < n
    ensures UseInState(p, s, rank, d, us[k], parts[k])
    ensures MeantUses(p, rank, d, us, n)[k] == MeantUse(p, rank, d, us[k])
  {
    MeantUsesAt(p, rank, d, us, n, k);
  }

  /** The arguments that the type of a use is applied to. */
  lemma {:induction false} ArgsIn(p: Program, s: State, rank: seq<nat>, d: DefnId, u: Use, part: TypeId)
    requires UseInState(p, s, rank, d, u, part) && External(p.defns[d], u.name) && s.pool[part].Applied?
    ensures u.args != [] && UsesInState(p, s, rank, d, u.args, |u.args|, s.pool[part].args)
    ensures NodeBelow(s.pool[part], part)
    ensures exists t :: t in Candidates(p, p.defns[d], u.name) && t in s.mapping && s.pool[part].generic == s.mapping[t]
  {
    AllDefined(p, s);
    assert AppliedOk(p, p.defns[d], d, u, s.pool[part], s.pool, s.mapping, Period({}, s.mapping.Keys));
  }

  lemma {:induction false} ReferenceIn(p: Program, s: State, rank: seq<nat>, d: DefnId, u: Use, part: TypeId)
    requires UseInState(p, s, rank, d, u, part) && u.name !in p.defns[d].params && s.pool[part].RecursiveReference?
    ensures s.pool[part].defn == d
  {
    var when := Period({}, s.mapping.Keys);
    assert !AppliedOk(p, p.defns[d], d, u, s.pool[part], s.pool, s.mapping, when);
    forall t: DefnId | t in s.mapping ensures s.mapping[t] != part { assert RootOk(p, t, s.pool, s.mapping[t]); }
  }

  /** The definition whose type a use without arguments has. */
  lemma {:induction false} TargetIn(p: Program, s: State, rank: seq<nat>, d: DefnId, u: Use, part: TypeId)
    returns (t: DefnId)
    requires UseInState(p, s, rank, d, u, part) && External(p.defns[d], u.name) && u.args == []
    ensures t in Candidates(p, p.defns[d], u.name) && t in s.mapping && part == s.mapping[t]
  {
    assert !AppliedOk(p, p.defns[d], d, u, s.pool[part], s.pool, s.mapping, Period({}, s.mapping.Keys));
    assert TargetOk(p, p.defns[d], u.name, part, s.mapping, Period({}, s.mapping.Keys));
    t :| ChosenOk(p, p.defns[d], u.name, t, Period({}, s.mapping.Keys)) && t in s.mapping && part == s.mapping[t];
  }

  lemma {:induction false} PartMeansMeant(p: Program, s: State, rank: seq<nat>, d: DefnId, u: Use, part: TypeId)
    requires UseInState(p, s, rank, d, u, part) && AllKept(p, s) && PartKept(p, p.defns[d], u, part, s.pool, s.mapping)
    ensures Mean(s.pool, part) == MeantUse(p, rank, d, u)
    decreases rank[d], 0, u
  {
    if External(p.defns[d], u.name) {
      TargetIsCandidate(p, d, u.name);
      var t := Target(p, p.defns[d], u.name).value;
      assert t in Needs(p, p.defns[d], u) && RankAbove(p, rank, d);
      EvaluatedMeansMeant(p, s, rank, t);
      if u.args != [] {
        ArgsIn(p, s, rank, d, u, part);
        PartsMeanMeant(p, s, rank, d, u.args, |u.args|, s.pool[part].args);
        assert Mean(s.pool, part).args == MeantUses(p, rank, d, u.args, |u.args|);
      }
    } else if u.name !in p.defns[d].params {
      ReferenceIn(p, s, rank, d, u, part);
    }
  }

  lemma {:induction false} PartsMeanMeant(p: Program, s: State, rank: seq<nat>, d: DefnId, us: seq<Use>, n: nat,
                                          parts: seq<TypeId>)
    requires UsesInState(p, s, rank, d, us, n, parts) && AllKept(p, s)
    requires PartsKept(p, p.defns[d], us, n, parts, s.pool, s.mapping)
    ensures forall k :: 0 <= k < n ==> parts[k] < |s.pool| && Mean(s.pool, parts[k]) == MeantUses(p, rank, d, us, n)[k]
    decreases rank[d], 0, us
  {
    forall k | 0 <= k < n ensures parts[k] < |s.pool| && Mean(s.pool, parts[k]) == MeantUses(p, rank, d, us, n)[k] {
      UseIn(p, s, rank, d, us, n, parts, k);
      PartMeansMeant(p, s, rank, d, us[k], parts[k]);
    }
  }

  /** What a definition's own uses are in the evaluated program. */
  lemma {:induction false} OwnUsesIn(p: Program, s: State, rank: seq<nat>, d: DefnId)
    requires WhollyEvaluated(p, s) && Meaningful(p, rank) && d < |p.defns|
    ensures RootOk(p, d, s.pool, s.mapping[d])
    ensures NodeBelow(s.pool[BodyOf(s.pool, s.mapping[d])], BodyOf(s.pool, s.mapping[d]))
    ensures UsesInState(p, s, rank, d, p.defns[d].uses, |p.defns[d].uses|,
      s.pool[BodyOf(s.pool, s.mapping[d])].parts)
  {
    Defined(p, s, d);
    assert DefnFits(p, p.defns[d]);
  }

  /** If every use was kept, a definition's type means what the program says. */
  lemma {:induction false} EvaluatedMeansMeant(p: Program, s: State, rank: seq<nat>, d: DefnId)
    requires WhollyEvaluated(p, s) && AllKept(p, s) && Meaningful(p, rank) && d < |p.defns|
    ensures s.mapping[d] < |s.pool| && Mean(s.pool, s.mapping[d]) == Meant(p, rank, d)
    decreases rank[d], 1
  {
    OwnUsesIn(p, s, rank, d);
    var defn, body := p.defns[d], BodyOf(s.pool, s.mapping[d]);
    assert DefinedKept(p, s, d);
    PartsMeanMeant(p, s, rank, d, defn.uses, |defn.uses|, s.pool[body].parts);
    assert Mean(s.pool, body).parts == MeantUses(p, rank, d, defn.uses, |defn.uses|);
  }

  /** The type of a definition means that definition and no other. */
  lemma {:induction false} MeansItself(p: Program, s: State, rank: seq<nat>, a: DefnId, b: DefnId)
    requires StateOk(p, s) && Meaningful(p, rank) && a in s.mapping && b < |p.defns|
    requires s.mapping[a] < |s.pool| && Mean(s.pool, s.mapping[a]) == Meant(p, rank, b)
    ensures a == b
  {
    AllDefined(p, s);
    assert RootOk(p, a, s.pool, s.mapping[a]);
  }

  /** If a use means what the program says, it was kept. */
  lemma {:induction false} MeantIsKept(p: Program, s: State, rank: seq<nat>, d: DefnId, u: Use, part: TypeId)
    requires UseInState(p, s, rank, d, u, part) && Mean(s.pool, part) == MeantUse(p, rank, d, u)
    ensures PartKept(p, p.defns[d], u, part, s.pool, s.mapping)
    decreases u, 1
  {
    if External(p.defns[d], u.name) {
      TargetIsCandidate(p, d, u.name);
      var t := Target(p, p.defns[d], u.name).value;
      if u.args == [] {
        var c := TargetIn(p, s, rank, d, u, part);
        MeansItself(p, s, rank, c, t);
      } else {
        MeantAppliedIsKept(p, s, rank, d, u, part, t);
      }
    }
  }

  lemma {:induction false} MeantAppliedIsKept(p: Program, s: State, rank: seq<nat>, d: DefnId, u: Use, part: TypeId,
                                              t: DefnId)
    requires UseInState(p, s, rank, d, u, part) && Mean(s.pool, part) == MeantUse(p, rank, d, u)
    requires External(p.defns[d], u.name) && u.args != []
    requires Target(p, p.defns[d], u.name) == Some(t) && t in Candidates(p, p.defns[d], u.name)
    ensures PartKept(p, p.defns[d], u, part, s.pool, s.mapping)
    decreases u, 0
  {
    ArgsIn(p, s, rank, d, u, part);
    GenericIn(p, s, rank, d, u, part, t);
    ArgsMean(p, s, rank, d, u, part);
    MeantAreKept(p, s, rank, d, u.args, |u.args|, s.pool[part].args);
  }

  lemma {:induction false} GenericIn(p: Program, s: State, rank: seq<nat>, d: DefnId, u: Use, part: TypeId, t: DefnId)
    requires UseInState(p, s, rank, d, u, part) && Mean(s.pool, part) == MeantUse(p, rank, d, u)
    requires External(p.defns[d], u.name) && u.args != [] && s.pool[part].Applied?
    requires Target(p, p.defns[d], u.name) == Some(t) && t in Candidates(p, p.defns[d], u.name)
    ensures t in s.mapping && s.pool[part].generic == s.mapping[t]
  {
    ArgsIn(p, s, rank, d, u, part);
    var c :| c in Candidates(p, p.defns[d], u.name) && c in s.mapping && s.pool[part].generic == s.mapping[c];
    MeansItself(p, s, rank, c, t);
  }

  lemma {:induction false} ArgsMean(p: Program, s: State, rank: seq<nat>, d: DefnId, u: Use, part: TypeId)
    requires UseInState(p, s, rank, d, u, part) && Mean(s.pool, part) == MeantUse(p, rank, d, u)
    requires External(p.defns[d], u.name) && u.args != [] && s.pool[part].Applied? && NodeBelow(s.pool[part], part)
    ensures var args := s.pool[part].args;
      forall k :: 0 <= k < |args| ==>
        args[k] < |s.pool| && Mean(s.pool, args[k]) == MeantUses(p, rank, d, u.args, |u.args|)[k]
  {
    var args := s.pool[part].args;
    assert forall k :: 0 <= k < |args| ==> Mean(s.pool, part).args[k] == Mean(s.pool, args[k]);
  }

  lemma {:induction false} MeantAreKept(p: Program, s: State, rank: seq<nat>, d: DefnId, us: seq<Use>, n: nat,
                                        parts: seq<TypeId>)
    requires UsesInState(p, s, rank, d, us, n, parts)
    requires forall k :: 0 <= k < n ==> parts[k] < |s.pool| && Mean(s.pool, parts[k]) == MeantUses(p, rank, d, us, n)[k]
    ensures PartsKept(p, p.defns[d], us, n, parts, s.pool, s.mapping)
    decreases us
  {
    forall k | 0 <= k < n ensures PartKept(p, p.defns[d], us[k], parts[k], s.pool, s.mapping) {
      UseIn(p, s, rank, d, us, n, parts, k);
      MeantIsKept(p, s, rank, d, us[k], parts[k]);
    }
  }

  ghost predicate AllMeant(p: Program, s: State, rank: seq<nat>)
    requires WhollyEvaluated(p, s) && Meaningful(p, rank)
  {
    forall d: DefnId :: d < |p.defns| ==> s.mapping[d] < |s.pool| && Mean(s.pool, s.mapping[d]) == Meant(p, rank, d)
  }

  /** Main result on meaning: the definitions' types mean what the program says if and only if each use was made from
      the nearest definition of its name and kept its arguments; with no shadowing, if and only if no type arguments
      were lost. */
  lemma {:induction false} MeansMeantExactlyWhen(p: Program, s: State, rank: seq<nat>)
    requires WhollyEvaluated(p, s) && Meaningful(p, rank)
    ensures AllMeant(p, s, rank) <==> AllKept(p, s)
    ensures NoShadow(p) ==> (AllMeant(p, s, rank) <==> AllFull(p, s))
  {
    if AllKept(p, s) {
      forall d: DefnId | d < |p.defns|
        ensures s.mapping[d] < |s.pool| && Mean(s.pool, s.mapping[d]) == Meant(p, rank, d)
      {
        EvaluatedMeansMeant(p, s, rank, d);
      }
    }
    if AllMeant(p, s, rank) {
      forall d: DefnId | d in s.mapping ensures DefinedKept(p, s, d) { MeantDefinitionIsKept(p, s, rank, d); }
    }
    if NoShadow(p) { KeptIsFull(p, s); }
  }

  lemma {:induction false} MeantDefinitionIsKept(p: Program, s: State, rank: seq<nat>, d: DefnId)
    requires WhollyEvaluated(p, s) && Meaningful(p, rank) && AllMeant(p, s, rank) && d in s.mapping
    ensures DefinedKept(p, s, d)
  {
    AllDefined(p, s);
    OwnUsesIn(p, s, rank, d);
    var defn, body := p.defns[d], BodyOf(s.pool, s.mapping[d]);
    assert Mean(s.pool, s.mapping[d]) == Meant(p, rank, d);
    var parts := s.pool[body].parts;
    assert Mean(s.pool, body).parts == MeantUses(p, rank, d, defn.uses, |defn.uses|);
    assert forall k :: 0 <= k < |parts| ==> Mean(s.pool, body).parts[k] == Mean(s.pool, parts[k]);
    MeantAreKept(p, s, rank, d, defn.uses, |defn.uses|, parts);
  }

  // ---------- with no shadowing ----------

  lemma {:induction false} PartKeptIsFull(p: Program, s: State, d: DefnId, u: Use, part: TypeId, when: Period)
    requires ProgramOk(p) && NoShadow(p) && RootsOk(p, s.pool, s.mapping) && d < |p.defns|
    requires PartOk(p, p.defns[d], d, u, part, s.pool, s.mapping, when)
    ensures PartKept(p, p.defns[d], u, part, s.pool, s.mapping) <==> PartFull(p.defns[d], u, part, s.pool)
    decreases u
  {
    OnlyTarget(p, d, u.name);
    if External(p.defns[d], u.name) && s.pool[part].Applied? {
      assert AppliedOk(p, p.defns[d], d, u, s.pool[part], s.pool, s.mapping, when);
      PartsKeptAreFull(p, s, d, u.args, |u.args|, s.pool[part].args, when);
    }
  }

  lemma {:induction false} PartsKeptAreFull(p: Program, s: State, d: DefnId, us: seq<Use>, n: nat, parts: seq<TypeId>,
                                            when: Period)
    requires ProgramOk(p) && NoShadow(p) && RootsOk(p, s.pool, s.mapping) && d < |p.defns|
    requires PartsOk(p, p.defns[d], d, us, n, parts, s.pool, s.mapping, when)
    ensures PartsKept(p, p.defns[d], us, n, parts, s.pool, s.mapping) <==> PartsFull(p.defns[d], us, n, parts, s.pool)
    decreases us
  {
    forall k | 0 <= k < n
      ensures PartKept(p, p.defns[d], us[k], parts[k], s.pool, s.mapping)
        <==> PartFull(p.defns[d], us[k], parts[k], s.pool)
    {
      PartKeptIsFull(p, s, d, us[k], parts[k], when);
    }
  }

  /** With no shadowing arguments are all that can be lost. */
  lemma {:induction false} KeptIsFull(p: Program, s: State)
    requires StateOk(p, s) && NoShadow(p)
    ensures AllKept(p, s) <==> AllFull(p, s)
  {
    AllDefined(p, s);
    forall d: DefnId | d in s.mapping ensures DefinedKept(p, s, d) <==> DefinedFull(p, d, s.pool, s.mapping[d]) {
      Defined(p, s, d);
      PartsKeptAreFull(p, s, d, p.defns[d].uses, |p.defns[d].uses|, s.pool[BodyOf(s.pool, s.mapping[d])].parts,
        Period({}, s.mapping.Keys));
    }
  }

  /** Main result on order: two evaluations of a program in which no type arguments are lost, with definitions taken in
      whatever order, give every definition the same meaning. */
  lemma {:induction false} OrderDoesNotMatter(p: Program, a: State, b: State, d: DefnId)
    requires WhollyEvaluated(p, a) && WhollyEvaluated(p, b) && AllFull(p, a) && AllFull(p, b) && d < |p.defns|
    requires NoShadow(p)
    ensures a.mapping[d] < |a.pool| && b.mapping[d] < |b.pool|
    ensures Mean(a.pool, a.mapping[d]) == Mean(b.pool, b.mapping[d])
  {
    FullCompleted(p, a);
    var rank := OrderRanks(p, a.log);
    KeptIsFull(p, a);
    KeptIsFull(p, b);
    EvaluatedMeansMeant(p, a, rank, d);
    EvaluatedMeansMeant(p, b, rank, d);
  }

  // ---------- a program whose meaning depends on the order ----------

  function BoxProgram(): Program {
    Program([Scope(map[], map["Box" := 0, "Unit" := 1, "Pair" := 2], None, [])],
            [Defn("Box", 0, ["T"], [Use("T", [])]), Defn("Unit", 0, [], []),
             Defn("Pair", 0, [], [Use("Box", [Use("Unit", [])])])])
  }

  lemma {:induction false} BoxProgramOk()
    ensures ProgramOk(BoxProgram())
  {
    var p := BoxProgram();
    assert MirroredAt(p.scopes, 0);
    assert HomeIs(p, 0) && HomeIs(p, 1) && HomeIs(p, 2);
    assert PendingIs(p, 0, "Box", 0) && PendingIs(p, 0, "Unit", 1) && PendingIs(p, 0, "Pair", 2);
  }

  lemma {:induction false} BoxCandidates(p: Program)
    requires p == BoxProgram()
    ensures NoShadow(p)
    ensures Candidates(p, p.defns[2], "Box") == {0} && Candidates(p, p.defns[2], "Unit") == {1}
  {
    BoxProgramOk();
    assert FindPending(p.scopes, 0, "Box") == Some((0, 0)) && FindPending(p.scopes, 0, "Unit") == Some((1, 0));
    OnlyTarget(p, 2, "Box");
    OnlyTarget(p, 2, "Unit");
  }

  lemma {:induction false} BoxNeeds(p: Program)
    requires p == BoxProgram()
    ensures NeedsOf(p, 0) == {} && NeedsOf(p, 1) == {} && NeedsOf(p, 2) == {0, 1}
  {
    BoxCandidates(p);
    var box, pair := p.defns[0], p.defns[2];
    var use := pair.uses[0];
    assert Needs(p, box, box.uses[0]) == {} && NeedsUpTo(p, box, box.uses, 1) == NeedsUpTo(p, box, box.uses, 0) + {};
    assert NeedsUpTo(p, pair, use.args[0].args, 0) == {} && Needs(p, pair, use.args[0]) == {1};
    assert NeedsUpTo(p, pair, use.args, 0) == {} && NeedsUpTo(p, pair, use.args, 1) == {1};
    assert NeedsUpTo(p, pair, pair.uses, 0) == {} && NeedsUpTo(p, pair, pair.uses, 1) == Needs(p, pair, use);
  }

  lemma {:induction false} BoxFits(p: Program)
    requires p == BoxProgram()
    ensures Resolvable(p)
  {
    BoxCandidates(p);
    assert Fits(p, p.defns[0], p.defns[0].uses[0]);
    assert Fits(p, p.defns[2], p.defns[2].uses[0].args[0]);
    assert Fits(p, p.defns[2], p.defns[2].uses[0]);
    assert DefnFits(p, p.defns[0]) && DefnFits(p, p.defns[1]) && DefnFits(p, p.defns[2]);
  }

  lemma {:induction false} BoxSorted(p: Program)
    requires p == BoxProgram()
    ensures CompleteOrder(p, [0, 1, 2])
  {
    BoxNeeds(p);
    var sorted: seq<DefnId> := [0, 1, 2];
    assert sorted[..2] == [0, 1];
  }

  lemma {:induction false} PairIsUnsafe(p: Program)
    requires p == BoxProgram()
    ensures !Safe(p, 2)
  {
    BoxCandidates(p);
    var pair := p.defns[2];
    assert ClosedUnder(p, {}) && !Reached(p, {}, 0);
    assert !SafeUse(p, pair, pair.uses[0], {} + NeedsUpTo(p, pair, pair.uses, 0));
  }

  /** Every evaluation of this program succeeds. With Box[T] written before the definition that uses Box[Unit] no
      arguments are lost, but with that definition first it gets Box itself in place of Box[Unit]. */
  lemma {:induction false} ArgumentsDependOnOrder(p: Program, order: seq<DefnId>, trace: seq<State>)
    requires p == BoxProgram() && Run(p, order, trace)
    ensures ProgramOk(p) && Resolvable(p) && CompleteOrder(p, [0, 1, 2])
    ensures order == [0, 1, 2] ==> AllFull(p, Last(trace))
    ensures order == [2, 0, 1] ==> !AllFull(p, Last(trace))
  {
    BoxProgramOk();
    BoxFits(p);
    BoxCandidates(p);
    BoxSorted(p);
    if order == [0, 1, 2] { RunKeeps(p, order, trace, 3); }
    if order == [2, 0, 1] {
      PairIsUnsafe(p);
      RunLoses(p, order, trace);
    }
  }
}
