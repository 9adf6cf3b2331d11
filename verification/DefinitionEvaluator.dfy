/** The depth-first evaluation of type definitions, driven by the pending tables. */
module DefinitionEvaluator {
  import opened Wrappers
  import opened Scopes
  import opened Definitions
  import opened DefinitionState
  import opened DefinitionSteps
  import opened DefinitionRuns

  /** The references of definitions to themselves lead to what was built for them. */
  ghost predicate AllResolved(pool: seq<Node>, mapping: map<DefnId, TypeId>) {
    forall i :: 0 <= i < |pool| && pool[i].RecursiveReference? ==>
      pool[i].defn in mapping && pool[i].root == Some(BodyOf(pool, mapping[pool[i].defn]))
  }

  lemma {:induction false} Completed(p: Program, s: State)
    requires WhollyEvaluated(p, s)
    ensures AllResolved(s.pool, s.mapping) && forall i :: 0 <= i < |s.scopes| ==> s.scopes[i].pending == map[]
  {
    forall i | 0 <= i < |s.scopes| ensures s.scopes[i].pending == map[] {
      if i < |p.scopes| { NothingPending(p, s, i); }
    }
    ReferencesResolved(p, s);
  }

  lemma {:induction false} ReferencesResolved(p: Program, s: State)
    requires PlaceholdersOk(s.pool, s.mapping, s.placeholders) && AllMapped(|p.defns|, s.mapping)
    requires forall d :: d in s.placeholders ==> d < |p.defns|
    ensures AllResolved(s.pool, s.mapping)
  {
    forall i | 0 <= i < |s.pool| && s.pool[i].RecursiveReference?
      ensures s.pool[i].defn in s.mapping && s.pool[i].root == Some(BodyOf(s.pool, s.mapping[s.pool[i].defn]))
    {
      assert PlaceholderOk(s.pool, s.mapping, s.pool[i].defn, i);
    }
  }

  lemma {:induction false} NothingPending(p: Program, s: State, i: ScopeId)
    requires ProgramOk(p) && ArenaOk(p.scopes, s.scopes, s.mapping) && i < |p.scopes| && AllMapped(|p.defns|, s.mapping)
    ensures s.scopes[i].pending == map[]
  {
    assert TableOk(p.scopes[i].pending, s.scopes[i], s.mapping);
    forall name | name in p.scopes[i].pending ensures p.scopes[i].pending[name] in s.mapping {
      assert PendingIs(p, i, name, p.scopes[i].pending[name]);
    }
  }

  /** So collecting the pending definitions from the root finds none. */
  lemma {:induction false} NoneLeftToCollect(scopes: seq<Scope>, d: DefnId)
    requires ValidArena(scopes) && scopes != [] && forall i :: 0 <= i < |scopes| ==> scopes[i].pending == map[]
    ensures CountBelow(scopes, 0, d) == 0
  {
    RootCollectsAll(scopes, d);
    for n := 0 to |scopes|
      invariant CountTotal(scopes, n, d) == 0
    {
      assert Entries(scopes[n].pending, d) == {};
    }
  }

  /** With no shadowing and no arguments lost, each definition was evaluated after all it needs, and all it names stands
      for something. */
  lemma {:induction false} FullCompleted(p: Program, s: State)
    requires WhollyEvaluated(p, s) && NoShadow(p) && AllFull(p, s)
    ensures Resolvable(p) && CompleteOrder(p, s.log)
  {
    AllDefined(p, s);
    forall k | 0 <= k < |s.log| ensures s.log[k] < |p.defns| && NeedsOf(p, s.log[k]) <= Early(s.log, k).end {
      FullDefinition(p, s, k);
    }
    forall d | 0 <= d < |p.defns| ensures DefnFits(p, p.defns[d]) && d in s.log {
      assert d in Members(s.log);
      var k :| 0 <= k < |s.log| && s.log[k] == d;
      FullDefinition(p, s, k);
    }
  }

  lemma {:induction false} FullDefinition(p: Program, s: State, k: nat)
    requires ProgramOk(p) && NoShadow(p) && LogOk(p, s.pool, s.mapping, s.log) && RootsOk(p, s.pool, s.mapping)
    requires AllFull(p, s) && k < |s.log|
    ensures s.log[k] < |p.defns| && NeedsOf(p, s.log[k]) <= Early(s.log, k).end && DefnFits(p, p.defns[s.log[k]])
  {
    var d, when := s.log[k], Early(s.log, k);
    assert DefinedOk(p, d, s.pool, s.mapping, when) && DefinedFull(p, d, s.pool, s.mapping[d]);
    var defn, parts := p.defns[d], s.pool[BodyOf(s.pool, s.mapping[d])].parts;
    FullNeedAll(p, defn, d, defn.uses, |defn.uses|, parts, s.pool, s.mapping, when);
    FullFitAll(p, defn, d, defn.uses, |defn.uses|, parts, s.pool, s.mapping, when);
  }

  lemma {:induction false} FullFits(p: Program, defn: Defn, d: DefnId, u: Use, part: TypeId, pool: seq<Node>,
                                    mapping: map<DefnId, TypeId>, when: Period)
    requires PartOk(p, defn, d, u, part, pool, mapping, when) && PartFull(defn, u, part, pool)
    requires RootsOk(p, pool, mapping) && ProgramOk(p) && NoShadow(p) && d < |p.defns| && defn == p.defns[d]
    ensures Fits(p, defn, u)
    decreases u
  {
    OnlyTarget(p, d, u.name);
    if External(defn, u.name) && u.args != [] {
      FullFitAll(p, defn, d, u.args, |u.args|, pool[part].args, pool, mapping, when);
    }
  }

  lemma {:induction false} FullFitAll(p: Program, defn: Defn, d: DefnId, us: seq<Use>, n: nat, parts: seq<TypeId>,
                                      pool: seq<Node>, mapping: map<DefnId, TypeId>, when: Period)
    requires PartsOk(p, defn, d, us, n, parts, pool, mapping, when) && PartsFull(defn, us, n, parts, pool)
    requires RootsOk(p, pool, mapping) && ProgramOk(p) && NoShadow(p) && d < |p.defns| && defn == p.defns[d]
    ensures forall k :: 0 <= k < n ==> Fits(p, defn, us[k])
    decreases us
  {
    forall k | 0 <= k < n ensures Fits(p, defn, us[k]) {
      FullFits(p, defn, d, us[k], parts[k], pool, mapping, when);
    }
  }

  lemma {:induction false} RunJudged(p: Program, order: seq<DefnId>, trace: seq<State>)
    requires Run(p, order, trace) && NoShadow(p) && WhollyEvaluated(p, Last(trace))
    ensures SafeProgram(p) || CompleteOrder(p, order) ==> AllFull(p, Last(trace))
    ensures order != [] && !Safe(p, order[0]) ==> !AllFull(p, Last(trace))
    ensures AllFull(p, Last(trace)) ==> Resolvable(p) && CompleteOrder(p, Last(trace).log)
  {
    if SafeProgram(p) || CompleteOrder(p, order) { RunKeeps(p, order, trace, |order|); }
    if order != [] && !Safe(p, order[0]) { RunLoses(p, order, trace); }
    if AllFull(p, Last(trace)) { FullCompleted(p, Last(trace)); }
  }

  class Typer {
    const defns: seq<Defn>
    const arena: ScopeArena
    var pool: seq<Node>
    var mapping: map<DefnId, TypeId>
    var placeholders: map<DefnId, TypeId>
    ghost const program: Program
    ghost var log: seq<DefnId>

    constructor (defns: seq<Defn>, arena: ScopeArena)
      requires ProgramOk(Program(arena.scopes, defns))
      ensures Valid() && this.arena == arena && program == Program(arena.scopes, defns) && mapping == map[]
    {
      this.defns, this.arena, this.program := defns, arena, Program(arena.scopes, defns);
      pool, mapping, placeholders, log := [], map[], map[], [];
    }

    ghost predicate Valid()
      reads this, arena
    {
      defns == program.defns && StateOk(program, Now())
    }

    ghost function Now(): State
      reads this, arena
    {
      State(pool, mapping, placeholders, arena.scopes, log)
    }

    /** Evaluates definition d, pending in the given scope, unless it has been already. The depth of the recursion is
        bounded; Err stands for every failure, running out of depth included. Where the conditions for success are
        known to hold, `sure` says so. */
    method EvalTypeDefn(d: DefnId, scope: ScopeId, depth: nat, ghost sure: bool,
                        ghost rank: seq<nat>) returns (r: Result<TypeId>)
      requires Valid() && HomeIs(program, d) && scope == defns[d].home
      requires sure ==> Succeeds(program, rank, d, depth)
      modifies this, arena
      ensures r.Ok? ==> Valid() && Evaluated(program, d, old(Now()), Now()) && r.value == mapping[d]
      ensures sure ==> r.Ok?
      decreases depth, 0
    {
      if d in mapping {
        EvaluatedBefore(program, d, Now());
        return Ok(mapping[d]);
      }
      if depth == 0 {
        return Err;
      }
      ghost var outer := Now();
      ChildKeepsState(program, outer, scope);
      var defnScope := arena.AddChildScope(scope);
      ChildEntered(program, outer, Now(), d);
      r := EvalInOwnScope(d, scope, defnScope, depth - 1, sure, rank, outer);
    }

    /** The right-hand side of a definition, in the scope made for it since the given state. */
    method EvalInOwnScope(d: DefnId, scope: ScopeId, c: ScopeId, depth: nat, ghost sure: bool, ghost rank: seq<nat>,
                          ghost outer: State)
      returns (r: Result<TypeId>)
      requires Valid() && HomeIs(program, d) && scope == defns[d].home && d !in mapping
      requires StateOk(program, outer) && outer == Now().(scopes := outer.scopes) && Grew(program, outer, Now())
      requires |outer.scopes| <= c && OwnScope(program, Now(), c, d, [])
      requires sure ==> Succeeds(program, rank, d, depth + 1)
      modifies this, arena
      ensures r.Ok? ==> Valid() && Evaluated(program, d, outer, Now()) && r.value == mapping[d]
      ensures sure ==> r.Ok?
      decreases depth, 2
    {
      if sure { CanUseOwn(program, rank, d, depth); }
      var added := AddParams(d, c, outer);
      if !added {
        return Err;
      }
      ghost var entered := Now();
      ghost var seen := StartSeen(program, d, mapping.Keys);
      var parts := EvalUses(defns[d].uses, d, c, depth, sure, rank, seen);
      if parts.Err? {
        return Err;
      }
      GrewTrans(program, outer, entered, Now());
      if d !in mapping { OwnPartsDone(program, d, outer, entered, Now(), parts.value); }
      r := FinishOwn(d, scope, parts.value, outer);
    }

    /** The definition gets its type from its parts, unless it has got one while they were evaluated. */
    method FinishOwn(d: DefnId, scope: ScopeId, parts: seq<TypeId>, ghost outer: State)
      returns (r: Result<TypeId>)
      requires Valid() && HomeIs(program, d) && scope == defns[d].home && Grew(program, outer, Now())
      requires DistinctParams(defns[d]) && (d !in mapping ==> OwnParts(program, d, outer, Now(), parts))
      modifies this`pool, this`mapping, this`log, arena
      ensures r.Ok? <==> d !in old(mapping)
      ensures r.Ok? ==> Valid() && Evaluated(program, d, outer, Now()) && r.value == mapping[d]
    {
      ghost var built := Now();
      if d !in mapping { OwnPartsEarly(program, d, outer, built, parts); }
      r := FinishDefn(d, scope, parts);
      if r.Ok? {
        OwnFinished(program, d, outer, built, Now(), parts, r.value);
      }
    }

    /** A fresh type variable for each parameter; fails if a name comes twice. */
    method AddParams(d: DefnId, c: ScopeId, ghost outer: State) returns (added: bool)
      requires Valid() && OwnScope(program, Now(), c, d, []) && Grew(program, outer, Now()) && |outer.scopes| <= c
      modifies this`pool, arena
      ensures added == DistinctParams(defns[d])
      ensures added ==> Valid() && OwnScope(program, Now(), c, d, defns[d].params) && Grew(program, outer, Now())
      ensures added ==> SameNodes(old(pool), pool)
    {
      ghost var start := Now();
      var params := defns[d].params;
      for k := 0 to |params|
        invariant Valid() && OnlyScope(start, Now(), c) && OwnScope(program, Now(), c, d, params[..k])
        invariant DistinctUpTo(params, k)
      {
        var ok := AddParam(d, c, k, start);
        if !ok {
          return false;
        }
      }
      assert params[..|params|] == params;
      GrewInOwnScope(program, outer, start, Now(), c);
      added := true;
    }

    method AddParam(d: DefnId, c: ScopeId, k: nat, ghost start: State) returns (ok: bool)
      requires Valid() && HomeIs(program, d) && k < |defns[d].params|
      requires OnlyScope(start, Now(), c) && OwnScope(program, Now(), c, d, defns[d].params[..k])
      requires DistinctUpTo(defns[d].params, k)
      modifies this`pool, arena
      ensures if ok then DistinctUpTo(defns[d].params, k + 1) else !DistinctParams(defns[d])
      ensures ok ==> Valid() && OnlyScope(start, Now(), c) && OwnScope(program, Now(), c, d, defns[d].params[..k + 1])
    {
      ghost var was := Now();
      var param := defns[d].params[k];
      PushKeepsState(program, was, Variable(d, param));
      var typeVariableId := |pool|;
      pool := pool + [Variable(d, param)];
      BindingKeepsState(program, Now(), c, param, typeVariableId);
      ok := arena.Add(c, TypeKey(param), typeVariableId);
      NextDistinct(defns[d], k);
      if ok { ParamAdded(program, start, was, Now(), c, d, defns[d].params, k); }
    }

    /** The given uses, in order. */
    method EvalUses(us: seq<Use>, d: DefnId, c: ScopeId, depth: nat, ghost sure: bool, ghost rank: seq<nat>,
                    ghost seen: set<DefnId>)
      returns (r: Result<seq<TypeId>>)
      requires Valid() && HomeIs(program, d) && OwnScope(program, Now(), c, d, defns[d].params)
      requires sure && d !in mapping ==> CanUseAll(program, rank, d, us, depth)
      modifies this, arena
      ensures r.Ok? ==> Valid() && Grew(program, old(Now()), Now()) && |r.value| == |us|
      ensures r.Ok? ==> forall k :: 0 <= k < |us| ==> r.value[k] < |pool|
      ensures r.Ok? && d !in mapping ==> UsesDone(program, d, us, |us|, seen, old(Now()), Now(), r.value)
      ensures sure && d !in old(mapping) ==> r.Ok? && d !in mapping
      decreases depth, 1, us, 2
    {
      ghost var start := Now();
      UsesStarted(program, d, c, us, seen, start);
      var parts: seq<TypeId> := [];
      for k := 0 to |us|
        invariant Valid() && UsesState(program, d, c, us, k, seen, start, Now(), parts)
        invariant sure && d !in start.mapping ==> d !in mapping
      {
        ghost var was := Now();
        var part := EvalUse(us[k], d, c, depth, sure, rank, seen + NeedsUpTo(program, defns[d], us, k));
        if part.Err? {
          return Err;
        }
        UsesStep(program, d, c, us, k, seen, start, was, Now(), parts, part.value);
        parts := parts + [part.value];
      }
      r := Ok(parts);
    }

    /** A name: an enclosing type, the definition itself, or a definition still pending, which is evaluated first.
        Only the first is applied to the arguments. */
    method EvalUse(u: Use, d: DefnId, c: ScopeId, depth: nat, ghost sure: bool, ghost rank: seq<nat>,
                   ghost seen: set<DefnId>)
      returns (r: Result<TypeId>)
      requires Valid() && HomeIs(program, d) && OwnScope(program, Now(), c, d, defns[d].params)
      requires sure && d !in mapping ==> CanUse(program, rank, d, u, depth)
      modifies this, arena
      ensures r.Ok? ==> Valid() && Grew(program, old(Now()), Now()) && r.value < |pool|
      ensures r.Ok? && d !in mapping ==> UseDone(program, d, u, seen, old(Now()), Now(), r.value)
      ensures sure && d !in old(mapping) ==> r.Ok? && d !in mapping
      decreases depth, 1, u, 1
    {
      ghost var was := Now();
      LookupFromOwnScope(program, was, c, d, u.name);
      var found := Find(arena.scopes, c, TypeKey(u.name));
      if found.Some? {
        r := EvalFound(found.value, u, d, c, depth, sure, rank, seen);
        return;
      }
      if u.name == defns[d].name {
        r := ReferenceToSelf(d);
        JudgePlain(program, defns[d], u, seen, was, Now(), r.value);
        return;
      }
      var pending := FindPending(arena.scopes, c, u.name);
      if pending.None? {
        return Err;
      }
      var (t, at) := pending.value;
      if sure && d !in mapping { CanUseTarget(program, rank, d, u, depth, t); }
      r := EvalTypeDefn(t, at, depth, sure && d !in mapping, rank);
      if r.Ok? {
        PendingDone(program, d, u, seen, was, Now(), t, at);
        if sure && d !in was.mapping {
          RanksKeepOut(program, rank, d, t, was.mapping.Keys, mapping.Keys);
        }
      }
    }

    /** A type already bound: applied to the arguments, if there are any and it is generic. */
    method EvalFound(id: TypeId, u: Use, d: DefnId, c: ScopeId, depth: nat, ghost sure: bool, ghost rank: seq<nat>,
                     ghost seen: set<DefnId>)
      returns (r: Result<TypeId>)
      requires Valid() && HomeIs(program, d) && OwnScope(program, Now(), c, d, defns[d].params)
      requires FoundOk(program, d, u.name, id, Now())
      requires sure && d !in mapping ==> CanUse(program, rank, d, u, depth)
      modifies this, arena
      ensures r.Ok? ==> Valid() && Grew(program, old(Now()), Now()) && r.value < |pool|
      ensures r.Ok? && d !in mapping ==> UseDone(program, d, u, seen, old(Now()), Now(), r.value)
      ensures sure && d !in old(mapping) ==> r.Ok? && d !in mapping
      decreases depth, 1, u, 0
    {
      ghost var was := Now();
      if u.args == [] {
        JudgePlain(program, defns[d], u, seen, was, was, id);
        return Ok(id);
      }
      if sure && d !in mapping { FoundFits(program, rank, d, u, depth, id, was); }
      if !pool[id].Generic? {
        return Err;
      }
      r := EvalApplied(id, u, d, c, depth, sure, rank, seen);
    }

    method EvalApplied(id: TypeId, u: Use, d: DefnId, c: ScopeId, depth: nat, ghost sure: bool, ghost rank: seq<nat>,
                       ghost seen: set<DefnId>)
      returns (r: Result<TypeId>)
      requires Valid() && HomeIs(program, d) && OwnScope(program, Now(), c, d, defns[d].params)
      requires FoundOk(program, d, u.name, id, Now()) && u.args != [] && pool[id].Generic?
      requires sure && d !in mapping ==> CanUseAll(program, rank, d, u.args, depth)
      modifies this, arena
      ensures r.Ok? ==> Valid() && Grew(program, old(Now()), Now()) && r.value < |pool|
      ensures r.Ok? && d !in mapping ==> UseDone(program, d, u, seen, old(Now()), Now(), r.value)
      ensures sure && d !in old(mapping) ==> r.Ok? && d !in mapping
      decreases depth, 1, u.args, 3
    {
      ghost var was := Now();
      var args := EvalUses(u.args, d, c, depth, sure, rank, seen + Candidates(program, defns[d], u.name));
      if args.Err? {
        return Err;
      }
      var typeId := PushApplied(id, u, d, args.value, seen, was);
      r := Ok(typeId);
    }

    method PushApplied(id: TypeId, u: Use, d: DefnId, args: seq<TypeId>, ghost seen: set<DefnId>, ghost was: State)
      returns (typeId: TypeId)
      requires Valid() && Grew(program, was, Now()) && FoundOk(program, d, u.name, id, was) && was.pool[id].Generic?
      requires u.args != [] && forall k :: 0 <= k < |args| ==> args[k] < |pool|
      requires d !in mapping ==>
        UsesDone(program, d, u.args, |u.args|, seen + Candidates(program, defns[d], u.name), was, Now(), args)
      modifies this`pool
      ensures Valid() && Grew(program, was, Now()) && typeId < |pool|
      ensures d !in mapping ==> UseDone(program, d, u, seen, was, Now(), typeId)
    {
      ghost var mid := Now();
      typeId := |pool|;
      pool := pool + [Applied(id, args)];
      AppliedKeepsState(program, was, mid, Now(), Applied(id, args));
      if d !in mapping { AppliedDone(program, d, u, seen, was, mid, Now(), id, args); }
    }

    /** One entry stands for all references of a definition to itself. */
    method ReferenceToSelf(d: DefnId) returns (r: Result<TypeId>)
      requires Valid() && d < |defns| && d !in mapping
      modifies this`pool, this`placeholders
      ensures Valid() && Grew(program, old(Now()), Now())
      ensures r.Ok? && r.value < |pool| && pool[r.value].RecursiveReference? && pool[r.value].defn == d
    {
      if d in placeholders {
        assert PlaceholderOk(pool, mapping, d, placeholders[d]);
        return Ok(placeholders[d]);
      }
      ReferenceKeepsState(program, Now(), d);
      var id := |pool|;
      pool := pool + [RecursiveReference(d, None)];
      placeholders := placeholders[d := id];
      r := Ok(id);
    }

    /** What is built for d, the resolved references to it, and its generic wrapper. */
    method PushFinished(d: DefnId, parts: seq<TypeId>) returns (typeId: TypeId)
      requires d < |defns| && (d in placeholders ==> placeholders[d] < |pool|)
      modifies this`pool
      ensures pool == Resolved(Finished(old(pool), defns[d], d, parts), placeholders, d, |old(pool)|)
      ensures typeId == |pool| - 1
    {
      typeId := |pool|;
      pool := pool + [Built(d, parts)];
      if d in placeholders {
        pool := pool[placeholders[d] := RecursiveReference(d, Some(typeId))];
      }
      if defns[d].params != [] {
        pool := pool + [Generic(d, typeId)];
        typeId := |pool| - 1;
      }
    }

    /** Binds the name to its type in place of the pending entry; fails if the name is bound. */
    method BindFinished(scope: ScopeId, name: Ident, typeId: TypeId) returns (ok: bool)
      requires ValidArena(arena.scopes) && scope < |arena.scopes|
      requires TypeKey(name) !in arena.scopes[scope].bindings ==> name in arena.scopes[scope].pending
      modifies arena
      ensures ok == (TypeKey(name) !in old(arena.scopes)[scope].bindings)
      ensures ok ==>
        arena.scopes == WithoutPending(WithBinding(old(arena.scopes), scope, TypeKey(name), typeId), scope, name)
    {
      ok := arena.Add(scope, TypeKey(name), typeId);
      if ok {
        var removed := arena.RemovePendingTypeDefn(scope, name);
        assert removed;
      }
    }

    /** Fails if the definition has got its type while its parts were evaluated. */
    method FinishDefn(d: DefnId, scope: ScopeId, parts: seq<TypeId>) returns (r: Result<TypeId>)
      requires Valid() && HomeIs(program, d) && DistinctParams(defns[d]) && scope == defns[d].home
      requires d !in mapping ==> PartsOk(program, defns[d], d, defns[d].uses, |defns[d].uses|, parts, pool, mapping,
        Period({}, mapping.Keys))
      modifies this`pool, this`mapping, this`log, arena
      ensures r.Ok? <==> d !in old(mapping)
      ensures r.Ok? ==> Valid() && Grew(program, old(Now()), Now())
      ensures r.Ok? ==> mapping == old(mapping)[d := r.value] && log == old(log) + [d]
      ensures r.Ok? ==> FinishedPool(program, old(Now()), d, parts, pool, r.value)
    {
      assert d in placeholders ==> PlaceholderOk(pool, mapping, d, placeholders[d]);
      ghost var was := Now();
      HomeTable(program, was, d);
      var typeId := PushFinished(d, parts);
      mapping := mapping[d := typeId];
      var ok := BindFinished(scope, defns[d].name, typeId);
      if !ok {
        return Err;
      }
      log := log + [d];
      FinishKeepsState(program, was, d, parts, pool, typeId, arena.scopes);
      assert Now() == State(pool, was.mapping[d := typeId], was.placeholders, arena.scopes, was.log + [d]);
      r := Ok(typeId);
    }

    /** Every definition in the order in which they are written. */
    method EvalPhase(order: seq<DefnId>, depth: nat, ghost sure: bool, ghost rank: seq<nat>)
      returns (ok: bool, ghost trace: seq<State>)
      requires Valid() && mapping == map[] && Written(order, |defns|)
      requires sure ==> ProgramOk(program) && Resolvable(program) && RanksWithin(program, rank, depth)
      modifies this, arena
      ensures ok ==> Valid() && Run(program, order, trace) && Last(trace) == Now()
      ensures sure ==> ok
    {
      trace := [Now()];
      for k := 0 to |order|
        invariant Valid() && Run(program, order[..k], trace) && Last(trace) == Now()
      {
        ghost var was := Now();
        ok := EvalNext(order[k], depth, sure, rank);
        if !ok {
          return;
        }
        assert Stage(program)(order[k], was, Now());
        RunNext(program, order, k, trace, Now());
        trace := trace + [Now()];
      }
      assert order[..|order|] == order;
      ok := true;
    }

    method EvalNext(d: DefnId, depth: nat, ghost sure: bool, ghost rank: seq<nat>) returns (ok: bool)
      requires Valid() && d < |defns|
      requires sure ==> ProgramOk(program) && Resolvable(program) && RanksWithin(program, rank, depth)
      modifies this, arena
      ensures ok ==> Valid() && Evaluated(program, d, old(Now()), Now())
      ensures sure ==> ok
    {
      assert HomeIs(program, d);
      var r := EvalTypeDefn(d, defns[d].home, depth, sure, rank);
      ok := r.Ok?;
    }

    /** Main result: whatever the order in which definitions are written,
        - if every name stands for something, only generics are applied to arguments, and the definitions can be put in
          an order in which each comes after all it may need, references to itself aside, the evaluation succeeds;
        - when it succeeds each definition has been evaluated exactly once, after those its type is made from, no
          reference is left unresolved, and nothing is pending in any scope.
        In a program in which no definition has the name of one in an enclosing scope,
        - no type arguments are lost if every definition is safe, or if the written order is such an order;
        - some are lost if the first definition written is not safe;
        - if none are lost the converse of the first point holds, with the order of evaluation being such an order. */
    method EvaluateAll(order: seq<DefnId>, depth: nat) returns (ok: bool, ghost trace: seq<State>)
      requires Valid() && mapping == map[] && |defns| <= depth && Written(order, |defns|)
      modifies this, arena
      ensures Resolvable(program) && (exists sorted :: CompleteOrder(program, sorted)) ==> ok
      ensures ok ==> Valid() && AllMapped(|defns|, mapping) && AllResolved(pool, mapping)
      ensures ok ==> forall s :: 0 <= s < |arena.scopes| ==> arena.scopes[s].pending == map[]
      ensures ok ==> Run(program, order, trace) && Last(trace) == Now()
      ensures ok && NoShadow(program) && (SafeProgram(program) || CompleteOrder(program, order)) ==>
        AllFull(program, Now())
      ensures ok && NoShadow(program) && order != [] && !Safe(program, order[0]) ==> !AllFull(program, Now())
      ensures ok && NoShadow(program) && AllFull(program, Now()) ==> Resolvable(program) && CompleteOrder(program, log)
    {
      ghost var rank: seq<nat> := [];
      ghost var sure := Resolvable(program) && exists sorted :: CompleteOrder(program, sorted);
      if sure {
        ghost var sorted :| CompleteOrder(program, sorted);
        rank := OrderRanks(program, sorted);
      }
      ok, trace := EvalPhase(order, depth, sure, rank);
      if ok {
        RunMapsAll(program, order, trace);
        Completed(program, Now());
        if NoShadow(program) { RunJudged(program, order, trace); }
      }
    }
  }
}
