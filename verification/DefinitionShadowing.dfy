/** What a name stands for when definitions around it share it: any of them, depending on the order of evaluation. */
module DefinitionShadowing {
  import opened Wrappers
  import opened Scopes
  import opened Definitions
  import opened DefinitionState
  import opened DefinitionSteps
  import opened DefinitionRuns
  import opened DefinitionEvaluator

  // ---------- what a use means ----------

  /** The types of a definition's uses. */
  ghost function Parts(s: State, d: DefnId): seq<TypeId> {
    if d !in s.mapping then []
    else
      var body := BodyOf(s.pool, s.mapping[d]);
      if body < |s.pool| && s.pool[body].Built? then s.pool[body].parts else []
  }

  /** The type is that of definition t, applied to arguments or not. */
  ghost predicate Leads(s: State, part: TypeId, t: DefnId) {
    && part < |s.pool| && t in s.mapping
    && (part == s.mapping[t] || (s.pool[part].Applied? && s.pool[part].generic == s.mapping[t]))
  }

  /** Use k of definition d has become definition t. */
  ghost predicate Means(s: State, d: DefnId, k: nat, t: DefnId) {
    k < |Parts(s, d)| && Leads(s, Parts(s, d)[k], t)
  }

  /** Use k of definition d has become a reference to d itself. */
  ghost predicate MeansSelf(s: State, d: DefnId, k: nat) {
    && k < |Parts(s, d)| && Parts(s, d)[k] < |s.pool|
    && var n := s.pool[Parts(s, d)[k]]; n.RecursiveReference? && n.defn == d
  }

  /** Use k of definition d is no type parameter. */
  ghost predicate NamesDefinition(p: Program, d: DefnId, k: nat) {
    d < |p.defns| && k < |p.defns[d].uses| && p.defns[d].uses[k].name !in p.defns[d].params
  }

  ghost function CandidatesOf(p: Program, d: DefnId, k: nat): set<DefnId> {
    if NamesDefinition(p, d, k) then Candidates(p, p.defns[d], p.defns[d].uses[k].name) else {}
  }

  /** A use does not mean two things. */
  lemma {:induction false} MeansOneThing(p: Program, s: State, d: DefnId, k: nat, a: DefnId)
    requires StateOk(p, s) && Means(s, d, k, a)
    ensures !MeansSelf(s, d, k) && forall b :: Means(s, d, k, b) ==> a == b
  {
    AllDefined(p, s);
    assert RootOk(p, a, s.pool, s.mapping[a]);
    forall b | Means(s, d, k, b) ensures a == b { assert RootOk(p, b, s.pool, s.mapping[b]); }
  }

  /** What the type of a use says about the definition behind it. */
  lemma {:induction false} UseChosen(p: Program, s: State, d: DefnId, k: nat, when: Period)
    requires NamesDefinition(p, d, k) && DefinedOk(p, d, s.pool, s.mapping, when)
    ensures var defn, u := p.defns[d], p.defns[d].uses[k].name;
      || (SelfOk(p, defn, u, when) && MeansSelf(s, d, k))
      || exists t :: ChosenOk(p, defn, u, t, when) && Means(s, d, k, t)
  {
    var defn, u, part := p.defns[d], p.defns[d].uses[k], Parts(s, d)[k];
    assert PartOk(p, defn, d, u, part, s.pool, s.mapping, when);
    if TargetOk(p, defn, u.name, part, s.mapping, when) {
      var t :| ChosenOk(p, defn, u.name, t, when) && t in s.mapping && part == s.mapping[t];
      assert Means(s, d, k, t);
    } else if AppliedOk(p, defn, d, u, s.pool[part], s.pool, s.mapping, when) {
      var generic := s.pool[part].generic;
      var t :| ChosenOk(p, defn, u.name, t, when) && t in s.mapping && generic == s.mapping[t];
      assert Means(s, d, k, t);
    }
  }

  /** In every state a use means one of its candidates, or, being the definition's own name, the definition itself;
      with no candidates it means itself. */
  lemma {:induction false} MeansACandidate(p: Program, s: State, d: DefnId, k: nat)
    requires StateOk(p, s) && NamesDefinition(p, d, k) && d in s.mapping
    ensures (p.defns[d].uses[k].name == p.defns[d].name && MeansSelf(s, d, k)) ||
      exists t :: t in CandidatesOf(p, d, k) && Means(s, d, k, t)
  {
    Defined(p, s, d);
    UseChosen(p, s, d, k, Period({}, s.mapping.Keys));
  }

  // ---------- what is evaluated for a definition lies around it ----------

  ghost function HomesUpTo(p: Program, h: ScopeId): set<DefnId> {
    set t: DefnId | t < |p.defns| && p.defns[t].home <= h
  }

  lemma {:induction false} CandidatesAbove(p: Program, defn: Defn, u: Ident)
    ensures Candidates(p, defn, u) <= HomesUpTo(p, defn.home)
  {
    forall t | t in Candidates(p, defn, u) ensures p.defns[t].home <= defn.home {
      EnclosingNest(p.scopes, defn.home, defn.home, p.defns[t].home);
    }
  }

  lemma {:induction false} NeedsAbove(p: Program, defn: Defn, u: Use)
    ensures Needs(p, defn, u) <= HomesUpTo(p, defn.home)
    decreases u
  {
    CandidatesAbove(p, defn, u.name);
    NeedsUpToAbove(p, defn, u.args, |u.args|);
  }

  lemma {:induction false} NeedsUpToAbove(p: Program, defn: Defn, us: seq<Use>, n: nat)
    requires n <= |us|
    ensures NeedsUpTo(p, defn, us, n) <= HomesUpTo(p, defn.home)
    decreases us, n
  {
    if n > 0 {
      NeedsUpToAbove(p, defn, us, n - 1);
      NeedsAbove(p, defn, us[n - 1]);
    }
  }

  lemma {:induction false} HomesClosed(p: Program, h: ScopeId)
    ensures ClosedUnder(p, HomesUpTo(p, h))
  {
    forall e | e in HomesUpTo(p, h) ensures NeedsOf(p, e) <= HomesUpTo(p, h) {
      NeedsUpToAbove(p, p.defns[e], p.defns[e].uses, |p.defns[e].uses|);
    }
  }

  // ---------- the first two definitions written ----------

  /** With a candidate for one of its names written first, a definition and the nearer candidates are still to come. */
  lemma {:induction false} CandidateFirst(p: Program, rank: seq<nat>, d: DefnId, k: nat, c: DefnId, keys: set<DefnId>)
    requires ProgramOk(p) && RanksDown(p, rank) && c in CandidatesOf(p, d, k) && Confined(p, {c}, {}, keys)
    ensures keys <= HomesUpTo(p, p.defns[c].home) && d !in keys
  {
    var defn, u := p.defns[d], p.defns[d].uses[k];
    HomesClosed(p, p.defns[c].home);
    assert {c} <= HomesUpTo(p, p.defns[c].home);
    if u.name == defn.name {
      CandidatesAbove(p, defn, u.name);
    } else {
      NeedsWithin(p, defn, defn.uses, k, |defn.uses|);
      assert c in Needs(p, defn, u);
      RanksKeepOut(p, rank, d, c, {}, keys);
    }
  }

  /** Then the candidate covers the nearer ones, so it is what the name leads to. */
  lemma {:induction false} CandidateStays(p: Program, d: DefnId, k: nat, c: DefnId, t: DefnId, was: set<DefnId>,
                                          now: set<DefnId>)
    requires ProgramOk(p) && c in CandidatesOf(p, d, k) && c in was && was <= HomesUpTo(p, p.defns[c].home)
    requires Exposed(p, {d}, was, now) && ChosenOk(p, p.defns[d], p.defns[d].uses[k].name, t, Period(was, now))
    ensures t == c
  {
    var defn, u := p.defns[d], p.defns[d].uses[k].name;
    CandidatesNest(p, defn, u, c, t);
    if p.defns[c].home < p.defns[t].home {
      assert t !in was && t != d;
      assert CoveredBy(p, was, t);
    }
  }

  lemma {:induction false} FirstStage(p: Program, order: seq<DefnId>, trace: seq<State>)
    requires Run(p, order, trace) && order != []
    ensures ProgramOk(p) && trace[0].mapping == map[] && order[0] in trace[1].mapping
    ensures Confined(p, {order[0]}, {}, trace[1].mapping.Keys)
  {
    RunStarts(p, order, trace);
    RunStage(p, order, trace, 0);
  }

  /** What a definition was made from when its turn came is what it is made from in the end. */
  lemma {:induction false} StageLasts(p: Program, order: seq<DefnId>, trace: seq<State>, j: nat, d: DefnId, was: State,
                                      now: State)
    requires Run(p, order, trace) && j < |order| && order[j] == d && trace[j] == was && trace[j + 1] == now
    requires d !in was.mapping
    ensures Exposed(p, {d}, was.mapping.Keys, now.mapping.Keys)
    ensures DefinedOk(p, d, Last(trace).pool, Last(trace).mapping, Between(was, now))
  {
    RunStage(p, order, trace, j);
    var end := Last(trace);
    RunGrew(p, order, trace, j + 1, |order|);
    EvaluatedLasts(p, d, was, now, end);
  }

  lemma {:induction false} EvaluatedLasts(p: Program, d: DefnId, was: State, now: State, end: State)
    requires Evaluated(p, d, was, now) && d !in was.mapping && Grows(p)(now, end)
    ensures Exposed(p, {d}, was.mapping.Keys, now.mapping.Keys)
    ensures DefinedOk(p, d, end.pool, end.mapping, Between(was, now))
  {
    DefinedStays(p, d, now.pool, end.pool, now.mapping, end.mapping, Between(was, now));
  }

  /** Main result on shadowing: whichever candidate for a use of a definition is written first, with the definition
      right after it, is what the use means in the end, nearest or not. */
  lemma {:induction false} FirstWrittenIsMeant(p: Program, rank: seq<nat>, order: seq<DefnId>, trace: seq<State>,
                                               d: DefnId, k: nat, c: DefnId)
    requires Run(p, order, trace) && RanksDown(p, rank) && c in CandidatesOf(p, d, k)
    requires |order| >= 2 && order[0] == c && order[1] == d
    ensures Means(Last(trace), d, k, c)
  {
    var was, now := trace[1], trace[2];
    FirstStage(p, order, trace);
    CandidateFirst(p, rank, d, k, c, was.mapping.Keys);
    StageLasts(p, order, trace, 1, d, was, now);
    UseChosen(p, Last(trace), d, k, Between(was, now));
    assert !SelfOk(p, p.defns[d], p.defns[d].uses[k].name, Between(was, now));
    var t :| ChosenOk(p, p.defns[d], p.defns[d].uses[k].name, t, Between(was, now)) && Means(Last(trace), d, k, t);
    CandidateStays(p, d, k, c, t, was.mapping.Keys, now.mapping.Keys);
  }

  lemma {:induction false} NotReached(p: Program, d: DefnId, all: set<DefnId>, keys: set<DefnId>)
    requires Confined(p, {d}, {}, keys) && forall c :: c in all ==> !Reached(p, {d}, c)
    ensures all !! keys
  {
    forall t | t in keys ensures Reached(p, {d}, t) {
    }
  }

  /** A definition written first means itself by its own name, unless it needs another of that name around it. */
  lemma {:induction false} OwnNameFirst(p: Program, order: seq<DefnId>, trace: seq<State>, d: DefnId, k: nat)
    requires Run(p, order, trace) && order != [] && order[0] == d && NamesDefinition(p, d, k)
    requires p.defns[d].uses[k].name == p.defns[d].name
    requires forall c :: c in CandidatesOf(p, d, k) ==> !Reached(p, {d}, c)
    ensures MeansSelf(Last(trace), d, k)
  {
    var was, now := trace[0], trace[1];
    FirstStage(p, order, trace);
    StageLasts(p, order, trace, 0, d, was, now);
    UseChosen(p, Last(trace), d, k, Between(was, now));
    NotReached(p, d, CandidatesOf(p, d, k), now.mapping.Keys);
  }

  // ---------- when the order matters ----------

  /** In some order of the definitions use k of definition d comes to mean definition t. */
  ghost predicate CanMean(p: Program, d: DefnId, k: nat, t: DefnId) {
    exists order, trace ::
      Written(order, |p.defns|) && Distinct(order) && Run(p, order, trace) && Means(Last(trace), d, k, t)
  }

  ghost predicate DependsOnOrder(p: Program, d: DefnId, k: nat) {
    exists a, b :: a != b && CanMean(p, d, k, a) && CanMean(p, d, k, b)
  }

  /** Only a use with two candidates can depend on the order of the definitions. */
  lemma {:induction false} OnlyCandidatesAreMeant(p: Program, d: DefnId, k: nat)
    requires NamesDefinition(p, d, k)
    ensures forall t :: CanMean(p, d, k, t) ==> t in CandidatesOf(p, d, k)
    ensures DependsOnOrder(p, d, k) ==>
      exists a, b :: a != b && a in CandidatesOf(p, d, k) && b in CandidatesOf(p, d, k)
  {
    forall t | CanMean(p, d, k, t) ensures t in CandidatesOf(p, d, k) {
      var order, trace :| Written(order, |p.defns|) && Distinct(order) && Run(p, order, trace)
        && Means(Last(trace), d, k, t);
      RunMapsAll(p, order, trace);
      MeansACandidate(p, Last(trace), d, k);
      MeansOneThing(p, Last(trace), d, k, t);
    }
  }

  /** The definitions are fit for evaluation in any order. */
  ghost predicate Evaluable(p: Program) {
    ProgramOk(p) && Resolvable(p) && exists sorted :: CompleteOrder(p, sorted)
  }

  /** Evaluates the definitions with c and d first: use k of d then means its candidate c. */
  method EvaluateWith(defns: seq<Defn>, arena: ScopeArena, c: DefnId, d: DefnId, rest: seq<DefnId>, ghost k: nat)
    returns (typer: Typer)
    requires Evaluable(Program(arena.scopes, defns)) && c in CandidatesOf(Program(arena.scopes, defns), d, k)
    requires Written([c, d] + rest, |defns|) && Distinct([c, d] + rest)
    modifies arena
    ensures fresh(typer) && typer.arena == arena && typer.Valid()
    ensures typer.program == Program(old(arena.scopes), defns) && AllMapped(|defns|, typer.mapping)
    ensures Means(typer.Now(), d, k, c) && CanMean(typer.program, d, k, c)
  {
    ghost var p := Program(arena.scopes, defns);
    typer := new Typer(defns, arena);
    var ok, trace := typer.EvaluateAll([c, d] + rest, |defns|);
    ghost var sorted :| CompleteOrder(p, sorted);
    ghost var rank := OrderRanks(p, sorted);
    FirstWrittenIsMeant(p, rank, [c, d] + rest, trace, d, k, c);
  }

  /** Main result on order, the converse: a use with two candidates does depend on it. The two evaluations of one
      program, with the one candidate written first and with the other, leave it with two meanings. */
  method EvaluateBothWays(defns: seq<Defn>, left: ScopeArena, right: ScopeArena, a: DefnId, b: DefnId, d: DefnId,
                          others: seq<DefnId>, more: seq<DefnId>, ghost k: nat)
    returns (one: Typer, two: Typer)
    requires left != right && left.scopes == right.scopes && Evaluable(Program(left.scopes, defns))
    requires a != b && {a, b} <= CandidatesOf(Program(left.scopes, defns), d, k)
    requires Written([a, d] + others, |defns|) && Distinct([a, d] + others)
    requires Written([b, d] + more, |defns|) && Distinct([b, d] + more)
    modifies left, right
    ensures one.Valid() && two.Valid() && one.program == two.program == Program(old(left.scopes), defns)
    ensures AllMapped(|defns|, one.mapping) && AllMapped(|defns|, two.mapping)
    ensures Means(one.Now(), d, k, a) && Means(two.Now(), d, k, b) && DependsOnOrder(one.program, d, k)
  {
    one := EvaluateWith(defns, left, a, d, others, k);
    two := EvaluateWith(defns, right, b, d, more, k);
  }

  // ---------- one program, two orders ----------

  /** A in the root and again in a namespace, where B is A. */
  function TwoAs(): Program {
    Program([Scope(map[], map["A" := 0], None, [1]), Scope(map[], map["A" := 1, "B" := 2], Some(0), [])],
            [Defn("A", 0, [], []), Defn("A", 1, [], []), Defn("B", 1, [], [Use("A", [])])])
  }

  lemma {:induction false} TwoAsOk(p: Program)
    requires p == TwoAs()
    ensures ProgramOk(p) && Candidates(p, p.defns[2], "A") == {0, 1}
  {
    assert MirroredAt(p.scopes, 0) && MirroredAt(p.scopes, 1);
    assert HomeIs(p, 0) && HomeIs(p, 1) && HomeIs(p, 2);
    assert PendingIs(p, 0, "A", 0) && PendingIs(p, 1, "A", 1) && PendingIs(p, 1, "B", 2);
    assert Sees(p, 1, "A", 0) && Sees(p, 1, "A", 1);
  }

  lemma {:induction false} TwoAsFits(p: Program)
    requires p == TwoAs()
    ensures Resolvable(p)
  {
    TwoAsOk(p);
    assert Fits(p, p.defns[2], p.defns[2].uses[0]);
    assert DefnFits(p, p.defns[0]) && DefnFits(p, p.defns[1]) && DefnFits(p, p.defns[2]);
  }

  lemma {:induction false} TwoAsNeeds(p: Program)
    requires p == TwoAs()
    ensures NeedsOf(p, 0) == {} && NeedsOf(p, 1) == {} && NeedsOf(p, 2) == {0, 1}
  {
    TwoAsOk(p);
    var b := p.defns[2];
    assert NeedsUpTo(p, b, b.uses[0].args, 0) == {} && Needs(p, b, b.uses[0]) == {0, 1};
    assert NeedsUpTo(p, b, b.uses, 0) == {};
  }

  lemma {:induction false} TwoAsEvaluable(p: Program)
    requires p == TwoAs()
    ensures Evaluable(p) && CandidatesOf(p, 2, 0) == {0, 1}
  {
    TwoAsOk(p);
    TwoAsFits(p);
    TwoAsNeeds(p);
    var sorted: seq<DefnId> := [0, 1, 2];
    assert sorted[..2] == [0, 1];
    assert CompleteOrder(p, sorted);
  }

  method TwoAsArena() returns (arena: ScopeArena)
    ensures fresh(arena) && arena.Valid() && arena.scopes == TwoAs().scopes
  {
    arena := new ScopeArena();
    var root := arena.AddRootScope();
    var inner := arena.AddChildScope(root);
    var added := arena.AddPendingTypeDefn(root, "A", 0);
    added := arena.AddPendingTypeDefn(inner, "A", 1);
    added := arena.AddPendingTypeDefn(inner, "B", 2);
    assert arena.scopes[0] == TwoAs().scopes[0] && arena.scopes[1] == TwoAs().scopes[1];
  }

  /** With the outer A written first B becomes the outer A, with the namespace first the inner one. */
  method ShadowingDependsOnOrder() returns (outerFirst: Typer, innerFirst: Typer)
    ensures outerFirst.Valid() && innerFirst.Valid() && outerFirst.program == innerFirst.program == TwoAs()
    ensures Means(outerFirst.Now(), 2, 0, 0) && Means(innerFirst.Now(), 2, 0, 1)
    ensures DependsOnOrder(TwoAs(), 2, 0)
  {
    var left := TwoAsArena();
    var right := TwoAsArena();
    TwoAsEvaluable(TwoAs());
    outerFirst, innerFirst := EvaluateBothWays(TwoAs().defns, left, right, 0, 1, 2, [1], [0], 0);
  }
}
