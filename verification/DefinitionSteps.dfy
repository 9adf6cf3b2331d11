/** The steps of the evaluation of type definitions: own scopes, lookups, what gets evaluated, what gets lost. */
module DefinitionSteps {
  import opened Wrappers
  import opened Scopes
  import opened Definitions
  import opened DefinitionState

  // ---------- a definition's own scope ----------

  /** Scope c binds the given type parameters of definition d to its type variables, and no other type. */
  ghost predicate OwnScope(p: Program, now: State, c: ScopeId, d: DefnId, params: seq<Ident>) {
    && HomeIs(p, d) && |p.scopes| <= c < |now.scopes| && now.scopes[c].parent == Some(p.defns[d].home)
    && (forall u :: TypeKey(u) in now.scopes[c].bindings <==> u in params)
    && forall u :: u in params ==> IsVariable(now.pool, now.scopes[c].bindings[TypeKey(u)], d, u)
  }

  ghost predicate IsVariable(pool: seq<Node>, id: nat, d: DefnId, u: Ident) {
    id < |pool| && pool[id] == Variable(d, u)
  }

  lemma {:induction false} OwnScopeStays(p: Program, a: State, b: State, c: ScopeId, d: DefnId, params: seq<Ident>)
    requires OwnScope(p, a, c, d, params) && Grew(p, a, b)
    ensures OwnScope(p, b, c, d, params)
  {
  }

  /** Only the pool has grown, and only scope c has changed. */
  ghost predicate OnlyScope(a: State, b: State, c: ScopeId) {
    && a.pool <= b.pool && b == a.(pool := b.pool, scopes := b.scopes)
    && SameTree(a.scopes, b.scopes) && |b.scopes| == |a.scopes|
    && forall s :: 0 <= s < |a.scopes| && s != c ==> b.scopes[s] == a.scopes[s]
  }

  /** The scope just made for a definition is its own and empty. */
  lemma {:induction false} ChildEntered(p: Program, outer: State, now: State, d: DefnId)
    requires HomeIs(p, d) && SameTree(p.scopes, outer.scopes)
    requires now == outer.(scopes := WithChild(outer.scopes, p.defns[d].home))
    requires LaterKept(p.scopes, outer.scopes, now.scopes)
    ensures Grew(p, outer, now) && OwnScope(p, now, |outer.scopes|, d, [])
  {
  }

  /** Changes to a scope made since the outer state do not count as changes to it. */
  lemma {:induction false} GrewInOwnScope(p: Program, outer: State, was: State, now: State, c: ScopeId)
    requires Grew(p, outer, was) && OnlyScope(was, now, c) && |outer.scopes| <= c
    ensures Grew(p, outer, now)
  {
  }

  ghost predicate DistinctUpTo(params: seq<Ident>, k: nat) {
    k <= |params| && forall i, j :: 0 <= i < j < k ==> params[i] != params[j]
  }

  lemma {:induction false} NextDistinct(defn: Defn, k: nat)
    requires k < |defn.params| && DistinctUpTo(defn.params, k)
    ensures if defn.params[k] in defn.params[..k] then !DistinctParams(defn) else DistinctUpTo(defn.params, k + 1)
  {
    if defn.params[k] in defn.params[..k] {
      var i :| 0 <= i < k && defn.params[i] == defn.params[k];
    }
  }

  /** The next parameter's variable, bound in the definition's own scope. */
  lemma {:induction false} ParamAdded(p: Program, start: State, was: State, now: State, c: ScopeId, d: DefnId,
                                      params: seq<Ident>, k: nat)
    requires k < |params| && OnlyScope(start, was, c) && OwnScope(p, was, c, d, params[..k])
    requires now == was.(pool := was.pool + [Variable(d, params[k])],
                         scopes := WithBinding(was.scopes, c, TypeKey(params[k]), |was.pool|))
    requires TypeKey(params[k]) !in was.scopes[c].bindings
    ensures OnlyScope(start, now, c) && OwnScope(p, now, c, d, params[..k + 1])
  {
    assert params[..k + 1] == params[..k] + [params[k]];
    forall u | u in params[..k + 1] ensures IsVariable(now.pool, now.scopes[c].bindings[TypeKey(u)], d, u) {
      if u != params[k] { assert IsVariable(was.pool, was.scopes[c].bindings[TypeKey(u)], d, u); }
    }
  }

  /** What the two lookups from the own scope of a definition without a type say about a name. */
  lemma {:induction false} LookupFromOwnScope(p: Program, now: State, c: ScopeId, d: DefnId, u: Ident)
    requires StateOk(p, now) && HomeIs(p, d) && OwnScope(p, now, c, d, p.defns[d].params)
    ensures var defn, found, pending := p.defns[d], Find(now.scopes, c, TypeKey(u)), FindPending(now.scopes, c, u);
      && (u in defn.params ==> found.Some?)
      && (found.Some? ==> FoundOk(p, d, u, found.value, now))
      && (found.None? && u == defn.name ==> d !in now.mapping)
      && (found.None? ==> Candidates(p, defn, u) !! now.mapping.Keys)
      && (found.None? && External(defn, u) ==>
        if pending.None? then Candidates(p, defn, u) == {}
        else IsPending(p, defn, u, now.mapping, pending.value.0, pending.value.1))
  {
    var defn := p.defns[d];
    LookupMeans(p, now.scopes, now.mapping, defn.home, u);
    PendingIsSeen(p, defn.home, u);
    var found := Find(now.scopes, defn.home, TypeKey(u));
    if u !in defn.params && found.Some? {
      var t :| FoundAs(p, now.mapping, defn.home, u, t, found.value);
      FoundIsTarget(p, now, d, u, t);
    }
    assert u == defn.name ==> Sees(p, defn.home, u, d);
  }

  lemma {:induction false} FoundIsTarget(p: Program, now: State, d: DefnId, u: Ident, t: DefnId)
    requires StateOk(p, now) && HomeIs(p, d) && p.defns[d].home < |p.scopes| && u !in p.defns[d].params
    requires t in now.mapping && FoundAs(p, now.mapping, p.defns[d].home, u, t, now.mapping[t])
    ensures FoundOk(p, d, u, now.mapping[t], now)
  {
    AllDefined(p, now);
    assert HomeIs(p, t);
    if d !in now.mapping {
      assert u == p.defns[d].name && p.defns[t].home == p.defns[d].home ==> t == d;
      assert ChosenOk(p, p.defns[d], u, t, Between(now, now));
    }
  }

  /** The type bound to a name is a parameter's variable or, as seen from a definition without a type, the type of the
      nearest candidate that has one. */
  ghost predicate FoundOk(p: Program, d: DefnId, u: Ident, id: TypeId, s: State) {
    && d < |p.defns| && id < |s.pool|
    && if u in p.defns[d].params then IsVariable(s.pool, id, d, u)
       else d !in s.mapping ==> TargetOk(p, p.defns[d], u, id, s.mapping, Between(s, s))
  }

  ghost predicate IsPending(p: Program, defn: Defn, u: Ident, mapping: map<DefnId, TypeId>, t: DefnId, at: ScopeId) {
    && t in Candidates(p, defn, u) && Candidates(p, defn, u) !! mapping.Keys
    && HomeIs(p, t) && at == p.defns[t].home
  }

  /** A definition without a type is pending at home, and its name is free there; one with a type is bound there. */
  lemma {:induction false} HomeTable(p: Program, s: State, d: DefnId)
    requires StateOk(p, s) && HomeIs(p, d)
    ensures p.defns[d].home < |s.scopes|
    ensures TypeKey(p.defns[d].name) in s.scopes[p.defns[d].home].bindings <==> d in s.mapping
    ensures d !in s.mapping ==> p.defns[d].name in s.scopes[p.defns[d].home].pending
  {
    assert TableOk(p.scopes[p.defns[d].home].pending, s.scopes[p.defns[d].home], s.mapping);
  }

  // ---------- which definitions get types ----------

  /** Whatever is newly evaluated is needed by the given definitions. */
  ghost predicate Confined(p: Program, from: set<DefnId>, was: set<DefnId>, now: set<DefnId>) {
    forall s: set<DefnId> :: from <= s && ClosedUnder(p, s) ==> now <= was + s
  }

  lemma {:induction false} ConfinedTrans(p: Program, f: set<DefnId>, g: set<DefnId>, a: set<DefnId>, b: set<DefnId>,
                                         c: set<DefnId>)
    requires Confined(p, f, a, b) && Confined(p, g, b, c)
    ensures Confined(p, f + g, a, c)
  {
    forall s: set<DefnId> | f + g <= s && ClosedUnder(p, s) ensures c <= a + s {
      assert f <= s && g <= s;
    }
  }

  /** Some of the definitions has the name of n and is in a scope that encloses it. */
  ghost predicate CoveredBy(p: Program, keys: set<DefnId>, n: DefnId) {
    exists c :: c in keys && Covers(p, c, n)
  }

  /** A definition covered by one with a type is not evaluated, unless it is among the given ones. */
  ghost predicate Exposed(p: Program, but: set<DefnId>, was: set<DefnId>, now: set<DefnId>) {
    forall n :: n in now && n !in was && n !in but ==> !CoveredBy(p, was, n)
  }

  lemma {:induction false} ExposedTrans(p: Program, a: set<DefnId>, b: set<DefnId>, c: set<DefnId>)
    requires Exposed(p, {}, a, b) && Exposed(p, {}, b, c) && a <= b
    ensures Exposed(p, {}, a, c)
  {
    forall n | n in c && n !in a ensures !CoveredBy(p, a, n) {
      if n !in b { assert CoveredBy(p, a, n) ==> CoveredBy(p, b, n); }
    }
  }

  /** What covers a candidate is a candidate. */
  lemma {:induction false} CoverIsCandidate(p: Program, defn: Defn, u: Ident, c: DefnId, t: DefnId)
    requires ParentsBelow(p.scopes) && defn.home < |p.scopes| && External(defn, u)
    requires t in Candidates(p, defn, u) && Covers(p, c, t)
    ensures c in Candidates(p, defn, u)
  {
    if p.defns[t].home != defn.home {
      AncestorTransitive(p.scopes, defn.home, p.defns[t].home, p.defns[c].home);
    }
  }

  /** Nothing has been evaluated but what is needed by the given definitions. */
  ghost predicate OnlyNeeded(p: Program, seen: set<DefnId>, keys: set<DefnId>) {
    forall s: set<DefnId> :: seen <= s && ClosedUnder(p, s) ==> keys <= s
  }

  lemma {:induction false} StillOnlyNeeded(p: Program, seen: set<DefnId>, from: set<DefnId>, was: set<DefnId>,
                                           now: set<DefnId>)
    requires OnlyNeeded(p, seen, was) && Confined(p, from, was, now)
    ensures OnlyNeeded(p, seen + from, now)
  {
    forall s: set<DefnId> | seen + from <= s && ClosedUnder(p, s) ensures now <= s {
      assert seen <= s && from <= s;
    }
  }

  /** With ranks that go down a definition is not evaluated while it is under evaluation. */
  lemma {:induction false} RanksKeepOut(p: Program, rank: seq<nat>, d: DefnId, t: DefnId, was: set<DefnId>,
                                        now: set<DefnId>)
    requires RanksDown(p, rank) && d < |rank| && t in NeedsOf(p, d) && d !in was && Confined(p, {t}, was, now)
    ensures d !in now && t < |rank| && rank[t] < rank[d]
  {
    LowerClosed(p, rank, d);
    assert RankAbove(p, rank, d);
    assert {t} <= LowerThan(rank, rank[d]);
  }

  /** What makes the evaluation of a use within definition d succeed. */
  ghost predicate CanUse(p: Program, rank: seq<nat>, d: DefnId, u: Use, depth: nat) {
    Succeeds(p, rank, d, depth + 1) && Fits(p, p.defns[d], u) && Needs(p, p.defns[d], u) <= NeedsOf(p, d)
  }

  ghost predicate CanUseAll(p: Program, rank: seq<nat>, d: DefnId, us: seq<Use>, depth: nat) {
    Succeeds(p, rank, d, depth + 1) && forall k :: 0 <= k < |us| ==> CanUse(p, rank, d, us[k], depth)
  }

  lemma {:induction false} CanUseArgs(p: Program, rank: seq<nat>, d: DefnId, u: Use, depth: nat)
    requires CanUse(p, rank, d, u, depth)
    requires u.name !in p.defns[d].params && Candidates(p, p.defns[d], u.name) != {}
    ensures CanUseAll(p, rank, d, u.args, depth)
  {
    forall k | 0 <= k < |u.args| ensures CanUse(p, rank, d, u.args[k], depth) {
      NeedsWithin(p, p.defns[d], u.args, k, |u.args|);
    }
  }

  lemma {:induction false} CanUseTarget(p: Program, rank: seq<nat>, d: DefnId, u: Use, depth: nat, t: DefnId)
    requires CanUse(p, rank, d, u, depth) && External(p.defns[d], u.name)
    requires t in Candidates(p, p.defns[d], u.name)
    ensures Succeeds(p, rank, t, depth) && t in NeedsOf(p, d)
  {
    assert t in Needs(p, p.defns[d], u);
    assert RankAbove(p, rank, d);
  }

  lemma {:induction false} CanUseOwn(p: Program, rank: seq<nat>, d: DefnId, depth: nat)
    requires Succeeds(p, rank, d, depth + 1)
    ensures CanUseAll(p, rank, d, p.defns[d].uses, depth) && DistinctParams(p.defns[d])
  {
    assert DefnFits(p, p.defns[d]);
    forall k | 0 <= k < |p.defns[d].uses| ensures CanUse(p, rank, d, p.defns[d].uses[k], depth) {
      NeedsWithin(p, p.defns[d], p.defns[d].uses, k, |p.defns[d].uses|);
    }
  }

  // ---------- which arguments get lost ----------

  /** No arguments have been lost so far, and none will be in what is still to be evaluated for these needs. */
  ghost predicate Ready(p: Program, needs: set<DefnId>, seen: set<DefnId>, s: State) {
    AllFull(p, s) && seen <= s.mapping.Keys && (SafeProgram(p) || needs <= s.mapping.Keys)
  }

  /** A safe use keeps its arguments; an unsafe one loses some if nothing but what was needed has been evaluated. */
  ghost predicate UseJudged(p: Program, defn: Defn, u: Use, seen: set<DefnId>, was: State, now: State, part: TypeId) {
    && (Ready(p, Needs(p, defn, u), seen, was) && SafeUse(p, defn, u, seen) ==>
      AllFull(p, now) && PartFull(defn, u, part, now.pool))
    && (OnlyNeeded(p, seen, was.mapping.Keys) && !SafeUse(p, defn, u, seen) ==> !PartFull(defn, u, part, now.pool))
  }

  ghost predicate UsesJudged(p: Program, defn: Defn, us: seq<Use>, n: nat, seen: set<DefnId>, was: State, now: State,
                             parts: seq<TypeId>)
    requires n <= |us|
  {
    && (Ready(p, NeedsUpTo(p, defn, us, n), seen, was) && SafeUses(p, defn, us, n, seen) ==>
      AllFull(p, now) && PartsFull(defn, us, n, parts, now.pool))
    && (OnlyNeeded(p, seen, was.mapping.Keys) && !SafeUses(p, defn, us, n, seen) ==>
      !PartsFull(defn, us, n, parts, now.pool))
  }

  /** A use that does not apply another definition to arguments. */
  lemma {:induction false} JudgePlain(p: Program, defn: Defn, u: Use, seen: set<DefnId>, was: State, now: State,
                                      part: TypeId)
    requires !External(defn, u.name) || u.args == []
    requires StateOk(p, was) && SameNodes(was.pool, now.pool) && now.mapping == was.mapping && part < |now.pool|
    ensures UseJudged(p, defn, u, seen, was, now, part)
  {
    AllStayFull(p, was, now);
    PlainIsSafe(p, defn, u, seen);
  }

  lemma {:induction false} PlainIsSafe(p: Program, defn: Defn, u: Use, seen: set<DefnId>)
    requires !External(defn, u.name) || u.args == []
    ensures SafeUse(p, defn, u, seen)
  {
    var all := Candidates(p, defn, u.name);
    if External(defn, u.name) { assert SafeUses(p, defn, u.args, |u.args|, seen + all); }
  }

  /** A use of a definition that had its type. */
  lemma {:induction false} JudgeApplied(p: Program, defn: Defn, u: Use, seen: set<DefnId>, was: State, mid: State,
                                        now: State, t: DefnId, args: seq<TypeId>)
    requires External(defn, u.name) && u.args != [] && StateOk(p, mid)
    requires Candidates(p, defn, u.name) == {t} && t in was.mapping
    requires UsesJudged(p, defn, u.args, |u.args|, seen + {t}, was, mid, args)
    requires exists generic :: now == mid.(pool := mid.pool + [Applied(generic, args)])
    requires forall k :: 0 <= k < |args| ==> args[k] < |mid.pool|
    ensures UseJudged(p, defn, u, seen, was, now, |mid.pool|)
  {
    AllStayFull(p, mid, now);
    PartsStayFull(defn, u.args, |u.args|, args, mid.pool, now.pool);
    if OnlyNeeded(p, seen, was.mapping.Keys) {
      assert Reached(p, seen, t);
      assert OnlyNeeded(p, seen + {t}, was.mapping.Keys) by {
        forall s: set<DefnId> | seen + {t} <= s && ClosedUnder(p, s) ensures was.mapping.Keys <= s { assert seen <= s; }
      }
    }
    if Ready(p, Needs(p, defn, u), seen, was) && SafeUse(p, defn, u, seen) {
      assert Ready(p, NeedsUpTo(p, defn, u.args, |u.args|), seen + {t}, was);
    }
  }

  /** A use of a definition that was still pending: its type, whatever it was to be applied to. */
  lemma {:induction false} JudgePending(p: Program, defn: Defn, u: Use, seen: set<DefnId>, was: State, now: State,
                                        t: DefnId)
    requires External(defn, u.name) && StateOk(p, was) && StateOk(p, now) && NoShadow(p)
    requires t in Candidates(p, defn, u.name)
    requires t !in was.mapping && t in now.mapping && (AllFull(p, was) && SafeProgram(p) ==> AllFull(p, now))
    ensures UseJudged(p, defn, u, seen, was, now, now.mapping[t])
  {
    AllDefined(p, now);
    assert t in Needs(p, defn, u);
    if u.args == [] {
      PlainIsSafe(p, defn, u, seen);
    } else {
      if AllFull(p, was) { FullIsClosed(p, was); }
      assert AllFull(p, was) && seen <= was.mapping.Keys ==> !Reached(p, seen, t);
      assert !PartFull(defn, u, now.mapping[t], now.pool);
    }
  }

  /** If no arguments have been lost, everything needed by what has been evaluated has been evaluated too. */
  lemma {:induction false} FullIsClosed(p: Program, s: State)
    requires StateOk(p, s) && NoShadow(p) && AllFull(p, s)
    ensures ClosedUnder(p, s.mapping.Keys)
  {
    AllDefined(p, s);
    forall d: DefnId | d in s.mapping ensures NeedsOf(p, d) <= s.mapping.Keys {
      Defined(p, s, d);
      var body := BodyOf(s.pool, s.mapping[d]);
      FullNeedAll(p, p.defns[d], d, p.defns[d].uses, |p.defns[d].uses|, s.pool[body].parts, s.pool, s.mapping,
        Period({}, s.mapping.Keys));
    }
  }

  /** The parts so far, and the next use. */
  ghost predicate NextUse(p: Program, d: DefnId, us: seq<Use>, k: nat, start: State, was: State, now: State,
                          parts: seq<TypeId>)
  {
    && d < |p.defns| && k < |us| && StateOk(p, was) && Grew(p, start, was) && Grew(p, was, now)
    && PartsOk(p, p.defns[d], d, us, k, parts, was.pool, was.mapping, Between(start, was))
    && Confined(p, NeedsUpTo(p, p.defns[d], us, k), start.mapping.Keys, was.mapping.Keys)
  }

  lemma {:induction false} NextKeeps(p: Program, d: DefnId, us: seq<Use>, k: nat, seen: set<DefnId>, start: State,
                                     was: State, now: State, parts: seq<TypeId>)
    requires NextUse(p, d, us, k, start, was, now, parts) && UsesJudged(p, p.defns[d], us, k, seen, start, was, parts)
    requires Ready(p, NeedsUpTo(p, p.defns[d], us, k + 1), seen, start) && SafeUses(p, p.defns[d], us, k + 1, seen)
    requires NoShadow(p)
    ensures PartsFull(p.defns[d], us, k, parts, was.pool)
    ensures Ready(p, Needs(p, p.defns[d], us[k]), seen + NeedsUpTo(p, p.defns[d], us, k), was)
    ensures SafeUse(p, p.defns[d], us[k], seen + NeedsUpTo(p, p.defns[d], us, k))
  {
    assert Ready(p, NeedsUpTo(p, p.defns[d], us, k), seen, start) && SafeUses(p, p.defns[d], us, k, seen);
    AllDefined(p, was);
    FullNeedAll(p, p.defns[d], d, us, k, parts, was.pool, was.mapping, Between(start, was));
  }

  lemma {:induction false} NextLoses(p: Program, d: DefnId, us: seq<Use>, k: nat, seen: set<DefnId>, start: State,
                                     was: State, now: State, parts: seq<TypeId>, part: TypeId)
    requires NextUse(p, d, us, k, start, was, now, parts) && UsesJudged(p, p.defns[d], us, k, seen, start, was, parts)
    requires UseJudged(p, p.defns[d], us[k], seen + NeedsUpTo(p, p.defns[d], us, k), was, now, part)
    requires OnlyNeeded(p, seen, start.mapping.Keys) && !SafeUses(p, p.defns[d], us, k + 1, seen)
    ensures !PartsFull(p.defns[d], us, k, parts, was.pool) || !PartFull(p.defns[d], us[k], part, now.pool)
  {
    StillOnlyNeeded(p, seen, NeedsUpTo(p, p.defns[d], us, k), start.mapping.Keys, was.mapping.Keys);
    assert SafeUses(p, p.defns[d], us, k, seen) ==>
      !SafeUse(p, p.defns[d], us[k], seen + NeedsUpTo(p, p.defns[d], us, k));
  }

  lemma {:induction false} NextFull(defn: Defn, us: seq<Use>, k: nat, pool: seq<Node>, bigger: seq<Node>,
                                    parts: seq<TypeId>, part: TypeId)
    requires k < |us| && |parts| == k && SameNodes(pool, bigger) && BuiltBelow(pool)
    requires forall j :: 0 <= j < k ==> parts[j] < |pool|
    ensures PartsFull(defn, us, k + 1, parts + [part], bigger) <==>
      PartsFull(defn, us, k, parts, pool) && PartFull(defn, us[k], part, bigger)
  {
    PartsStayFull(defn, us, k, parts, pool, bigger);
    var all := parts + [part];
    assert all[k] == part && forall j :: 0 <= j < k ==> all[j] == parts[j];
  }

  /** One more use has its type. */
  lemma {:induction false} JudgeNext(p: Program, d: DefnId, us: seq<Use>, k: nat, seen: set<DefnId>, start: State,
                                     was: State, now: State, parts: seq<TypeId>, part: TypeId)
    requires NextUse(p, d, us, k, start, was, now, parts) && UsesJudged(p, p.defns[d], us, k, seen, start, was, parts)
    requires UseJudged(p, p.defns[d], us[k], seen + NeedsUpTo(p, p.defns[d], us, k), was, now, part) && NoShadow(p)
    ensures UsesJudged(p, p.defns[d], us, k + 1, seen, start, now, parts + [part])
  {
    assert forall j :: 0 <= j < k ==> PartOk(p, p.defns[d], d, us[j], parts[j], was.pool, was.mapping,
      Between(start, was));
    NextFull(p.defns[d], us, k, was.pool, now.pool, parts, part);
    if Ready(p, NeedsUpTo(p, p.defns[d], us, k + 1), seen, start) && SafeUses(p, p.defns[d], us, k + 1, seen) {
      NextKeeps(p, d, us, k, seen, start, was, now, parts);
    }
    if OnlyNeeded(p, seen, start.mapping.Keys) && !SafeUses(p, p.defns[d], us, k + 1, seen) {
      NextLoses(p, d, us, k, seen, start, was, now, parts, part);
    }
  }

  ghost predicate DefnFull(p: Program, d: DefnId, parts: seq<TypeId>, pool: seq<Node>) {
    d < |p.defns| && PartsFull(p.defns[d], p.defns[d].uses, |p.defns[d].uses|, parts, pool)
  }

  lemma {:induction false} FinishedFull(p: Program, s: State, d: DefnId, parts: seq<TypeId>, done: seq<Node>,
                                        id: TypeId)
    requires FinishedPool(p, s, d, parts, done, id) && PlaceholdersOk(s.pool, s.mapping, s.placeholders)
    requires BuiltBelow(s.pool) && RootOk(p, d, done, id) && forall k :: 0 <= k < |parts| ==> parts[k] < |s.pool|
    ensures SameNodes(s.pool, done) && (DefinedFull(p, d, done, id) <==> DefnFull(p, d, parts, s.pool))
  {
    FinishedShape(p, s, d, parts, done, id);
    PartsStayFull(p.defns[d], p.defns[d].uses, |p.defns[d].uses|, parts, s.pool, done);
    assert BodyOf(done, id) == |s.pool|;
  }

  /** No arguments are lost in a definition's type if and only if none are in its parts. */
  lemma {:induction false} FinishJudged(p: Program, s: State, now: State, d: DefnId, parts: seq<TypeId>, id: TypeId)
    requires FinishedPool(p, s, d, parts, now.pool, id) && now.mapping == s.mapping[d := id]
    requires PlaceholdersOk(s.pool, s.mapping, s.placeholders) && BuiltBelow(s.pool) && RootsOk(p, s.pool, s.mapping)
    requires RootOk(p, d, now.pool, id) && forall k :: 0 <= k < |parts| ==> parts[k] < |s.pool|
    ensures AllFull(p, now) <==> AllFull(p, s) && DefnFull(p, d, parts, s.pool)
  {
    FinishedFull(p, s, d, parts, now.pool, id);
    forall e: DefnId | e in s.mapping
      ensures DefinedFull(p, e, now.pool, now.mapping[e]) <==> DefinedFull(p, e, s.pool, s.mapping[e])
    {
      DefinedStaysFull(p, e, s.pool, now.pool, s.mapping[e]);
    }
    assert AllFull(p, now) <== AllFull(p, s) && DefnFull(p, d, parts, s.pool);
    assert AllFull(p, now) ==> DefinedFull(p, d, now.pool, now.mapping[d]);
  }

  /** What the evaluation of a use within definition d leaves, as long as d itself has no type. */
  ghost predicate UseDone(p: Program, d: DefnId, u: Use, seen: set<DefnId>, was: State, now: State, part: TypeId) {
    && d < |p.defns| && PartOk(p, p.defns[d], d, u, part, now.pool, now.mapping, Between(was, now))
    && Confined(p, Needs(p, p.defns[d], u), was.mapping.Keys, now.mapping.Keys)
    && Exposed(p, {}, was.mapping.Keys, now.mapping.Keys)
    && (NoShadow(p) ==> UseJudged(p, p.defns[d], u, seen, was, now, part))
  }

  ghost predicate UsesDone(p: Program, d: DefnId, us: seq<Use>, n: nat, seen: set<DefnId>, was: State, now: State,
                           parts: seq<TypeId>)
  {
    && d < |p.defns| && n <= |us|
    && PartsOk(p, p.defns[d], d, us, n, parts, now.pool, now.mapping, Between(was, now))
    && Confined(p, NeedsUpTo(p, p.defns[d], us, n), was.mapping.Keys, now.mapping.Keys)
    && Exposed(p, {}, was.mapping.Keys, now.mapping.Keys)
    && (NoShadow(p) ==> UsesJudged(p, p.defns[d], us, n, seen, was, now, parts))
  }

  lemma {:induction false} PartsNext(p: Program, d: DefnId, us: seq<Use>, k: nat, start: State, was: State, now: State,
                                     parts: seq<TypeId>, part: TypeId)
    requires d < |p.defns| && k < |us| && Grew(p, start, was) && Grew(p, was, now)
    requires PartsOk(p, p.defns[d], d, us, k, parts, was.pool, was.mapping, Between(start, was))
    requires PartOk(p, p.defns[d], d, us[k], part, now.pool, now.mapping, Between(was, now))
    ensures PartsOk(p, p.defns[d], d, us, k + 1, parts + [part], now.pool, now.mapping, Between(start, now))
  {
    var when := Between(start, now);
    assert Wider(Between(start, was), when) && Wider(Between(was, now), when);
    PartsStay(p, p.defns[d], d, us, k, parts, was.pool, now.pool, was.mapping, now.mapping, Between(start, was), when);
    PartStays(p, p.defns[d], d, us[k], part, now.pool, now.pool, now.mapping, now.mapping, Between(was, now), when);
    var all := parts + [part];
    forall j | 0 <= j < k + 1 ensures PartOk(p, p.defns[d], d, us[j], all[j], now.pool, now.mapping, when) {
      if j < k { assert all[j] == parts[j]; }
    }
  }

  lemma {:induction false} UsesNext(p: Program, d: DefnId, us: seq<Use>, k: nat, seen: set<DefnId>, start: State,
                                    was: State, now: State, parts: seq<TypeId>, part: TypeId)
    requires k < |us| && StateOk(p, was) && Grew(p, start, was) && Grew(p, was, now)
    requires UsesDone(p, d, us, k, seen, start, was, parts)
    requires d < |p.defns| && UseDone(p, d, us[k], seen + NeedsUpTo(p, p.defns[d], us, k), was, now, part)
    ensures UsesDone(p, d, us, k + 1, seen, start, now, parts + [part])
  {
    assert NextUse(p, d, us, k, start, was, now, parts);
    if NoShadow(p) { JudgeNext(p, d, us, k, seen, start, was, now, parts, part); }
    PartsNext(p, d, us, k, start, was, now, parts, part);
    ConfinedTrans(p, NeedsUpTo(p, p.defns[d], us, k), Needs(p, p.defns[d], us[k]), start.mapping.Keys, was.mapping.Keys,
      now.mapping.Keys);
    ExposedTrans(p, start.mapping.Keys, was.mapping.Keys, now.mapping.Keys);
  }

  /** Between two uses. */
  ghost predicate UsesState(p: Program, d: DefnId, c: ScopeId, us: seq<Use>, k: nat, seen: set<DefnId>, start: State,
                            now: State, parts: seq<TypeId>)
  {
    && HomeIs(p, d) && k == |parts| <= |us| && Grew(p, start, now) && OwnScope(p, now, c, d, p.defns[d].params)
    && (forall j :: 0 <= j < k ==> parts[j] < |now.pool|)
    && (d !in now.mapping ==> UsesDone(p, d, us, k, seen, start, now, parts))
  }

  lemma {:induction false} UsesStarted(p: Program, d: DefnId, c: ScopeId, us: seq<Use>, seen: set<DefnId>, start: State)
    requires HomeIs(p, d) && OwnScope(p, start, c, d, p.defns[d].params)
    ensures UsesState(p, d, c, us, 0, seen, start, start, [])
  {
  }

  lemma {:induction false} UsesStep(p: Program, d: DefnId, c: ScopeId, us: seq<Use>, k: nat, seen: set<DefnId>,
                                    start: State, was: State, now: State, parts: seq<TypeId>, part: TypeId)
    requires k < |us| && StateOk(p, was) && Grew(p, was, now) && part < |now.pool|
    requires UsesState(p, d, c, us, k, seen, start, was, parts)
    requires d !in now.mapping ==> UseDone(p, d, us[k], seen + NeedsUpTo(p, p.defns[d], us, k), was, now, part)
    ensures UsesState(p, d, c, us, k + 1, seen, start, now, parts + [part])
  {
    OwnScopeStays(p, was, now, c, d, p.defns[d].params);
    GrewTrans(p, start, was, now);
    if d !in now.mapping {
      assert d !in was.mapping;
      UsesNext(p, d, us, k, seen, start, was, now, parts, part);
    }
  }

  lemma {:induction false} PendingExposed(p: Program, d: DefnId, u: Ident, t: DefnId, was: set<DefnId>,
                                          now: set<DefnId>)
    requires HomeIs(p, d) && ParentsBelow(p.scopes) && External(p.defns[d], u)
    requires t in Candidates(p, p.defns[d], u) && Candidates(p, p.defns[d], u) !! was && Exposed(p, {t}, was, now)
    ensures Exposed(p, {}, was, now)
  {
    if CoveredBy(p, was, t) {
      var c :| c in was && Covers(p, c, t);
      CoverIsCandidate(p, p.defns[d], u, c, t);
    }
  }

  lemma {:induction false} PendingPart(p: Program, d: DefnId, u: Use, t: DefnId, was: State, now: State)
    requires d < |p.defns| && External(p.defns[d], u.name) && LogOk(p, now.pool, now.mapping, now.log)
    requires t in Candidates(p, p.defns[d], u.name) && t in now.mapping
    requires Candidates(p, p.defns[d], u.name) !! was.mapping.Keys
    ensures PartOk(p, p.defns[d], d, u, now.mapping[t], now.pool, now.mapping, Between(was, now))
  {
    AllDefined(p, now);
    assert ChosenOk(p, p.defns[d], u.name, t, Between(was, now));
  }

  lemma {:induction false} PendingDone(p: Program, d: DefnId, u: Use, seen: set<DefnId>, was: State, now: State,
                                       t: DefnId, at: ScopeId)
    requires HomeIs(p, d) && External(p.defns[d], u.name) && StateOk(p, was) && StateOk(p, now)
    requires IsPending(p, p.defns[d], u.name, was.mapping, t, at)
    requires Evaluated(p, t, was, now)
    ensures UseDone(p, d, u, seen, was, now, now.mapping[t])
  {
    PendingPart(p, d, u, t, was, now);
    PendingExposed(p, d, u.name, t, was.mapping.Keys, now.mapping.Keys);
    PendingConfined(p, p.defns[d], u, t, was.mapping.Keys, now.mapping.Keys);
    if NoShadow(p) { JudgePending(p, p.defns[d], u, seen, was, now, t); }
  }

  lemma {:induction false} PendingConfined(p: Program, defn: Defn, u: Use, t: DefnId, was: set<DefnId>,
                                           now: set<DefnId>)
    requires External(defn, u.name) && t in Candidates(p, defn, u.name) && Confined(p, {t}, was, now)
    ensures Confined(p, Needs(p, defn, u), was, now)
  {
    assert {t} <= Needs(p, defn, u);
  }

  /** In a definition that fits, what is applied to arguments is generic. */
  lemma {:induction false} FoundFits(p: Program, rank: seq<nat>, d: DefnId, u: Use, depth: nat, id: TypeId, s: State)
    requires CanUse(p, rank, d, u, depth) && StateOk(p, s) && FoundOk(p, d, u.name, id, s)
    requires u.args != [] && d !in s.mapping
    ensures s.pool[id].Generic? && CanUseAll(p, rank, d, u.args, depth)
  {
    AllDefined(p, s);
    assert Fits(p, p.defns[d], u) && u.name !in p.defns[d].params;
    var t :| ChosenOk(p, p.defns[d], u.name, t, Between(s, s)) && t in s.mapping && id == s.mapping[t];
    CanUseArgs(p, rank, d, u, depth);
  }

  lemma {:induction false} AppliedPart(p: Program, d: DefnId, u: Use, was: State, mid: State, now: State,
                                       generic: TypeId, args: seq<TypeId>)
    requires Grew(p, was, mid) && d < |p.defns| && generic < |was.pool| && was.pool[generic].Generic?
    requires TargetOk(p, p.defns[d], u.name, generic, was.mapping, Between(was, was)) && u.name !in p.defns[d].params
    requires u.args != [] && now == mid.(pool := mid.pool + [Applied(generic, args)])
    requires PartsOk(p, p.defns[d], d, u.args, |u.args|, args, mid.pool, mid.mapping, Between(was, mid))
    ensures PartOk(p, p.defns[d], d, u, |mid.pool|, now.pool, now.mapping, Between(was, now))
  {
    var defn := p.defns[d];
    PartsStay(p, defn, d, u.args, |u.args|, args, mid.pool, now.pool, mid.mapping, mid.mapping, Between(was, mid),
      Between(was, now));
    assert now.pool[generic] == mid.pool[generic] && now.pool[|mid.pool|] == Applied(generic, args);
    var t :| ChosenOk(p, defn, u.name, t, Between(was, was)) && t in was.mapping && generic == was.mapping[t];
    assert ChosenOk(p, defn, u.name, t, Between(was, now)) && now.mapping[t] == generic;
    assert AppliedOk(p, defn, d, u, now.pool[|mid.pool|], now.pool, now.mapping, Between(was, now));
  }

  lemma {:induction false} AppliedKeepsState(p: Program, was: State, mid: State, now: State, n: Node)
    requires StateOk(p, mid) && Grew(p, was, mid) && now == mid.(pool := mid.pool + [n])
    requires n.Applied? && NodeBelow(n, |mid.pool|)
    ensures StateOk(p, now) && Grew(p, was, now)
  {
    PushKeepsState(p, mid, n);
    GrewTrans(p, was, mid, now);
  }

  lemma {:induction false} AppliedJudged(p: Program, d: DefnId, u: Use, seen: set<DefnId>, was: State, mid: State,
                                         now: State, t: DefnId, generic: TypeId, args: seq<TypeId>)
    requires StateOk(p, mid) && NoShadow(p) && d < |p.defns| && u.name !in p.defns[d].params && u.args != []
    requires t in Candidates(p, p.defns[d], u.name) && t in was.mapping
    requires now == mid.(pool := mid.pool + [Applied(generic, args)])
    requires PartsOk(p, p.defns[d], d, u.args, |u.args|, args, mid.pool, mid.mapping, Between(was, mid))
    requires UsesJudged(p, p.defns[d], u.args, |u.args|, seen + Candidates(p, p.defns[d], u.name), was, mid, args)
    ensures UseJudged(p, p.defns[d], u, seen, was, now, |mid.pool|)
  {
    assert forall k :: 0 <= k < |args| ==>
      PartOk(p, p.defns[d], d, u.args[k], args[k], mid.pool, mid.mapping, Between(was, mid));
    OnlyTarget(p, d, u.name);
    JudgeApplied(p, p.defns[d], u, seen, was, mid, now, t, args);
  }

  lemma {:induction false} AppliedConfined(p: Program, defn: Defn, u: Use, was: set<DefnId>, now: set<DefnId>)
    requires u.name !in defn.params && Candidates(p, defn, u.name) != {}
    requires Confined(p, NeedsUpTo(p, defn, u.args, |u.args|), was, now)
    ensures Confined(p, Needs(p, defn, u), was, now)
  {
    assert NeedsUpTo(p, defn, u.args, |u.args|) <= Needs(p, defn, u);
  }

  lemma {:induction false} AppliedDone(p: Program, d: DefnId, u: Use, seen: set<DefnId>, was: State, mid: State,
                                       now: State, generic: TypeId, args: seq<TypeId>)
    requires StateOk(p, mid) && Grew(p, was, mid) && FoundOk(p, d, u.name, generic, was) && was.pool[generic].Generic?
    requires d !in was.mapping && u.args != [] && now == mid.(pool := mid.pool + [Applied(generic, args)])
    requires UsesDone(p, d, u.args, |u.args|, seen + Candidates(p, p.defns[d], u.name), was, mid, args)
    ensures UseDone(p, d, u, seen, was, now, |mid.pool|)
  {
    AppliedPart(p, d, u, was, mid, now, generic, args);
    var t :| ChosenOk(p, p.defns[d], u.name, t, Between(was, was)) && t in was.mapping;
    AppliedConfined(p, p.defns[d], u, was.mapping.Keys, now.mapping.Keys);
    if NoShadow(p) { AppliedJudged(p, d, u, seen, was, mid, now, t, generic, args); }
  }

  /** What counts as seen when a definition's evaluation starts. */
  ghost function StartSeen(p: Program, d: DefnId, keys: set<DefnId>): set<DefnId> {
    if !Safe(p, d) && NeedsOf(p, d) <= keys then keys else {}
  }

  /** A definition about to get its type: what its parts are, and what is promised of it already. */
  ghost predicate OwnParts(p: Program, d: DefnId, outer: State, built: State, parts: seq<TypeId>) {
    && d < |p.defns|
    && PartsOk(p, p.defns[d], d, p.defns[d].uses, |p.defns[d].uses|, parts, built.pool, built.mapping,
               Between(outer, built))
    && Confined(p, NeedsOf(p, d), outer.mapping.Keys, built.mapping.Keys)
    && Exposed(p, {}, outer.mapping.Keys, built.mapping.Keys)
    && (NoShadow(p) && Ready(p, NeedsOf(p, d), {}, outer) ==> AllFull(p, built) && DefnFull(p, d, parts, built.pool))
    && (NoShadow(p) && outer.mapping == map[] && !Safe(p, d) ==> !DefnFull(p, d, parts, built.pool))
  }

  /** What has been evaluated for a definition's parts, after its scope was made and its parameters were bound. */
  ghost predicate OwnUsesDone(p: Program, d: DefnId, outer: State, entered: State, built: State, parts: seq<TypeId>) {
    && d < |p.defns| && SameNodes(outer.pool, entered.pool) && entered.mapping == outer.mapping
    && UsesDone(p, d, p.defns[d].uses, |p.defns[d].uses|, StartSeen(p, d, outer.mapping.Keys), entered, built, parts)
  }

  lemma {:induction false} OwnKeeps(p: Program, d: DefnId, outer: State, entered: State, built: State,
                                    parts: seq<TypeId>)
    requires OwnUsesDone(p, d, outer, entered, built, parts)
    requires StateOk(p, outer) && NoShadow(p) && Ready(p, NeedsOf(p, d), {}, outer)
    ensures AllFull(p, built) && DefnFull(p, d, parts, built.pool)
  {
    AllStayFull(p, outer, entered);
    if !Safe(p, d) {
      NeededAreSafe(p, p.defns[d], p.defns[d].uses, |p.defns[d].uses|, outer.mapping.Keys);
    }
  }

  lemma {:induction false} OwnLoses(p: Program, d: DefnId, outer: State, entered: State, built: State,
                                    parts: seq<TypeId>)
    requires OwnUsesDone(p, d, outer, entered, built, parts) && NoShadow(p) && outer.mapping == map[] && !Safe(p, d)
    ensures !DefnFull(p, d, parts, built.pool)
  {
    assert StartSeen(p, d, outer.mapping.Keys) == {};
    assert OnlyNeeded(p, {}, entered.mapping.Keys);
  }

  lemma {:induction false} OwnPartsDone(p: Program, d: DefnId, outer: State, entered: State, built: State,
                                        parts: seq<TypeId>)
    requires OwnUsesDone(p, d, outer, entered, built, parts) && StateOk(p, outer)
    ensures OwnParts(p, d, outer, built, parts)
  {
    if NoShadow(p) && Ready(p, NeedsOf(p, d), {}, outer) { OwnKeeps(p, d, outer, entered, built, parts); }
    if NoShadow(p) && outer.mapping == map[] && !Safe(p, d) { OwnLoses(p, d, outer, entered, built, parts); }
  }

  lemma {:induction false} OwnConfined(p: Program, d: DefnId, was: set<DefnId>, built: set<DefnId>)
    requires Confined(p, NeedsOf(p, d), was, built)
    ensures Confined(p, {d}, was, built + {d})
  {
    forall s: set<DefnId> | {d} <= s && ClosedUnder(p, s) ensures built + {d} <= was + s {
      assert d in s && NeedsOf(p, d) <= s;
    }
  }

  /** What the evaluation of definition d leaves: whatever got a type is needed by it and not covered by what had one,
      and d is made from the right types. With no shadowing, if no arguments had been lost none are, provided the
      program is safe or all that is needed had been evaluated; and if nothing had been evaluated and d is not safe,
      some are. */
  ghost predicate Evaluated(p: Program, d: DefnId, was: State, now: State) {
    && Grew(p, was, now) && d in now.mapping && Confined(p, {d}, was.mapping.Keys, now.mapping.Keys)
    && Exposed(p, {d}, was.mapping.Keys, now.mapping.Keys)
    && (d !in was.mapping ==> DefinedOk(p, d, now.pool, now.mapping, Between(was, now)))
    && (NoShadow(p) && Ready(p, NeedsOf(p, d), {}, was) ==> AllFull(p, now))
    && (NoShadow(p) && was.mapping == map[] && !Safe(p, d) ==> !AllFull(p, now))
  }

  lemma {:induction false} EvaluatedBefore(p: Program, d: DefnId, s: State)
    requires d in s.mapping
    ensures Evaluated(p, d, s, s)
  {
  }

  lemma {:induction false} OwnEvaluated(p: Program, d: DefnId, outer: State, built: State, now: State,
                                        parts: seq<TypeId>)
    requires OwnParts(p, d, outer, built, parts) && Grew(p, outer, built) && Grew(p, built, now)
    requires d in now.mapping && now.mapping.Keys == built.mapping.Keys + {d}
    requires DefinedOk(p, d, now.pool, now.mapping, Between(outer, now))
    requires AllFull(p, now) <==> AllFull(p, built) && DefnFull(p, d, parts, built.pool)
    ensures Evaluated(p, d, outer, now)
  {
    GrewTrans(p, outer, built, now);
    OwnConfined(p, d, outer.mapping.Keys, built.mapping.Keys);
  }

  lemma {:induction false} PartsInPool(p: Program, d: DefnId, outer: State, built: State, parts: seq<TypeId>)
    requires OwnParts(p, d, outer, built, parts)
    ensures forall k :: 0 <= k < |parts| ==> parts[k] < |built.pool|
  {
    assert forall k :: 0 <= k < |parts| ==>
      PartOk(p, p.defns[d], d, p.defns[d].uses[k], parts[k], built.pool, built.mapping, Between(outer, built));
  }

  lemma {:induction false} OwnFinished(p: Program, d: DefnId, outer: State, built: State, now: State,
                                       parts: seq<TypeId>, id: TypeId)
    requires OwnParts(p, d, outer, built, parts) && Grew(p, outer, built) && Grew(p, built, now)
    requires LogOk(p, built.pool, built.mapping, built.log) && LogOk(p, now.pool, now.mapping, now.log)
    requires PlaceholdersOk(built.pool, built.mapping, built.placeholders) && BuiltBelow(built.pool)
    requires FinishedPool(p, built, d, parts, now.pool, id) && now.mapping == built.mapping[d := id]
    requires DistinctParams(p.defns[d])
    ensures Evaluated(p, d, outer, now)
  {
    OwnDefined(p, d, outer, built, now, parts, id);
    OwnJudged(p, d, outer, built, now, parts, id);
    OwnEvaluated(p, d, outer, built, now, parts);
  }

  lemma {:induction false} OwnDefined(p: Program, d: DefnId, outer: State, built: State, now: State,
                                      parts: seq<TypeId>, id: TypeId)
    requires OwnParts(p, d, outer, built, parts) && DistinctParams(p.defns[d])
    requires PlaceholdersOk(built.pool, built.mapping, built.placeholders)
    requires FinishedPool(p, built, d, parts, now.pool, id) && now.mapping == built.mapping[d := id]
    ensures DefinedOk(p, d, now.pool, now.mapping, Between(outer, now))
  {
    FinishedDefined(p, built, d, parts, now.pool, id, Between(outer, built), Between(outer, now));
  }

  lemma {:induction false} OwnJudged(p: Program, d: DefnId, outer: State, built: State, now: State,
                                     parts: seq<TypeId>, id: TypeId)
    requires OwnParts(p, d, outer, built, parts)
    requires LogOk(p, built.pool, built.mapping, built.log) && LogOk(p, now.pool, now.mapping, now.log)
    requires PlaceholdersOk(built.pool, built.mapping, built.placeholders) && BuiltBelow(built.pool)
    requires FinishedPool(p, built, d, parts, now.pool, id) && now.mapping == built.mapping[d := id]
    ensures AllFull(p, now) <==> AllFull(p, built) && DefnFull(p, d, parts, built.pool)
  {
    AllDefined(p, built);
    AllDefined(p, now);
    PartsInPool(p, d, outer, built, parts);
    FinishJudged(p, built, now, d, parts, id);
  }

  /** Only what had been evaluated by the time counts for the invariant. */
  lemma {:induction false} OwnPartsEarly(p: Program, d: DefnId, outer: State, built: State, parts: seq<TypeId>)
    requires OwnParts(p, d, outer, built, parts)
    ensures PartsOk(p, p.defns[d], d, p.defns[d].uses, |p.defns[d].uses|, parts, built.pool, built.mapping,
      Period({}, built.mapping.Keys))
  {
    PartsStay(p, p.defns[d], d, p.defns[d].uses, |p.defns[d].uses|, parts, built.pool, built.pool, built.mapping,
      built.mapping, Between(outer, built), Period({}, built.mapping.Keys));
  }
}
