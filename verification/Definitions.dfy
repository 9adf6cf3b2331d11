/** Programs of type definitions: what names stand for, what a definition needs, and when type arguments get lost. */
module Definitions {
  import opened Wrappers
  import opened Scopes
  import TypePool

  type TypeId = TypePool.TypeId

  /** A name in a type expression, with the type arguments it is applied to, if any. */
  datatype Use = Use(name: Ident, args: seq<Use>)

  /** A type definition in the namespace scope `home`, with the names its right-hand side uses, in order. */
  datatype Defn = Defn(name: Ident, home: ScopeId, params: seq<Ident>, uses: seq<Use>)

  /** The scopes after all definitions have been registered, and the definitions. */
  datatype Program = Program(scopes: seq<Scope>, defns: seq<Defn>)

  /** Nothing but the definitions is pending, each in its home, and no type is bound yet. */
  ghost predicate ProgramOk(p: Program) {
    && ValidArena(p.scopes)
    && (forall s, name :: 0 <= s < |p.scopes| ==> TypeKey(name) !in p.scopes[s].bindings)
    && (forall s, name :: 0 <= s < |p.scopes| && name in p.scopes[s].pending ==>
      PendingIs(p, s, name, p.scopes[s].pending[name]))
    && forall d :: 0 <= d < |p.defns| ==> HomeIs(p, d)
  }

  ghost predicate PendingIs(p: Program, s: ScopeId, name: Ident, d: DefnId) {
    d < |p.defns| && p.defns[d].home == s && p.defns[d].name == name
  }

  ghost predicate HomeIs(p: Program, d: DefnId) {
    && d < |p.defns| && p.defns[d].home < |p.scopes| && p.defns[d].name in p.scopes[p.defns[d].home].pending
    && p.scopes[p.defns[d].home].pending[p.defns[d].name] == d
  }

  /** The name is neither a type parameter of the definition nor its own name. */
  predicate External(defn: Defn, u: Ident) {
    u !in defn.params && u != defn.name
  }

  // ---------- what a name can stand for ----------

  /** Definition t has the name, in scope s or one that encloses it. */
  ghost predicate Sees(p: Program, s: ScopeId, u: Ident, t: DefnId)
    requires ParentsBelow(p.scopes) && s < |p.scopes|
  {
    t < |p.defns| && p.defns[t].name == u && Encloses(p.scopes, s, p.defns[t].home)
  }

  ghost predicate Encloses(scopes: seq<Scope>, s: ScopeId, a: ScopeId)
    requires ParentsBelow(scopes) && s < |scopes|
  {
    a == s || HasAncestor(scopes, s, a)
  }

  /** The definitions that a name may stand for in a definition: those around it; for its own name those around its
      home. */
  ghost function Candidates(p: Program, defn: Defn, u: Ident): set<DefnId> {
    if ParentsBelow(p.scopes) && defn.home < |p.scopes| then
      set t: DefnId | t < |p.defns| && Sees(p, defn.home, u, t) && (u == defn.name ==> p.defns[t].home != defn.home)
    else {}
  }

  /** Definition n has the name of c, which is in a scope that encloses it. */
  ghost predicate Covers(p: Program, c: DefnId, n: DefnId) {
    && ParentsBelow(p.scopes) && c < |p.defns| && n < |p.defns| && p.defns[n].home < |p.scopes|
    && p.defns[c].name == p.defns[n].name && HasAncestor(p.scopes, p.defns[n].home, p.defns[c].home)
  }

  /** No definition has the name of one in an enclosing scope. */
  ghost predicate NoShadow(p: Program) {
    forall c, n :: !Covers(p, c, n)
  }

  /** Of two scopes that enclose a third one encloses the other. */
  lemma {:induction false} EnclosingNest(scopes: seq<Scope>, s: ScopeId, a: ScopeId, b: ScopeId)
    requires ParentsBelow(scopes) && s < |scopes| && Encloses(scopes, s, a) && Encloses(scopes, s, b)
    ensures a <= s && b <= s && (a < b ==> HasAncestor(scopes, b, a))
    decreases s
  {
    if s != a { AncestorIsBelow(scopes, s, a); }
    if s != b {
      AncestorIsBelow(scopes, s, b);
      if s != a { EnclosingNest(scopes, scopes[s].parent.value, a, b); }
    }
  }

  /** Candidates in one scope are the same, and of two others the nearer one is covered. */
  lemma {:induction false} CandidatesNest(p: Program, defn: Defn, u: Ident, a: DefnId, b: DefnId)
    requires ProgramOk(p) && a in Candidates(p, defn, u) && b in Candidates(p, defn, u)
    ensures p.defns[a].home == p.defns[b].home ==> a == b
    ensures p.defns[a].home < p.defns[b].home ==> Covers(p, a, b)
  {
    assert HomeIs(p, a) && HomeIs(p, b);
    EnclosingNest(p.scopes, defn.home, p.defns[a].home, p.defns[b].home);
  }

  /** The definition that a name is meant to stand for in another definition: the nearest around it. */
  ghost function Target(p: Program, defn: Defn, u: Ident): Option<DefnId> {
    if ParentsBelow(p.scopes) && defn.home < |p.scopes| then
      var r := FindPending(p.scopes, defn.home, u);
      if r.Some? then Some(r.value.0) else None
    else None
  }

  lemma {:induction false} PendingIsSeen(p: Program, s: ScopeId, u: Ident)
    requires ProgramOk(p) && s < |p.scopes|
    ensures var r := FindPending(p.scopes, s, u);
      if r.None? then forall t :: !Sees(p, s, u, t)
      else Sees(p, s, u, r.value.0) && HomeIs(p, r.value.0) && r.value.1 == p.defns[r.value.0].home
    decreases s
  {
    if u in p.scopes[s].pending {
      assert PendingIs(p, s, u, p.scopes[s].pending[u]);
    } else {
      SeenFromParent(p, s, u);
      if p.scopes[s].parent.Some? { PendingIsSeen(p, p.scopes[s].parent.value, u); }
    }
  }

  /** What is seen from a scope without a definition of the name is seen from its parent. */
  lemma {:induction false} SeenFromParent(p: Program, s: ScopeId, u: Ident)
    requires ProgramOk(p) && s < |p.scopes| && u !in p.scopes[s].pending
    ensures forall t :: Sees(p, s, u, t) <==> p.scopes[s].parent.Some? && Sees(p, p.scopes[s].parent.value, u, t)
  {
    forall t | Sees(p, s, u, t) ensures p.scopes[s].parent.Some? && Sees(p, p.scopes[s].parent.value, u, t) {
      assert HomeIs(p, t);
    }
  }

  /** With no shadowing it is the only candidate, and a definition's own name has none. */
  lemma {:induction false} OnlyTarget(p: Program, d: DefnId, u: Ident)
    requires ProgramOk(p) && NoShadow(p) && d < |p.defns|
    ensures var t, all := Target(p, p.defns[d], u), Candidates(p, p.defns[d], u);
      && (External(p.defns[d], u) && t.None? ==> all == {})
      && (External(p.defns[d], u) && t.Some? ==> HomeIs(p, t.value) && all == {t.value})
      && (u == p.defns[d].name ==> all == {})
  {
    var defn := p.defns[d];
    assert HomeIs(p, d);
    PendingIsSeen(p, defn.home, u);
    forall t | t in Candidates(p, defn, u) && u == defn.name ensures Covers(p, t, d) {
    }
    assert External(defn, u) ==> forall t :: t in Candidates(p, defn, u) <==> Sees(p, defn.home, u, t);
    forall a, b | a in Candidates(p, defn, u) && b in Candidates(p, defn, u) ensures a == b {
      CandidatesNest(p, defn, u, a, b);
      CandidatesNest(p, defn, u, b, a);
    }
  }

  // ---------- what a definition needs ----------

  /** The definitions that may have to be evaluated for a use. A definition's own name is never the reason for an
      evaluation, but its type arguments are looked at if it stands for a definition around it. */
  ghost function Needs(p: Program, defn: Defn, u: Use): set<DefnId>
    decreases u
  {
    var all := Candidates(p, defn, u.name);
    if External(defn, u.name) then all + NeedsUpTo(p, defn, u.args, |u.args|)
    else if u.name in defn.params || all == {} then {}
    else NeedsUpTo(p, defn, u.args, |u.args|)
  }

  ghost function NeedsUpTo(p: Program, defn: Defn, us: seq<Use>, n: nat): set<DefnId>
    requires n <= |us|
    decreases us, n
  {
    if n == 0 then {} else NeedsUpTo(p, defn, us, n - 1) + Needs(p, defn, us[n - 1])
  }

  ghost function NeedsOf(p: Program, d: DefnId): set<DefnId> {
    if d < |p.defns| then NeedsUpTo(p, p.defns[d], p.defns[d].uses, |p.defns[d].uses|) else {}
  }

  lemma {:induction false} NeedsWithin(p: Program, defn: Defn, us: seq<Use>, k: nat, n: nat)
    requires k <= n <= |us|
    ensures NeedsUpTo(p, defn, us, k) <= NeedsUpTo(p, defn, us, n)
    ensures k < n ==> Needs(p, defn, us[k]) <= NeedsUpTo(p, defn, us, n)
    decreases n
  {
    if k < n { NeedsWithin(p, defn, us, k, n - 1); }
  }

  ghost predicate DistinctParams(defn: Defn) {
    forall i, j :: 0 <= i < j < |defn.params| ==> defn.params[i] != defn.params[j]
  }

  /** Every name stands for something, and whatever may be applied to arguments is generic. */
  ghost predicate Fits(p: Program, defn: Defn, u: Use)
    decreases u
  {
    var all := Candidates(p, defn, u.name);
    if u.name in defn.params then u.args == []
    else if all == {} then u.name == defn.name
    else
      && (u.args != [] ==> forall t :: t in all ==> p.defns[t].params != [])
      && forall k :: 0 <= k < |u.args| ==> Fits(p, defn, u.args[k])
  }

  ghost predicate DefnFits(p: Program, defn: Defn) {
    DistinctParams(defn) && forall k :: 0 <= k < |defn.uses| ==> Fits(p, defn, defn.uses[k])
  }

  ghost predicate Resolvable(p: Program) {
    forall d :: 0 <= d < |p.defns| ==> DefnFits(p, p.defns[d])
  }

  ghost predicate Distinct(log: seq<DefnId>) {
    forall i, j :: 0 <= i < j < |log| ==> log[i] != log[j]
  }

  /** In this list each definition comes once, after all it needs. */
  ghost predicate DependencyOrder(p: Program, log: seq<DefnId>) {
    && Distinct(log)
    && (forall k :: 0 <= k < |log| ==> log[k] < |p.defns|)
    && forall j, t :: 0 <= j < |log| && t in NeedsOf(p, log[j]) ==> t in log[..j]
  }

  ghost predicate CompleteOrder(p: Program, log: seq<DefnId>) {
    DependencyOrder(p, log) && forall d: DefnId :: d < |p.defns| ==> d in log
  }

  // ---------- when type arguments get lost ----------

  ghost predicate ClosedUnder(p: Program, s: set<DefnId>) {
    forall d :: d in s ==> NeedsOf(p, d) <= s
  }

  /** The definition is among the given ones or needed by them, directly or not. */
  ghost predicate Reached(p: Program, seen: set<DefnId>, t: DefnId) {
    forall s: set<DefnId> :: seen <= s && ClosedUnder(p, s) ==> t in s
  }

  /** A use that applies another definition to arguments comes after one that needs that definition. */
  ghost predicate SafeUse(p: Program, defn: Defn, u: Use, seen: set<DefnId>)
    decreases u
  {
    var all := Candidates(p, defn, u.name);
    External(defn, u.name) && all != {} ==>
      && (u.args != [] ==> forall t :: t in all ==> Reached(p, seen, t))
      && SafeUses(p, defn, u.args, |u.args|, seen + all)
  }

  ghost predicate SafeUses(p: Program, defn: Defn, us: seq<Use>, n: nat, seen: set<DefnId>)
    decreases us
  {
    n <= |us| && forall k :: 0 <= k < n ==> SafeUse(p, defn, us[k], seen + NeedsUpTo(p, defn, us, k))
  }

  ghost predicate Safe(p: Program, d: DefnId) {
    d < |p.defns| && SafeUses(p, p.defns[d], p.defns[d].uses, |p.defns[d].uses|, {})
  }

  ghost predicate SafeProgram(p: Program) {
    forall d: DefnId :: d < |p.defns| ==> Safe(p, d)
  }

  /** With everything needed already seen a use is safe. */
  lemma {:induction false} NeededIsSafe(p: Program, defn: Defn, u: Use, seen: set<DefnId>)
    requires Needs(p, defn, u) <= seen
    ensures SafeUse(p, defn, u, seen)
    decreases u
  {
    var all := Candidates(p, defn, u.name);
    if External(defn, u.name) { NeededAreSafe(p, defn, u.args, |u.args|, seen + all); }
  }

  lemma {:induction false} NeededAreSafe(p: Program, defn: Defn, us: seq<Use>, n: nat, seen: set<DefnId>)
    requires n <= |us| && NeedsUpTo(p, defn, us, n) <= seen
    ensures SafeUses(p, defn, us, n, seen)
    decreases us
  {
    forall k | 0 <= k < n ensures SafeUse(p, defn, us[k], seen + NeedsUpTo(p, defn, us, k)) {
      NeedsWithin(p, defn, us, k, n);
      NeededIsSafe(p, defn, us[k], seen + NeedsUpTo(p, defn, us, k));
    }
  }

  // ---------- orders and ranks ----------

  /** Ranks that go down along needs. */
  ghost predicate RanksDown(p: Program, rank: seq<nat>) {
    |rank| == |p.defns| && forall d: DefnId :: d < |rank| ==> RankAbove(p, rank, d)
  }

  ghost predicate RankAbove(p: Program, rank: seq<nat>, d: DefnId)
    requires d < |rank|
  {
    forall t: DefnId :: t in NeedsOf(p, d) ==> t < |rank| && rank[t] < rank[d]
  }

  ghost predicate RanksWithin(p: Program, rank: seq<nat>, depth: nat) {
    RanksDown(p, rank) && forall d :: 0 <= d < |rank| ==> rank[d] < depth
  }

  /** What makes the evaluation of d succeed within the given depth. */
  ghost predicate Succeeds(p: Program, rank: seq<nat>, d: DefnId, depth: nat) {
    ProgramOk(p) && Resolvable(p) && RanksDown(p, rank) && d < |p.defns| && rank[d] < depth
  }

  ghost function LowerThan(rank: seq<nat>, r: nat): set<DefnId> {
    set d: DefnId | d < |rank| && rank[d] < r
  }

  lemma {:induction false} LowerClosed(p: Program, rank: seq<nat>, d: DefnId)
    requires RanksDown(p, rank) && d < |rank|
    ensures ClosedUnder(p, LowerThan(rank, rank[d])) && NeedsOf(p, d) <= LowerThan(rank, rank[d])
  {
    var lower := LowerThan(rank, rank[d]);
    forall e: DefnId, t: DefnId | (e in lower || e == d) && t in NeedsOf(p, e) ensures t in lower {
      assert RankAbove(p, rank, e);
    }
  }

  lemma {:induction false} DistinctAreFew(log: seq<DefnId>, n: nat)
    requires Distinct(log) && forall k :: 0 <= k < |log| ==> log[k] < n
    ensures |log| <= n
    decreases n
  {
    if n > 0 && n - 1 in log {
      var k :| 0 <= k < |log| && log[k] == n - 1;
      var rest := log[..k] + log[k + 1..];
      assert forall i :: 0 <= i < |rest| ==> rest[i] == log[if i < k then i else i + 1];
      DistinctAreFew(rest, n - 1);
    } else if n > 0 {
      DistinctAreFew(log, n - 1);
    } else if log != [] {
      HeadBelow(log, n);
    }
  }

  lemma HeadBelow(log: seq<DefnId>, n: nat)
    requires log != [] && forall k :: 0 <= k < |log| ==> log[k] < n
    ensures log[0] < n
  {
  }

  /** Positions in a dependency order are ranks. */
  lemma {:induction false} OrderRanks(p: Program, log: seq<DefnId>) returns (rank: seq<nat>)
    requires CompleteOrder(p, log)
    ensures RanksWithin(p, rank, |p.defns|)
  {
    DistinctAreFew(log, |p.defns|);
    rank := [];
    for d := 0 to |p.defns|
      invariant |rank| == d && forall e :: 0 <= e < d ==> rank[e] < |log| && log[rank[e]] == e
    {
      assert d in log;
      var k :| 0 <= k < |log| && log[k] == d;
      rank := rank + [k];
    }
    forall d: DefnId | d < |rank| ensures RankAbove(p, rank, d) {
      forall t: DefnId | t in NeedsOf(p, d) ensures t < |rank| && rank[t] < rank[d] {
        assert t in log[..rank[d]];
        var k :| 0 <= k < rank[d] && log[k] == t;
      }
    }
  }
}
