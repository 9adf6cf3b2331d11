/** The state during the evaluation of type definitions, its invariant, and the steps that keep it. */
module DefinitionState {
  import opened Wrappers
  import opened Scopes
  import opened Definitions

  datatype Node =
    | Variable(defn: DefnId, name: Ident)
    | Built(defn: DefnId, parts: seq<TypeId>)
    | Generic(defn: DefnId, inner: TypeId)
    | Applied(generic: TypeId, args: seq<TypeId>)
    | RecursiveReference(defn: DefnId, root: Option<TypeId>)

  /** The pool, the definitions' types, their references to themselves, the scopes, and the definitions evaluated so
      far, in the order in which they got their types. */
  datatype State = State(pool: seq<Node>, mapping: map<DefnId, TypeId>, placeholders: map<DefnId, TypeId>,
                         scopes: seq<Scope>, log: seq<DefnId>)

  /** Definitions evaluated before a point of the evaluation, and by a later one. */
  datatype Period = Period(start: set<DefnId>, end: set<DefnId>)

  ghost function Between(was: State, now: State): Period {
    Period(was.mapping.Keys, now.mapping.Keys)
  }

  ghost predicate Wider(a: Period, b: Period) {
    b.start <= a.start && a.end <= b.end
  }

  // ---------- the invariant ----------

  /** A definition's own scope: its name is pending as long as it has no type, and bound to its type from then on. */
  ghost predicate TableOk(pending: map<Ident, DefnId>, now: Scope, mapping: map<DefnId, TypeId>) {
    && (forall name :: name in now.pending <==> name in pending && pending[name] !in mapping)
    && (forall name :: name in now.pending ==> now.pending[name] == pending[name])
    && (forall name :: TypeKey(name) in now.bindings <==> name in pending && pending[name] in mapping)
    && (forall name :: TypeKey(name) in now.bindings ==> now.bindings[TypeKey(name)] == mapping[pending[name]])
  }

  ghost predicate ArenaOk(base: seq<Scope>, scopes: seq<Scope>, mapping: map<DefnId, TypeId>) {
    && ValidArena(scopes) && SameTree(base, scopes)
    && (forall s :: 0 <= s < |base| ==> TableOk(base[s].pending, scopes[s], mapping))
    && forall s :: |base| <= s < |scopes| ==> scopes[s].pending == map[]
  }

  /** The id is the type of a candidate for the name that has been evaluated by the end of the period, with none nearer
      evaluated at its start. */
  ghost predicate TargetOk(p: Program, defn: Defn, u: Ident, id: TypeId, mapping: map<DefnId, TypeId>, when: Period) {
    exists t :: ChosenOk(p, defn, u, t, when) && t in mapping && id == mapping[t]
  }

  ghost predicate ChosenOk(p: Program, defn: Defn, u: Ident, t: DefnId, when: Period) {
    && t in Candidates(p, defn, u) && t in when.end
    && forall c :: c in Candidates(p, defn, u) && c in when.start ==> p.defns[c].home <= p.defns[t].home
  }

  /** No candidate for a definition's own name had been evaluated. */
  ghost predicate SelfOk(p: Program, defn: Defn, u: Ident, when: Period) {
    u == defn.name && Candidates(p, defn, u) !! when.start
  }

  /** The type of a use: the definition's own variable, the reference to itself, or the type of what it names, which is
      applied to the arguments, or not. The definition has been under evaluation during the period. */
  ghost predicate PartOk(p: Program, defn: Defn, d: DefnId, u: Use, part: TypeId, pool: seq<Node>,
                         mapping: map<DefnId, TypeId>, when: Period)
    decreases u
  {
    && part < |pool|
    && if u.name in defn.params then u.args == [] && pool[part] == Variable(d, u.name)
       else
         || (SelfOk(p, defn, u.name, when) && pool[part].RecursiveReference? && pool[part].defn == d)
         || TargetOk(p, defn, u.name, part, mapping, when) || AppliedOk(p, defn, d, u, pool[part], pool, mapping, when)
  }

  ghost predicate AppliedOk(p: Program, defn: Defn, d: DefnId, u: Use, n: Node, pool: seq<Node>,
                            mapping: map<DefnId, TypeId>, when: Period)
    decreases u, 0
  {
    && u.args != [] && n.Applied? && n.generic < |pool| && pool[n.generic].Generic?
    && TargetOk(p, defn, u.name, n.generic, mapping, when)
    && PartsOk(p, defn, d, u.args, |u.args|, n.args, pool, mapping, when)
  }

  ghost predicate PartsOk(p: Program, defn: Defn, d: DefnId, us: seq<Use>, n: nat, parts: seq<TypeId>, pool: seq<Node>,
                          mapping: map<DefnId, TypeId>, when: Period)
    decreases us
  {
    n == |parts| <= |us| && forall k :: 0 <= k < n ==> PartOk(p, defn, d, us[k], parts[k], pool, mapping, when)
  }

  /** What was built for the definition, inside the wrapper if it has parameters. */
  function BodyOf(pool: seq<Node>, id: TypeId): TypeId {
    if id < |pool| && pool[id].Generic? then pool[id].inner else id
  }

  ghost predicate RootOk(p: Program, d: DefnId, pool: seq<Node>, id: TypeId) {
    && d < |p.defns| && id < |pool| && (pool[id].Generic? <==> p.defns[d].params != [])
    && (pool[id].Generic? ==> pool[id].defn == d)
    && BodyOf(pool, id) < |pool| && pool[BodyOf(pool, id)].Built? && pool[BodyOf(pool, id)].defn == d
  }

  ghost predicate RootsOk(p: Program, pool: seq<Node>, mapping: map<DefnId, TypeId>) {
    forall d: DefnId :: d in mapping ==> RootOk(p, d, pool, mapping[d])
  }

  /** The definition's type, made from types of the given definitions. */
  ghost predicate DefinedOk(p: Program, d: DefnId, pool: seq<Node>, mapping: map<DefnId, TypeId>, when: Period) {
    && d in mapping && RootOk(p, d, pool, mapping[d]) && DistinctParams(p.defns[d])
    && PartsOk(p, p.defns[d], d, p.defns[d].uses, |p.defns[d].uses|, pool[BodyOf(pool, mapping[d])].parts, pool,
      mapping, when)
  }

  ghost function Members(log: seq<DefnId>): set<DefnId> {
    set d: DefnId | d in log
  }

  ghost function Early(log: seq<DefnId>, j: nat): Period
    requires j <= |log|
  {
    Period({}, Members(log[..j]))
  }

  /** Each definition evaluated so far was so once, and made from types of earlier ones. */
  ghost predicate LogOk(p: Program, pool: seq<Node>, mapping: map<DefnId, TypeId>, log: seq<DefnId>) {
    && Distinct(log) && mapping.Keys == Members(log)
    && forall j :: 0 <= j < |log| ==> DefinedOk(p, log[j], pool, mapping, Early(log, j))
  }

  /** Types are made of earlier types. */
  ghost predicate BuiltBelow(pool: seq<Node>) {
    forall i :: 0 <= i < |pool| ==> NodeBelow(pool[i], i)
  }

  ghost predicate NodeBelow(n: Node, i: nat) {
    match n
    case Built(_, parts) => forall k :: 0 <= k < |parts| ==> parts[k] < i
    case Generic(_, inner) => inner < i
    case Applied(generic, args) => generic < i && forall k :: 0 <= k < |args| ==> args[k] < i
    case _ => true
  }

  ghost predicate PlaceholdersOk(pool: seq<Node>, mapping: map<DefnId, TypeId>, placeholders: map<DefnId, TypeId>) {
    && (forall d :: d in placeholders ==> PlaceholderOk(pool, mapping, d, placeholders[d]))
    && forall i :: 0 <= i < |pool| && pool[i].RecursiveReference? ==>
         pool[i].defn in placeholders && placeholders[pool[i].defn] == i
  }

  /** A reference to a definition still under evaluation is resolved when the definition gets its type. */
  ghost predicate PlaceholderOk(pool: seq<Node>, mapping: map<DefnId, TypeId>, d: DefnId, id: TypeId) {
    && id < |pool| && pool[id].RecursiveReference? && pool[id].defn == d
    && (d in mapping ==> pool[id].root == Some(BodyOf(pool, mapping[d])))
  }

  ghost predicate StateOk(p: Program, s: State) {
    && ProgramOk(p) && ArenaOk(p.scopes, s.scopes, s.mapping) && BuiltBelow(s.pool)
    && LogOk(p, s.pool, s.mapping, s.log) && PlaceholdersOk(s.pool, s.mapping, s.placeholders)
    && forall d :: d in s.placeholders ==> d < |p.defns|
  }

  /** Of the definitions with the name that a scope sees, none with a type is nearer than t. */
  ghost predicate NoneNearer(p: Program, mapping: map<DefnId, TypeId>, s: ScopeId, u: Ident, t: DefnId)
    requires ParentsBelow(p.scopes) && s < |p.scopes| && t < |p.defns|
  {
    forall c: DefnId :: Sees(p, s, u, c) && c in mapping ==> p.defns[c].home <= p.defns[t].home
  }

  ghost predicate FoundAs(p: Program, mapping: map<DefnId, TypeId>, s: ScopeId, u: Ident, t: DefnId, id: TypeId)
    requires ParentsBelow(p.scopes) && s < |p.scopes|
  {
    Sees(p, s, u, t) && t in mapping && id == mapping[t] && NoneNearer(p, mapping, s, u, t)
  }

  /** A lookup finds the type of the nearest definition that has one, whatever definitions without types are nearer; if
      none has a type, the nearest definition is pending. */
  lemma {:induction false} LookupMeans(p: Program, scopes: seq<Scope>, mapping: map<DefnId, TypeId>, s: ScopeId,
                                       u: Ident)
    requires ProgramOk(p) && ArenaOk(p.scopes, scopes, mapping) && s < |p.scopes|
    ensures var found, pending := Find(scopes, s, TypeKey(u)), FindPending(scopes, s, u);
      && (found.Some? ==> exists t :: FoundAs(p, mapping, s, u, t, found.value))
      && (found.None? ==> forall t: DefnId :: Sees(p, s, u, t) ==> t !in mapping)
      && (found.None? ==> pending == FindPending(p.scopes, s, u))
    decreases s
  {
    assert TableOk(p.scopes[s].pending, scopes[s], mapping);
    if u in p.scopes[s].pending && p.scopes[s].pending[u] in mapping {
      FoundHere(p, mapping, s, u);
    } else {
      MappedFromParent(p, mapping, s, u);
      if p.scopes[s].parent.Some? {
        var parent := p.scopes[s].parent.value;
        LookupMeans(p, scopes, mapping, parent, u);
        var found := Find(scopes, parent, TypeKey(u));
        if found.Some? {
          var t :| FoundAs(p, mapping, parent, u, t, found.value);
          assert FoundAs(p, mapping, s, u, t, found.value);
        }
      }
    }
  }

  lemma {:induction false} FoundHere(p: Program, mapping: map<DefnId, TypeId>, s: ScopeId, u: Ident)
    requires ProgramOk(p) && s < |p.scopes| && u in p.scopes[s].pending && p.scopes[s].pending[u] in mapping
    ensures FoundAs(p, mapping, s, u, p.scopes[s].pending[u], mapping[p.scopes[s].pending[u]])
  {
    var t := p.scopes[s].pending[u];
    assert PendingIs(p, s, u, t);
    forall c: DefnId | Sees(p, s, u, c) ensures p.defns[c].home <= s { EnclosingNest(p.scopes, s, s, p.defns[c].home); }
  }

  /** Past a scope without a type of the name the definitions with types are those seen from the parent. */
  lemma {:induction false} MappedFromParent(p: Program, mapping: map<DefnId, TypeId>, s: ScopeId, u: Ident)
    requires ProgramOk(p) && s < |p.scopes| && (u in p.scopes[s].pending ==> p.scopes[s].pending[u] !in mapping)
    ensures forall t: DefnId :: t in mapping ==>
      (Sees(p, s, u, t) <==> p.scopes[s].parent.Some? && Sees(p, p.scopes[s].parent.value, u, t))
  {
    forall t: DefnId | t in mapping && Sees(p, s, u, t) ensures p.defns[t].home != s { assert HomeIs(p, t); }
  }

  // ---------- what stays as evaluation goes on ----------

  /** The same types, but references to definitions may have been resolved. */
  ghost predicate SameNodes(a: seq<Node>, b: seq<Node>) {
    && |a| <= |b|
    && forall i :: 0 <= i < |a| ==>
         b[i] == a[i] || (a[i].RecursiveReference? && b[i].RecursiveReference? && b[i].defn == a[i].defn)
  }

  ghost predicate SameMap<K, V>(a: map<K, V>, b: map<K, V>) {
    forall k :: k in a ==> k in b && b[k] == a[k]
  }

  /** Scopes made during evaluation keep what they bind. */
  ghost predicate LaterKept(base: seq<Scope>, a: seq<Scope>, b: seq<Scope>) {
    SameTree(a, b) && forall s :: |base| <= s < |a| ==> b[s].bindings == a[s].bindings
  }

  ghost predicate Grew(p: Program, a: State, b: State) {
    && SameNodes(a.pool, b.pool) && SameMap(a.mapping, b.mapping) && SameMap(a.placeholders, b.placeholders)
    && LaterKept(p.scopes, a.scopes, b.scopes)
  }

  lemma {:induction false} GrewTrans(p: Program, a: State, b: State, c: State)
    requires Grew(p, a, b) && Grew(p, b, c)
    ensures Grew(p, a, c)
  {
  }

  lemma {:induction false} PartStays(p: Program, defn: Defn, d: DefnId, u: Use, part: TypeId, pool: seq<Node>,
                                     bigger: seq<Node>, mapping: map<DefnId, TypeId>, more: map<DefnId, TypeId>,
                                     when: Period, later: Period)
    requires SameNodes(pool, bigger) && SameMap(mapping, more) && Wider(when, later)
    requires PartOk(p, defn, d, u, part, pool, mapping, when)
    ensures PartOk(p, defn, d, u, part, bigger, more, later)
    decreases u
  {
    if u.name !in defn.params && AppliedOk(p, defn, d, u, pool[part], pool, mapping, when) {
      PartsStay(p, defn, d, u.args, |u.args|, pool[part].args, pool, bigger, mapping, more, when, later);
    }
  }

  lemma {:induction false} PartsStay(p: Program, defn: Defn, d: DefnId, us: seq<Use>, n: nat, parts: seq<TypeId>,
                                     pool: seq<Node>, bigger: seq<Node>, mapping: map<DefnId, TypeId>,
                                     more: map<DefnId, TypeId>, when: Period, later: Period)
    requires SameNodes(pool, bigger) && SameMap(mapping, more) && Wider(when, later)
    requires PartsOk(p, defn, d, us, n, parts, pool, mapping, when)
    ensures PartsOk(p, defn, d, us, n, parts, bigger, more, later)
    decreases us
  {
    forall k | 0 <= k < n ensures PartOk(p, defn, d, us[k], parts[k], bigger, more, later) {
      PartStays(p, defn, d, us[k], parts[k], pool, bigger, mapping, more, when, later);
    }
  }

  lemma {:induction false} DefinedStays(p: Program, d: DefnId, pool: seq<Node>, bigger: seq<Node>,
                                        mapping: map<DefnId, TypeId>, more: map<DefnId, TypeId>, when: Period)
    requires SameNodes(pool, bigger) && SameMap(mapping, more) && DefinedOk(p, d, pool, mapping, when)
    ensures DefinedOk(p, d, bigger, more, when)
  {
    PartsStay(p, p.defns[d], d, p.defns[d].uses, |p.defns[d].uses|, pool[BodyOf(pool, mapping[d])].parts, pool, bigger,
      mapping, more, when, when);
  }

  lemma {:induction false} LogStays(p: Program, pool: seq<Node>, bigger: seq<Node>, mapping: map<DefnId, TypeId>,
                                    log: seq<DefnId>)
    requires LogOk(p, pool, mapping, log) && SameNodes(pool, bigger)
    ensures LogOk(p, bigger, mapping, log)
  {
    forall j | 0 <= j < |log| ensures DefinedOk(p, log[j], bigger, mapping, Early(log, j)) {
      DefinedStays(p, log[j], pool, bigger, mapping, mapping, Early(log, j));
    }
  }

  /** Every definition with a type is made from types of definitions. */
  lemma {:induction false} Defined(p: Program, s: State, d: DefnId)
    requires LogOk(p, s.pool, s.mapping, s.log) && d in s.mapping
    ensures DefinedOk(p, d, s.pool, s.mapping, Period({}, s.mapping.Keys))
  {
    var j :| 0 <= j < |s.log| && s.log[j] == d;
    PartsStay(p, p.defns[d], d, p.defns[d].uses, |p.defns[d].uses|, s.pool[BodyOf(s.pool, s.mapping[d])].parts, s.pool,
      s.pool, s.mapping, s.mapping, Early(s.log, j), Period({}, s.mapping.Keys));
  }

  lemma {:induction false} AllDefined(p: Program, s: State)
    requires LogOk(p, s.pool, s.mapping, s.log)
    ensures RootsOk(p, s.pool, s.mapping)
  {
    forall d: DefnId | d in s.mapping ensures RootOk(p, d, s.pool, s.mapping[d]) { Defined(p, s, d); }
  }

  lemma {:induction false} PlaceholderStays(pool: seq<Node>, bigger: seq<Node>, mapping: map<DefnId, TypeId>, d: DefnId,
                                            id: TypeId)
    requires pool <= bigger && PlaceholderOk(pool, mapping, d, id) && (d in mapping ==> mapping[d] < |pool|)
    ensures PlaceholderOk(bigger, mapping, d, id)
  {
    assert bigger[id] == pool[id];
    if d in mapping { assert bigger[mapping[d]] == pool[mapping[d]]; }
  }

  // ---------- small steps ----------

  /** A new scope below a home changes nothing for the tables. */
  lemma {:induction false} ChildKeepsState(p: Program, s: State, parent: ScopeId)
    requires StateOk(p, s) && parent < |s.scopes|
    ensures StateOk(p, s.(scopes := WithChild(s.scopes, parent)))
      && LaterKept(p.scopes, s.scopes, WithChild(s.scopes, parent))
  {
    WithChildValid(s.scopes, parent);
    var more := WithChild(s.scopes, parent);
    forall i | 0 <= i < |p.scopes| ensures TableOk(p.scopes[i].pending, more[i], s.mapping) {
      assert TableOk(p.scopes[i].pending, s.scopes[i], s.mapping);
    }
  }

  lemma {:induction false} PushKeepsBelow(pool: seq<Node>, n: Node)
    requires BuiltBelow(pool) && NodeBelow(n, |pool|)
    ensures BuiltBelow(pool + [n])
  {
    forall i | 0 <= i < |pool| + 1 ensures NodeBelow((pool + [n])[i], i) {
      if i < |pool| { assert NodeBelow(pool[i], i); }
    }
  }

  /** A new type that is not a reference to a definition. */
  lemma {:induction false} PushKeepsState(p: Program, s: State, n: Node)
    requires StateOk(p, s) && !n.RecursiveReference? && NodeBelow(n, |s.pool|)
    ensures StateOk(p, s.(pool := s.pool + [n])) && SameNodes(s.pool, s.pool + [n])
  {
    PushKeepsBelow(s.pool, n);
    LogStays(p, s.pool, s.pool + [n], s.mapping, s.log);
    AllDefined(p, s);
    forall d | d in s.placeholders ensures PlaceholderOk(s.pool + [n], s.mapping, d, s.placeholders[d]) {
      PlaceholderStays(s.pool, s.pool + [n], s.mapping, d, s.placeholders[d]);
    }
  }

  /** A name bound in a scope made during evaluation. */
  lemma {:induction false} BindingKeepsState(p: Program, s: State, c: ScopeId, name: Ident, id: TypeId)
    requires StateOk(p, s) && |p.scopes| <= c < |s.scopes|
    ensures StateOk(p, s.(scopes := WithBinding(s.scopes, c, TypeKey(name), id)))
  {
    var more := WithBinding(s.scopes, c, TypeKey(name), id);
    SameChildrenValid(s.scopes, more);
    forall i | 0 <= i < |p.scopes| ensures TableOk(p.scopes[i].pending, more[i], s.mapping) {
      assert TableOk(p.scopes[i].pending, s.scopes[i], s.mapping);
    }
  }

  /** A first reference of a definition to itself. */
  lemma {:induction false} ReferenceKeepsState(p: Program, s: State, d: DefnId)
    requires StateOk(p, s) && d !in s.mapping && d !in s.placeholders && d < |p.defns|
    ensures var n := RecursiveReference(d, None);
      StateOk(p, s.(pool := s.pool + [n], placeholders := s.placeholders[d := |s.pool|]))
  {
    var n := RecursiveReference(d, None);
    PushKeepsBelow(s.pool, n);
    LogStays(p, s.pool, s.pool + [n], s.mapping, s.log);
    AllDefined(p, s);
    var more := s.placeholders[d := |s.pool|];
    forall e | e in more ensures PlaceholderOk(s.pool + [n], s.mapping, e, more[e]) {
      if e != d { PlaceholderStays(s.pool, s.pool + [n], s.mapping, e, s.placeholders[e]); }
    }
  }

  // ---------- a definition gets its type ----------

  /** The types pushed for a definition with the given parts: what is built, and the generic wrapper if any. */
  function Finished(pool: seq<Node>, defn: Defn, d: DefnId, parts: seq<TypeId>): seq<Node> {
    pool + [Built(d, parts)] + if defn.params != [] then [Generic(d, |pool|)] else []
  }

  /** Resolves the references of the definition to itself, all of them one entry. */
  function Resolved(pool: seq<Node>, placeholders: map<DefnId, TypeId>, d: DefnId, root: TypeId): seq<Node>
    requires d in placeholders ==> placeholders[d] < |pool|
  {
    if d in placeholders then pool[placeholders[d] := RecursiveReference(d, Some(root))] else pool
  }

  /** The pool after definition d has been built. */
  ghost predicate FinishedPool(p: Program, s: State, d: DefnId, parts: seq<TypeId>, done: seq<Node>, id: TypeId) {
    && d < |p.defns| && d !in s.mapping && (d in s.placeholders ==> s.placeholders[d] < |s.pool|)
    && done == Resolved(Finished(s.pool, p.defns[d], d, parts), s.placeholders, d, |s.pool|) && id == |done| - 1
  }

  lemma {:induction false} FinishedShape(p: Program, s: State, d: DefnId, parts: seq<TypeId>, done: seq<Node>,
                                         id: TypeId)
    requires FinishedPool(p, s, d, parts, done, id) && PlaceholdersOk(s.pool, s.mapping, s.placeholders)
    ensures SameNodes(s.pool, done) && done[|s.pool|] == Built(d, parts) && |s.pool| <= id
    ensures if p.defns[d].params != [] then done[id] == Generic(d, |s.pool|) else id == |s.pool|
    ensures forall i :: 0 <= i < |s.pool| && (d in s.placeholders ==> i != s.placeholders[d]) ==> done[i] == s.pool[i]
    ensures |done| == |s.pool| + if p.defns[d].params != [] then 2 else 1
  {
    assert d in s.placeholders ==> PlaceholderOk(s.pool, s.mapping, d, s.placeholders[d]);
  }

  lemma {:induction false} FinishedBelow(p: Program, s: State, d: DefnId, parts: seq<TypeId>, done: seq<Node>,
                                         id: TypeId)
    requires FinishedPool(p, s, d, parts, done, id) && BuiltBelow(s.pool)
      && (forall k :: 0 <= k < |parts| ==> parts[k] < |s.pool|)
    ensures BuiltBelow(done)
  {
    var all := Finished(s.pool, p.defns[d], d, parts);
    forall i | 0 <= i < |done| ensures NodeBelow(done[i], i) {
      if i < |s.pool| { assert all[i] == s.pool[i] && NodeBelow(s.pool[i], i); }
      else { assert i == |s.pool| || all[i] == Generic(d, |s.pool|); }
    }
  }

  /** The definition is then made from its parts. */
  lemma {:induction false} FinishedDefined(p: Program, s: State, d: DefnId, parts: seq<TypeId>, done: seq<Node>,
                                           id: TypeId, when: Period, later: Period)
    requires FinishedPool(p, s, d, parts, done, id) && PlaceholdersOk(s.pool, s.mapping, s.placeholders)
    requires DistinctParams(p.defns[d]) && Wider(when, later)
    requires PartsOk(p, p.defns[d], d, p.defns[d].uses, |p.defns[d].uses|, parts, s.pool, s.mapping, when)
    ensures DefinedOk(p, d, done, s.mapping[d := id], later)
  {
    FinishedShape(p, s, d, parts, done, id);
    PartsStay(p, p.defns[d], d, p.defns[d].uses, |p.defns[d].uses|, parts, s.pool, done, s.mapping, s.mapping[d := id],
      when, later);
  }

  lemma {:induction false} FinishKeepsLog(p: Program, s: State, d: DefnId, parts: seq<TypeId>, done: seq<Node>,
                                          id: TypeId)
    requires FinishedPool(p, s, d, parts, done, id) && PlaceholdersOk(s.pool, s.mapping, s.placeholders)
    requires LogOk(p, s.pool, s.mapping, s.log) && DistinctParams(p.defns[d])
    requires PartsOk(p, p.defns[d], d, p.defns[d].uses, |p.defns[d].uses|, parts, s.pool, s.mapping,
      Period({}, s.mapping.Keys))
    ensures LogOk(p, done, s.mapping[d := id], s.log + [d])
  {
    var more, log := s.mapping[d := id], s.log + [d];
    FinishedShape(p, s, d, parts, done, id);
    assert d !in s.log by { assert d in s.log ==> d in Members(s.log); }
    forall j | 0 <= j < |log| ensures DefinedOk(p, log[j], done, more, Early(log, j)) {
      if j < |s.log| {
        assert log[..j] == s.log[..j];
        DefinedStays(p, s.log[j], s.pool, done, s.mapping, more, Early(s.log, j));
      } else {
        assert log[..j] == s.log;
        FinishedDefined(p, s, d, parts, done, id, Period({}, s.mapping.Keys), Early(log, j));
      }
    }
  }

  lemma {:induction false} FinishKeepsPlaceholders(p: Program, s: State, d: DefnId, parts: seq<TypeId>, done: seq<Node>,
                                                   id: TypeId)
    requires FinishedPool(p, s, d, parts, done, id) && PlaceholdersOk(s.pool, s.mapping, s.placeholders)
    requires LogOk(p, s.pool, s.mapping, s.log)
    ensures PlaceholdersOk(done, s.mapping[d := id], s.placeholders)
  {
    FinishedShape(p, s, d, parts, done, id);
    AllDefined(p, s);
    forall e | e in s.placeholders ensures PlaceholderOk(done, s.mapping[d := id], e, s.placeholders[e]) {
      assert PlaceholderOk(s.pool, s.mapping, e, s.placeholders[e]);
    }
  }

  /** Its name is no longer pending at home but bound to the type. */
  lemma {:induction false} FinishKeepsArena(p: Program, scopes: seq<Scope>, mapping: map<DefnId, TypeId>, d: DefnId,
                                            id: TypeId, bound: seq<Scope>, done: seq<Scope>)
    requires ProgramOk(p) && ArenaOk(p.scopes, scopes, mapping) && d !in mapping && HomeIs(p, d)
    requires p.defns[d].home < |scopes| && bound == WithBinding(scopes, p.defns[d].home, TypeKey(p.defns[d].name), id)
    requires |bound| == |scopes| && done == WithoutPending(bound, p.defns[d].home, p.defns[d].name)
    ensures ArenaOk(p.scopes, done, mapping[d := id]) && LaterKept(p.scopes, scopes, done)
  {
    SameChildrenValid(scopes, done);
    var more := mapping[d := id];
    forall s | 0 <= s < |p.scopes| ensures TableOk(p.scopes[s].pending, done[s], more) {
      assert TableOk(p.scopes[s].pending, scopes[s], mapping);
      forall name | name in p.scopes[s].pending
        ensures p.scopes[s].pending[name] == d <==> s == p.defns[d].home && name == p.defns[d].name
      {
        assert PendingIs(p, s, name, p.scopes[s].pending[name]);
      }
    }
  }

  /** All of it together. */
  lemma {:induction false} FinishKeepsState(p: Program, s: State, d: DefnId, parts: seq<TypeId>, done: seq<Node>,
                                            id: TypeId, scopes: seq<Scope>)
    requires StateOk(p, s) && HomeIs(p, d) && DistinctParams(p.defns[d]) && p.defns[d].home < |s.scopes|
    requires FinishedPool(p, s, d, parts, done, id)
    requires PartsOk(p, p.defns[d], d, p.defns[d].uses, |p.defns[d].uses|, parts, s.pool, s.mapping,
      Period({}, s.mapping.Keys))
    requires var bound := WithBinding(s.scopes, p.defns[d].home, TypeKey(p.defns[d].name), id);
      |bound| == |s.scopes| && scopes == WithoutPending(bound, p.defns[d].home, p.defns[d].name)
    ensures var now := State(done, s.mapping[d := id], s.placeholders, scopes, s.log + [d]);
      StateOk(p, now) && Grew(p, s, now)
  {
    FinishedShape(p, s, d, parts, done, id);
    FinishedBelow(p, s, d, parts, done, id);
    FinishKeepsLog(p, s, d, parts, done, id);
    FinishKeepsPlaceholders(p, s, d, parts, done, id);
    FinishKeepsArena(p, s.scopes, s.mapping, d, id,
      WithBinding(s.scopes, p.defns[d].home, TypeKey(p.defns[d].name), id), scopes);
  }

  // ---------- no arguments lost ----------

  /** Wherever the use applies another definition to arguments, the type is so applied. */
  ghost predicate PartFull(defn: Defn, u: Use, part: TypeId, pool: seq<Node>)
    decreases u
  {
    && part < |pool|
    && (External(defn, u.name) && u.args != [] ==>
      pool[part].Applied? && PartsFull(defn, u.args, |u.args|, pool[part].args, pool))
  }

  ghost predicate PartsFull(defn: Defn, us: seq<Use>, n: nat, parts: seq<TypeId>, pool: seq<Node>)
    decreases us
  {
    n == |parts| <= |us| && forall k :: 0 <= k < n ==> PartFull(defn, us[k], parts[k], pool)
  }

  ghost predicate DefinedFull(p: Program, d: DefnId, pool: seq<Node>, id: TypeId) {
    && RootOk(p, d, pool, id)
    && PartsFull(p.defns[d], p.defns[d].uses, |p.defns[d].uses|, pool[BodyOf(pool, id)].parts, pool)
  }

  /** No definition's type has lost arguments. */
  ghost predicate AllFull(p: Program, s: State) {
    forall d: DefnId :: d in s.mapping ==> DefinedFull(p, d, s.pool, s.mapping[d])
  }

  lemma {:induction false} PartStaysFull(defn: Defn, u: Use, part: TypeId, pool: seq<Node>, bigger: seq<Node>)
    requires SameNodes(pool, bigger) && part < |pool| && BuiltBelow(pool)
    ensures PartFull(defn, u, part, bigger) <==> PartFull(defn, u, part, pool)
    decreases u
  {
    if External(defn, u.name) && u.args != [] && pool[part].Applied? {
      assert NodeBelow(pool[part], part);
      PartsStayFull(defn, u.args, |u.args|, pool[part].args, pool, bigger);
    }
  }

  lemma {:induction false} PartsStayFull(defn: Defn, us: seq<Use>, n: nat, parts: seq<TypeId>, pool: seq<Node>,
                                         bigger: seq<Node>)
    requires SameNodes(pool, bigger) && (forall k :: 0 <= k < |parts| ==> parts[k] < |pool|) && BuiltBelow(pool)
    ensures PartsFull(defn, us, n, parts, bigger) <==> PartsFull(defn, us, n, parts, pool)
    decreases us
  {
    if n == |parts| <= |us| {
      forall k | 0 <= k < n ensures PartFull(defn, us[k], parts[k], bigger) <==> PartFull(defn, us[k], parts[k], pool) {
        PartStaysFull(defn, us[k], parts[k], pool, bigger);
      }
    }
  }

  lemma {:induction false} DefinedStaysFull(p: Program, d: DefnId, pool: seq<Node>, bigger: seq<Node>, id: TypeId)
    requires SameNodes(pool, bigger) && BuiltBelow(pool) && RootOk(p, d, pool, id)
    ensures DefinedFull(p, d, bigger, id) <==> DefinedFull(p, d, pool, id)
  {
    var body := BodyOf(pool, id);
    assert NodeBelow(pool[body], body);
    PartsStayFull(p.defns[d], p.defns[d].uses, |p.defns[d].uses|, pool[body].parts, pool, bigger);
  }

  lemma {:induction false} AllStayFull(p: Program, s: State, now: State)
    requires StateOk(p, s) && SameNodes(s.pool, now.pool) && now.mapping == s.mapping
    ensures AllFull(p, now) <==> AllFull(p, s)
  {
    AllDefined(p, s);
    forall d: DefnId | d in s.mapping
      ensures DefinedFull(p, d, now.pool, s.mapping[d]) <==> DefinedFull(p, d, s.pool, s.mapping[d])
    {
      DefinedStaysFull(p, d, s.pool, now.pool, s.mapping[d]);
    }
  }

  /** What a type is made of includes everything its use names, if no arguments were lost. */
  lemma {:induction false} FullNeeds(p: Program, defn: Defn, d: DefnId, u: Use, part: TypeId, pool: seq<Node>,
                                     mapping: map<DefnId, TypeId>, when: Period)
    requires PartOk(p, defn, d, u, part, pool, mapping, when) && PartFull(defn, u, part, pool)
      && RootsOk(p, pool, mapping)
    requires ProgramOk(p) && NoShadow(p) && d < |p.defns| && defn == p.defns[d]
    ensures Needs(p, defn, u) <= when.end
    decreases u
  {
    OnlyTarget(p, d, u.name);
    if External(defn, u.name) && u.args != [] {
      FullNeedAll(p, defn, d, u.args, |u.args|, pool[part].args, pool, mapping, when);
    }
  }

  lemma {:induction false} FullNeedAll(p: Program, defn: Defn, d: DefnId, us: seq<Use>, n: nat, parts: seq<TypeId>,
                                       pool: seq<Node>, mapping: map<DefnId, TypeId>, when: Period)
    requires PartsOk(p, defn, d, us, n, parts, pool, mapping, when) && PartsFull(defn, us, n, parts, pool)
    requires RootsOk(p, pool, mapping)
    requires ProgramOk(p) && NoShadow(p) && d < |p.defns| && defn == p.defns[d]
    ensures NeedsUpTo(p, defn, us, n) <= when.end
    decreases us, n
  {
    if n > 0 {
      FullNeeds(p, defn, d, us[n - 1], parts[n - 1], pool, mapping, when);
      assert PartsOk(p, defn, d, us, n - 1, parts[..n - 1], pool, mapping, when);
      FullNeedAll(p, defn, d, us, n - 1, parts[..n - 1], pool, mapping, when);
    }
  }
}
