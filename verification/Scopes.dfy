/** The arena of scopes: a tree whose nodes only ever get children. */
module Scopes {
  import opened Wrappers
  import TypePool

  type ScopeId = TypePool.ScopeId
  type Ident = TypePool.Ident
  type DefnId = nat

  /** What a scope binds; the tables of the five kinds are searched alike. */
  datatype Key =
    | VariableKey(name: Ident) | FunctionKey(name: Ident) | NamespaceKey(name: Ident) | TypeKey(name: Ident)
    | AbilityKey(name: Ident)

  datatype Scope = Scope(bindings: map<Key, nat>, pending: map<Ident, DefnId>, parent: Option<ScopeId>,
                         children: seq<ScopeId>)

  // ---------- the invariant ----------

  ghost predicate ParentsBelow(scopes: seq<Scope>) {
    forall i :: 0 <= i < |scopes| && scopes[i].parent.Some? ==> scopes[i].parent.value < i
  }

  ghost predicate Increasing(ids: seq<ScopeId>) {
    forall i, j :: 0 <= i < j < |ids| ==> ids[i] < ids[j]
  }

  /** A scope's children are exactly the scopes that name it as their parent, each once and in order. */
  ghost predicate MirroredAt(scopes: seq<Scope>, p: ScopeId)
    requires p < |scopes|
  {
    && Increasing(scopes[p].children)
    && forall c: ScopeId :: c in scopes[p].children <==> c < |scopes| && scopes[c].parent == Some(p)
  }

  ghost predicate OneRoot(scopes: seq<Scope>) {
    forall i :: 0 <= i < |scopes| ==> (scopes[i].parent.None? <==> i == 0)
  }

  ghost predicate ValidArena(scopes: seq<Scope>) {
    && ParentsBelow(scopes) && OneRoot(scopes)
    && forall p :: 0 <= p < |scopes| ==> MirroredAt(scopes, p)
  }

  // ---------- upward lookups ----------

  /** The scope itself, its parent, and so on up to the root. */
  function Chain(scopes: seq<Scope>, s: ScopeId): (r: seq<ScopeId>)
    requires ParentsBelow(scopes) && s < |scopes|
    ensures r != [] && r[0] == s
    decreases s
  {
    [s] + if scopes[s].parent.Some? then Chain(scopes, scopes[s].parent.value) else []
  }

  function Find(scopes: seq<Scope>, s: ScopeId, key: Key): Option<nat>
    requires ParentsBelow(scopes) && s < |scopes|
    decreases s
  {
    if key in scopes[s].bindings then Some(scopes[s].bindings[key])
    else if scopes[s].parent.Some? then Find(scopes, scopes[s].parent.value, key)
    else None
  }

  function FindPending(scopes: seq<Scope>, s: ScopeId, name: Ident): (r: Option<(DefnId, ScopeId)>)
    requires ParentsBelow(scopes) && s < |scopes|
    ensures r.Some? ==>
      r.value.1 <= s && name in scopes[r.value.1].pending && scopes[r.value.1].pending[name] == r.value.0
    decreases s
  {
    if name in scopes[s].pending then Some((scopes[s].pending[name], s))
    else if scopes[s].parent.Some? then FindPending(scopes, scopes[s].parent.value, name)
    else None
  }

  predicate HasAncestor(scopes: seq<Scope>, s: ScopeId, a: ScopeId)
    requires ParentsBelow(scopes) && s < |scopes|
    decreases s
  {
    scopes[s].parent.Some? && (scopes[s].parent.value == a || HasAncestor(scopes, scopes[s].parent.value, a))
  }

  lemma {:induction false} ChainInArena(scopes: seq<Scope>, s: ScopeId)
    requires ParentsBelow(scopes) && s < |scopes|
    ensures forall k :: 0 <= k < |Chain(scopes, s)| ==> Chain(scopes, s)[k] <= s
    ensures forall j, k :: 0 <= j < k < |Chain(scopes, s)| ==> Chain(scopes, s)[k] < Chain(scopes, s)[j]
    decreases s
  {
    if scopes[s].parent.Some? { ChainInArena(scopes, scopes[s].parent.value); }
  }

  /** Position k of the chain from s is the first that binds key. */
  ghost predicate NearestAt(scopes: seq<Scope>, s: ScopeId, key: Key, k: nat)
    requires ParentsBelow(scopes) && s < |scopes|
  {
    var chain := Chain(scopes, s);
    && k < |chain| && chain[k] < |scopes| && key in scopes[chain[k]].bindings
    && forall j :: 0 <= j < k ==> chain[j] < |scopes| && key !in scopes[chain[j]].bindings
  }

  /** A lookup returns the nearest enclosing binding, and fails only if no enclosing scope has one. */
  lemma {:induction false} FindIsNearest(scopes: seq<Scope>, s: ScopeId, key: Key) returns (k: nat)
    requires ParentsBelow(scopes) && s < |scopes|
    ensures k <= |Chain(scopes, s)|
    ensures Find(scopes, s, key).Some? <==> k < |Chain(scopes, s)|
    ensures k < |Chain(scopes, s)| ==>
      NearestAt(scopes, s, key, k) && Find(scopes, s, key) == Some(scopes[Chain(scopes, s)[k]].bindings[key])
    ensures k == |Chain(scopes, s)| ==> forall j :: 0 <= j < k ==>
      Chain(scopes, s)[j] < |scopes| && key !in scopes[Chain(scopes, s)[j]].bindings
    decreases s
  {
    ChainInArena(scopes, s);
    k := 0;
    if key !in scopes[s].bindings {
      if scopes[s].parent.Some? {
        var rest := Chain(scopes, scopes[s].parent.value);
        k := FindIsNearest(scopes, scopes[s].parent.value, key);
        assert forall j :: 0 < j < |Chain(scopes, s)| ==> Chain(scopes, s)[j] == rest[j - 1];
      }
      k := k + 1;
    }
  }

  // ---------- ancestry ----------

  lemma {:induction false} AncestorIsBelow(scopes: seq<Scope>, s: ScopeId, a: ScopeId)
    requires ParentsBelow(scopes) && s < |scopes| && HasAncestor(scopes, s, a)
    ensures a < s
    decreases s
  {
    if scopes[s].parent.value != a { AncestorIsBelow(scopes, scopes[s].parent.value, a); }
  }

  lemma {:induction false} AncestorTransitive(scopes: seq<Scope>, s: ScopeId, a: ScopeId, b: ScopeId)
    requires ParentsBelow(scopes) && s < |scopes| && a < |scopes|
    requires HasAncestor(scopes, s, a) && HasAncestor(scopes, a, b)
    ensures HasAncestor(scopes, s, b)
    decreases s
  {
    if scopes[s].parent.value != a { AncestorTransitive(scopes, scopes[s].parent.value, a, b); }
  }

  /** Ancestry is a strict partial order, and the root is above everything else. */
  lemma AncestryIsOrder(scopes: seq<Scope>, s: ScopeId, a: ScopeId, b: ScopeId)
    requires ValidArena(scopes) && s < |scopes| && a < |scopes| && b < |scopes|
    ensures !HasAncestor(scopes, s, s)
    ensures HasAncestor(scopes, s, a) ==> !HasAncestor(scopes, a, s)
    ensures HasAncestor(scopes, s, a) && HasAncestor(scopes, a, b) ==> HasAncestor(scopes, s, b)
    ensures HasAncestor(scopes, s, 0) <==> s != 0
  {
    if HasAncestor(scopes, s, s) { AncestorIsBelow(scopes, s, s); }
    if HasAncestor(scopes, s, a) {
      AncestorIsBelow(scopes, s, a);
      if HasAncestor(scopes, a, s) { AncestorIsBelow(scopes, a, s); }
      if HasAncestor(scopes, a, b) { AncestorTransitive(scopes, s, a, b); }
    }
    RootAbove(scopes, s);
  }

  lemma {:induction false} RootAbove(scopes: seq<Scope>, s: ScopeId)
    requires ParentsBelow(scopes) && OneRoot(scopes) && s < |scopes|
    ensures HasAncestor(scopes, s, 0) <==> s != 0
    decreases s
  {
    if s != 0 { RootAbove(scopes, scopes[s].parent.value); }
  }

  lemma {:induction false} AncestorInChain(scopes: seq<Scope>, s: ScopeId, a: ScopeId)
    requires ParentsBelow(scopes) && s < |scopes|
    ensures a in Chain(scopes, s) <==> a == s || HasAncestor(scopes, s, a)
    decreases s
  {
    if scopes[s].parent.Some? { AncestorInChain(scopes, scopes[s].parent.value, a); }
  }

  // ---------- changes ----------

  function EmptyScope(parent: Option<ScopeId>): Scope {
    Scope(map[], map[], parent, [])
  }

  function WithChild(scopes: seq<Scope>, parent: ScopeId): seq<Scope>
    requires parent < |scopes|
  {
    scopes[parent := scopes[parent].(children := scopes[parent].children + [|scopes|])] + [EmptyScope(Some(parent))]
  }

  function WithBinding(scopes: seq<Scope>, s: ScopeId, key: Key, v: nat): seq<Scope>
    requires s < |scopes|
  {
    scopes[s := scopes[s].(bindings := scopes[s].bindings[key := v])]
  }

  function WithPending(scopes: seq<Scope>, s: ScopeId, name: Ident, d: DefnId): seq<Scope>
    requires s < |scopes|
  {
    scopes[s := scopes[s].(pending := scopes[s].pending[name := d])]
  }

  function WithoutPending(scopes: seq<Scope>, s: ScopeId, name: Ident): seq<Scope>
    requires s < |scopes|
  {
    scopes[s := scopes[s].(pending := scopes[s].pending - {name})]
  }

  /** b has a's scopes with the same parents, and perhaps more. */
  ghost predicate SameTree(a: seq<Scope>, b: seq<Scope>) {
    |a| <= |b| && forall i :: 0 <= i < |a| ==> b[i].parent == a[i].parent
  }

  lemma WithChildValid(scopes: seq<Scope>, parent: ScopeId)
    requires ValidArena(scopes) && parent < |scopes|
    ensures ValidArena(WithChild(scopes, parent)) && SameTree(scopes, WithChild(scopes, parent))
  {
    var more := WithChild(scopes, parent);
    forall p | 0 <= p < |more| ensures MirroredAt(more, p) {
      if p < |scopes| {
        assert MirroredAt(scopes, p);
        AppendedMember(scopes[p].children, |scopes|);
        ChildrenAbove(scopes, p);
        assert p == parent ==> more[p].children == scopes[p].children + [|scopes|];
      } else {
        assert more[p].children == [];
      }
    }
  }

  lemma AppendedMember(ids: seq<ScopeId>, id: ScopeId)
    ensures forall c: ScopeId :: c in ids + [id] <==> c in ids || c == id
  {
  }

  lemma SameChildrenValid(a: seq<Scope>, b: seq<Scope>)
    requires ValidArena(a) && SameTree(a, b) && |b| == |a| && forall i :: 0 <= i < |a| ==>
      b[i].children == a[i].children
    ensures ValidArena(b)
  {
    forall p | 0 <= p < |b| ensures MirroredAt(b, p) { assert MirroredAt(a, p); }
  }

  lemma {:induction false} SameLookup(a: seq<Scope>, b: seq<Scope>, s: ScopeId, key: Key)
    requires ParentsBelow(a) && ParentsBelow(b) && SameTree(a, b) && s < |a|
    requires forall i :: 0 <= i < |a| ==> b[i].bindings == a[i].bindings
    ensures Find(b, s, key) == Find(a, s, key)
    decreases s
  {
    if a[s].parent.Some? { SameLookup(a, b, a[s].parent.value, key); }
  }

  /** Adding a scope changes no lookup from an existing one. */
  lemma NewScopeChangesNoLookup(scopes: seq<Scope>, parent: ScopeId, s: ScopeId, key: Key)
    requires ValidArena(scopes) && parent < |scopes| && s < |scopes|
    ensures ValidArena(WithChild(scopes, parent))
    ensures Find(WithChild(scopes, parent), s, key) == Find(scopes, s, key)
    ensures Find(WithChild(scopes, parent), |scopes|, key) == Find(scopes, parent, key)
  {
    WithChildValid(scopes, parent);
    SameLookup(scopes, WithChild(scopes, parent), s, key);
    SameLookup(scopes, WithChild(scopes, parent), parent, key);
  }

  /** A new binding is seen exactly from the scopes below it that have none nearer. */
  lemma {:induction false} NewBindingIsSeenBelow(scopes: seq<Scope>, at: ScopeId, key: Key, v: nat, s: ScopeId,
                                                 other: Key)
    requires ParentsBelow(scopes) && at < |scopes| && s < |scopes| && key !in scopes[at].bindings
    ensures ParentsBelow(WithBinding(scopes, at, key, v))
    ensures var seen := other == key && at in Chain(scopes, s) && Hidden(scopes, s, key, at);
      Find(WithBinding(scopes, at, key, v), s, other) == if seen then Some(v) else Find(scopes, s, other)
    decreases s
  {
    if s != at && scopes[s].parent.Some? {
      NewBindingIsSeenBelow(scopes, at, key, v, scopes[s].parent.value, other);
    }
    AncestorInChain(scopes, s, at);
    if s == at && scopes[s].parent.Some? {
      AncestorInChain(scopes, scopes[s].parent.value, at);
      AtMostBelow(scopes, at, key, v, scopes[s].parent.value, other);
    }
  }

  /** No scope from s up to, but not including, `at` binds key. */
  predicate Hidden(scopes: seq<Scope>, s: ScopeId, key: Key, at: ScopeId)
    requires ParentsBelow(scopes) && s < |scopes|
    decreases s
  {
    s == at || (key !in scopes[s].bindings && scopes[s].parent.Some? && Hidden(scopes, scopes[s].parent.value, key, at))
  }

  /** A change at a scope is not seen from above it. */
  lemma {:induction false} AtMostBelow(scopes: seq<Scope>, at: ScopeId, key: Key, v: nat, s: ScopeId, other: Key)
    requires ParentsBelow(scopes) && s < at < |scopes|
    ensures ParentsBelow(WithBinding(scopes, at, key, v))
    ensures Find(WithBinding(scopes, at, key, v), s, other) == Find(scopes, s, other)
    decreases s
  {
    if scopes[s].parent.Some? { AtMostBelow(scopes, at, key, v, scopes[s].parent.value, other); }
  }

  // ---------- pending definitions ----------

  /** The names under which definition d is pending in a scope. */
  function Entries(pending: map<Ident, DefnId>, d: DefnId): set<Ident> {
    set name | name in pending && pending[name] == d
  }

  ghost predicate Within(ids: seq<ScopeId>, lo: ScopeId, hi: nat) {
    forall k :: 0 <= k < |ids| ==> lo < ids[k] < hi
  }

  lemma ChildrenAbove(scopes: seq<Scope>, s: ScopeId)
    requires ValidArena(scopes) && s < |scopes|
    ensures Within(scopes[s].children, s, |scopes|)
  {
    assert MirroredAt(scopes, s);
    var ids := scopes[s].children;
    forall k | 0 <= k < |ids| ensures s < ids[k] < |scopes| { assert ids[k] in ids; }
  }

  lemma NoneWithin(ids: seq<ScopeId>, lo: ScopeId, hi: nat)
    requires Within(ids, lo, hi) && hi <= lo + 1
    ensures ids == []
  {
    if ids != [] { HeadWithin(ids, lo, hi); }
  }

  lemma HeadWithin(ids: seq<ScopeId>, lo: ScopeId, hi: nat)
    requires Within(ids, lo, hi) && ids != []
    ensures lo < ids[0] < hi
  {
  }

  /** How often d is pending in s and all scopes below it. */
  ghost function CountBelow(scopes: seq<Scope>, s: ScopeId, d: DefnId): nat
    requires ValidArena(scopes) && s < |scopes|
    decreases |scopes| - s, 0
  {
    ChildrenAbove(scopes, s);
    |Entries(scopes[s].pending, d)| + CountInAll(scopes, scopes[s].children, s, d)
  }

  ghost function CountInAll(scopes: seq<Scope>, ids: seq<ScopeId>, above: ScopeId, d: DefnId): nat
    requires ValidArena(scopes) && above < |scopes| && Within(ids, above, |scopes|)
    decreases |scopes| - above - 1, 1, |ids|
  {
    if ids == [] then 0 else CountInAll(scopes, ids[..|ids| - 1], above, d) + CountBelow(scopes, ids[|ids| - 1], d)
  }

  /** How often d is pending in the first n scopes. */
  ghost function CountTotal(scopes: seq<Scope>, n: nat, d: DefnId): nat
    requires n <= |scopes|
  {
    if n == 0 then 0 else CountTotal(scopes, n - 1, d) + |Entries(scopes[n - 1].pending, d)|
  }

  /** The arena before its last scope was added. */
  function WithoutLast(scopes: seq<Scope>): seq<Scope>
    requires |scopes| > 1 && scopes[|scopes| - 1].parent.Some? && scopes[|scopes| - 1].parent.value < |scopes| - 1
    requires scopes[scopes[|scopes| - 1].parent.value].children != []
  {
    var p := scopes[|scopes| - 1].parent.value;
    var children := scopes[p].children;
    scopes[p := scopes[p].(children := children[..|children| - 1])][..|scopes| - 1]
  }

  lemma LastChildIsLast(scopes: seq<Scope>)
    requires ValidArena(scopes) && |scopes| > 1
    ensures var n := |scopes| - 1;
      && scopes[n].parent.Some? && scopes[n].parent.value < n && scopes[n].children == []
      && var children := scopes[scopes[n].parent.value].children;
      children != [] && children[|children| - 1] == n
  {
    var n := |scopes| - 1;
    var p := scopes[n].parent.value;
    assert MirroredAt(scopes, p);
    ChildrenAbove(scopes, n);
    NoneWithin(scopes[n].children, n, n + 1);
    ChildrenAbove(scopes, p);
    var children := scopes[p].children;
    assert n in children;
    var k :| 0 <= k < |children| && children[k] == n;
  }

  lemma WithoutLastValid(scopes: seq<Scope>)
    requires ValidArena(scopes) && |scopes| > 1
    ensures scopes[|scopes| - 1].parent.Some? && scopes[|scopes| - 1].parent.value < |scopes| - 1
    ensures scopes[scopes[|scopes| - 1].parent.value].children != []
    ensures ValidArena(WithoutLast(scopes)) && SameTree(WithoutLast(scopes), scopes)
  {
    LastChildIsLast(scopes);
    var n := |scopes| - 1;
    var last, front := scopes[n].parent.value, WithoutLast(scopes);
    forall p | 0 <= p < n ensures MirroredAt(front, p) {
      assert MirroredAt(scopes, p);
      var children := scopes[p].children;
      if p == last {
        assert front[p].children == children[..|children| - 1];
        forall c: ScopeId ensures c in front[p].children <==> c in children && c != n {
          if c in children && c != n {
            var k :| 0 <= k < |children| && children[k] == c;
            assert front[p].children[k] == c;
          }
        }
      } else {
        assert front[p].children == children && n !in children;
      }
    }
  }

  lemma {:induction false} ChainIsLinear(scopes: seq<Scope>, s: ScopeId, a: ScopeId, b: ScopeId)
    requires ParentsBelow(scopes) && s < |scopes| && a in Chain(scopes, s) && b in Chain(scopes, s) && a < b
    ensures b < |scopes| && scopes[b].parent.Some? && a in Chain(scopes, scopes[b].parent.value)
    decreases s
  {
    ChainInArena(scopes, s);
    if b != s { ChainIsLinear(scopes, scopes[s].parent.value, a, b); }
  }

  /** Of the scopes with one parent at most one is on a chain. */
  lemma OneChildOnChain(scopes: seq<Scope>, s: ScopeId, a: ScopeId, b: ScopeId)
    requires ParentsBelow(scopes) && s < |scopes| && a in Chain(scopes, s) && b in Chain(scopes, s)
    requires a < |scopes| && b < |scopes| && scopes[a].parent.Some? && scopes[a].parent == scopes[b].parent
    ensures a == b
  {
    if a < b {
      ChainIsLinear(scopes, s, a, b);
      ChainInArena(scopes, scopes[b].parent.value);
    }
    if b < a {
      ChainIsLinear(scopes, s, b, a);
      ChainInArena(scopes, scopes[a].parent.value);
    }
  }

  lemma {:induction false} ChildOnChain(scopes: seq<Scope>, s: ScopeId, a: ScopeId) returns (c: ScopeId)
    requires ParentsBelow(scopes) && s < |scopes| && a in Chain(scopes, s) && a != s
    ensures c in Chain(scopes, s) && c < |scopes| && scopes[c].parent == Some(a)
    decreases s
  {
    var p := scopes[s].parent.value;
    if p == a { c := s; } else { c := ChildOnChain(scopes, p, a); }
  }

  lemma {:induction false} ParentOnChain(scopes: seq<Scope>, s: ScopeId, c: ScopeId)
    requires ParentsBelow(scopes) && s < |scopes| && c in Chain(scopes, s) && c < |scopes| && scopes[c].parent.Some?
    ensures scopes[c].parent.value in Chain(scopes, s)
    decreases s
  {
    if c != s { ParentOnChain(scopes, scopes[s].parent.value, c); }
  }

  /** What the last scope adds to the count of those it is below. */
  ghost function Extra(scopes: seq<Scope>, front: seq<Scope>, p: ScopeId, s: ScopeId, d: DefnId): nat
    requires ParentsBelow(front) && p < |front| && scopes != []
  {
    if s in Chain(front, p) then |Entries(scopes[|scopes| - 1].pending, d)| else 0
  }

  /** The arena before its last scope, a child of p, was added. */
  ghost predicate GrewByLast(scopes: seq<Scope>, front: seq<Scope>, p: ScopeId) {
    && ValidArena(scopes) && |scopes| > 1 && ValidArena(front) && |front| == |scopes| - 1
    && scopes[|scopes| - 1].parent == Some(p) && p < |front| && scopes[p].children != []
    && front == WithoutLast(scopes)
  }

  ghost predicate AnyOnChain(front: seq<Scope>, p: ScopeId, ids: seq<ScopeId>)
    requires ParentsBelow(front) && p < |front|
  {
    exists c :: c in ids && c in Chain(front, p)
  }

  lemma {:induction false} LastCounts(scopes: seq<Scope>, front: seq<Scope>, p: ScopeId, s: ScopeId, d: DefnId)
    requires GrewByLast(scopes, front, p) && s < |front|
    ensures CountBelow(scopes, s, d) == CountBelow(front, s, d) + Extra(scopes, front, p, s, d)
    decreases |front| - s, 2
  {
    var n, ids := |scopes| - 1, front[s].children;
    LastChildIsLast(scopes);
    ChildrenAbove(scopes, s);
    ChildrenAbove(front, s);
    assert MirroredAt(front, s);
    forall k | 0 <= k < |ids| ensures front[ids[k]].parent == Some(s) { assert ids[k] in ids; }
    ChildrenCount(scopes, front, p, s, ids, d);
    if s == p {
      assert scopes[s].children == ids + [n] && (ids + [n])[..|ids|] == ids;
      assert CountBelow(scopes, n, d) == |Entries(scopes[n].pending, d)|;
      NoneBelowChain(front, p);
    } else {
      assert scopes[s].children == ids;
      OnlyOnePath(front, p, s);
    }
  }

  lemma {:induction false} NoneBelowChain(front: seq<Scope>, p: ScopeId)
    requires ValidArena(front) && p < |front|
    ensures !AnyOnChain(front, p, front[p].children)
  {
    ChildrenAbove(front, p);
    ChainInArena(front, p);
  }

  /** A scope on the chain, not its start, has one child on it; a scope off the chain has none. */
  lemma {:induction false} OnlyOnePath(front: seq<Scope>, p: ScopeId, s: ScopeId)
    requires ValidArena(front) && p < |front| && s < |front| && s != p
    ensures s in Chain(front, p) <==> AnyOnChain(front, p, front[s].children)
  {
    assert MirroredAt(front, s);
    if s in Chain(front, p) {
      var c := ChildOnChain(front, p, s);
      assert c in front[s].children;
    }
    forall c | c in front[s].children && c in Chain(front, p) ensures s in Chain(front, p) {
      ParentOnChain(front, p, c);
    }
  }

  lemma {:induction false} LastOnChain(front: seq<Scope>, p: ScopeId, s: ScopeId, ids: seq<ScopeId>)
    requires ParentsBelow(front) && p < |front| && ids != [] && Increasing(ids)
    requires forall k :: 0 <= k < |ids| ==> ids[k] < |front| && front[ids[k]].parent == Some(s)
    ensures var rest, c := ids[..|ids| - 1], ids[|ids| - 1];
      && (AnyOnChain(front, p, ids) <==> AnyOnChain(front, p, rest) || c in Chain(front, p))
      && !(AnyOnChain(front, p, rest) && c in Chain(front, p))
  {
    var rest, c := ids[..|ids| - 1], ids[|ids| - 1];
    assert ids == rest + [c];
    AppendedMember(rest, c);
    if c in Chain(front, p) {
      forall k | 0 <= k < |rest| ensures rest[k] !in Chain(front, p) {
        if rest[k] in Chain(front, p) { OneChildOnChain(front, p, rest[k], c); }
      }
    }
  }

  lemma {:induction false} ChildrenCount(scopes: seq<Scope>, front: seq<Scope>, p: ScopeId, s: ScopeId,
                                         ids: seq<ScopeId>, d: DefnId)
    requires GrewByLast(scopes, front, p) && s < |front|
    requires Increasing(ids) && Within(ids, s, |front|) && Within(ids, s, |scopes|)
    requires forall k :: 0 <= k < |ids| ==> front[ids[k]].parent == Some(s)
    ensures CountInAll(scopes, ids, s, d) == CountInAll(front, ids, s, d) +
      if AnyOnChain(front, p, ids) then |Entries(scopes[|scopes| - 1].pending, d)| else 0
    decreases |front| - s, 1, |ids|
  {
    if ids != [] {
      var rest, c := ids[..|ids| - 1], ids[|ids| - 1];
      ChildrenCount(scopes, front, p, s, rest, d);
      LastCounts(scopes, front, p, c, d);
      LastOnChain(front, p, s, ids);
    }
  }

  lemma {:induction false} TotalSame(scopes: seq<Scope>, front: seq<Scope>, n: nat, d: DefnId)
    requires n <= |front| && n <= |scopes| && forall i :: 0 <= i < n ==> front[i].pending == scopes[i].pending
    ensures CountTotal(scopes, n, d) == CountTotal(front, n, d)
    decreases n
  {
    if n > 0 { TotalSame(scopes, front, n - 1, d); }
  }

  /** Main result on pending definitions: collecting from the root finds each pending entry of every scope
      exactly once. */
  lemma {:induction false} RootCollectsAll(scopes: seq<Scope>, d: DefnId)
    requires ValidArena(scopes) && scopes != []
    ensures CountBelow(scopes, 0, d) == CountTotal(scopes, |scopes|, d)
    decreases |scopes|
  {
    if |scopes| == 1 {
      ChildrenAbove(scopes, 0);
      NoneWithin(scopes[0].children, 0, 1);
      assert CountTotal(scopes, 0, d) == 0;
    } else {
      WithoutLastValid(scopes);
      var front, p := WithoutLast(scopes), scopes[|scopes| - 1].parent.value;
      RootCollectsAll(front, d);
      TotalSame(scopes, front, |front|, d);
      LastCounts(scopes, front, p, 0, d);
      AncestorInChain(front, p, 0);
      RootAbove(front, p);
    }
  }

  // ---------- the arena object ----------

  class ScopeArena {
    var scopes: seq<Scope>

    constructor ()
      ensures scopes == [] && Valid()
    {
      scopes := [];
    }

    ghost predicate Valid()
      reads this
    {
      ValidArena(scopes)
    }

    method AddRootScope() returns (id: ScopeId)
      requires Valid() && scopes == []
      modifies this
      ensures Valid() && id == 0 && scopes == [EmptyScope(None)]
    {
      scopes := [EmptyScope(None)];
      id := 0;
      assert MirroredAt(scopes, 0);
    }

    method AddChildScope(parent: ScopeId) returns (id: ScopeId)
      requires Valid() && parent < |scopes|
      modifies this
      ensures Valid() && id == |old(scopes)| && scopes == WithChild(old(scopes), parent)
    {
      WithChildValid(scopes, parent);
      id := |scopes|;
      scopes := scopes + [EmptyScope(Some(parent))];
      scopes := scopes[parent := scopes[parent].(children := scopes[parent].children + [id])];
      assert scopes == WithChild(old(scopes), parent);
    }

    /** Variables of a scope may be shadowed by later ones of the same name. */
    method AddVariable(s: ScopeId, name: Ident, v: nat)
      requires Valid() && s < |scopes|
      modifies this
      ensures Valid() && scopes == WithBinding(old(scopes), s, VariableKey(name), v)
    {
      SameChildrenValid(scopes, WithBinding(scopes, s, VariableKey(name), v));
      scopes := WithBinding(scopes, s, VariableKey(name), v);
    }

    /** Types, functions, namespaces and abilities are refused when the scope has one of that name. */
    method Add(s: ScopeId, key: Key, v: nat) returns (added: bool)
      requires Valid() && s < |scopes| && !key.VariableKey?
      modifies this
      ensures Valid() && added == (key !in old(scopes)[s].bindings)
      ensures scopes == if added then WithBinding(old(scopes), s, key, v) else old(scopes)
    {
      added := key !in scopes[s].bindings;
      if added {
        SameChildrenValid(scopes, WithBinding(scopes, s, key, v));
        scopes := WithBinding(scopes, s, key, v);
      }
    }

    method AddPendingTypeDefn(s: ScopeId, name: Ident, d: DefnId) returns (added: bool)
      requires Valid() && s < |scopes|
      modifies this
      ensures Valid() && added == (name !in old(scopes)[s].pending)
      ensures scopes == if added then WithPending(old(scopes), s, name, d) else old(scopes)
    {
      added := name !in scopes[s].pending;
      if added {
        SameChildrenValid(scopes, WithPending(scopes, s, name, d));
        scopes := WithPending(scopes, s, name, d);
      }
    }

    /** Removes the nearest pending entry of the name. */
    method RemovePendingTypeDefn(s: ScopeId, name: Ident) returns (removed: bool)
      requires Valid() && s < |scopes|
      modifies this
      ensures Valid() && removed == FindPending(old(scopes), s, name).Some?
      ensures scopes ==
        if removed then WithoutPending(old(scopes), FindPending(old(scopes), s, name).value.1, name) else old(scopes)
      decreases s
    {
      if name in scopes[s].pending {
        SameChildrenValid(scopes, WithoutPending(scopes, s, name));
        scopes := WithoutPending(scopes, s, name);
        return true;
      }
      if scopes[s].parent.None? {
        return false;
      }
      removed := RemovePendingTypeDefn(scopes[s].parent.value, name);
    }

    /** The ids pending in a scope, in the arbitrary order of its table. */
    method PendingValues(pending: map<Ident, DefnId>) returns (values: seq<DefnId>)
      ensures forall d :: multiset(values)[d] == |Entries(pending, d)|
    {
      values := [];
      var names := pending.Keys;
      while names != {}
        invariant names <= pending.Keys
        invariant forall d :: multiset(values)[d] == |Entries(pending, d) - names|
      {
        var name :| name in names;
        ghost var had := names;
        values, names := values + [pending[name]], names - {name};
        forall d ensures multiset(values)[d] == |Entries(pending, d) - names| {
          OneMoreEntry(pending, had, name, d);
        }
      }
      assert forall d :: Entries(pending, d) - {} == Entries(pending, d);
    }

    ghost predicate Counted(pendings: seq<DefnId>, s: ScopeId, children: seq<ScopeId>, d: DefnId)
      requires Valid() && s < |scopes| && Within(children, s, |scopes|)
      reads this
    {
      multiset(pendings)[d] == |Entries(scopes[s].pending, d)| + CountInAll(scopes, children, s, d)
    }

    method AllPendingTypeDefnsBelow(s: ScopeId) returns (pendings: seq<DefnId>)
      requires Valid() && s < |scopes|
      ensures forall d :: multiset(pendings)[d] == CountBelow(scopes, s, d)
      decreases |scopes| - s
    {
      ChildrenAbove(scopes, s);
      pendings := PendingValues(scopes[s].pending);
      var children := scopes[s].children;
      for k := 0 to |children|
        invariant Within(children[..k], s, |scopes|)
        invariant forall d :: Counted(pendings, s, children[..k], d)
      {
        var childPendings := AllPendingTypeDefnsBelow(children[k]);
        assert children[..k + 1][..k] == children[..k];
        ghost var had, done := pendings, children[..k + 1];
        pendings := pendings + childPendings;
        forall d ensures Counted(pendings, s, done, d) {
          assert Counted(had, s, children[..k], d);
          assert multiset(pendings)[d] == multiset(had)[d] + multiset(childPendings)[d];
        }
      }
      assert children[..|children|] == children;
      forall d ensures multiset(pendings)[d] == CountBelow(scopes, s, d) {
        assert Counted(pendings, s, children, d);
      }
    }
  }

  lemma OneMoreEntry(pending: map<Ident, DefnId>, names: set<Ident>, name: Ident, d: DefnId)
    requires name in names && names <= pending.Keys
    ensures |Entries(pending, d) - (names - {name})| ==
      |Entries(pending, d) - names| + if pending[name] == d then 1 else 0
  {
    var more, less := Entries(pending, d) - (names - {name}), Entries(pending, d) - names;
    if pending[name] == d { assert more == less + {name}; } else { assert more == less; }
  }
}
