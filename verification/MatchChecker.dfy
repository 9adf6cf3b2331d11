/** The exhaustiveness and usefulness check of a `when` expression. */
module MatchChecker {
  import opened PatternTypes
  import opened Constructors
  import opened ConstructorPartition

  /** Position of the first field with the given name; |fs| when there is none. */
  function FindField(fs: seq<FieldCtor>, name: Ident): (i: nat)
    ensures i <= |fs|
    ensures i < |fs| ==> fs[i].name == name
    ensures forall j :: 0 <= j < i ==> fs[j].name != name
  {
    if fs == [] then 0
    else if fs[0].name == name then 0
    else
      var r := FindField(fs[1..], name);
      assert forall j :: 1 <= j < |fs| ==> fs[j] == fs[1..][j - 1];
      r + 1
  }

  /** Every field a struct pattern mentions is a field of the constructor it meets. */
  ghost predicate FieldsPresent(p: Pattern, c: Ctor)
    decreases p
  {
    match p
    case EnumPattern(_, tag, payload) =>
      c.CEnum? && c.tag == tag && payload.Some? && c.inner.Some? ==> FieldsPresent(payload.value, c.inner.value)
    case StructPattern(fs) =>
      c.CStruct? ==> forall i :: 0 <= i < |fs| ==>
        FindField(c.fields, fs[i].name) < |c.fields|
        && FieldsPresent(fs[i].pattern, c.fields[FindField(c.fields, fs[i].name)].ctor)
    case _ => true
  }

  predicate PatternMatches(p: Pattern, c: Ctor)
    requires FieldsPresent(p, c)
    decreases p
  {
    match p
    case Wildcard => true
    case Variable(_) => true
    case LiteralUnit => c.CUnit?
    case LiteralBool(b) => if b then c.CTrue? else c.CFalse?
    case EnumPattern(_, tag, payload) =>
      && c.CEnum?
      && c.tag == tag
      && payload.Some? == c.inner.Some?
      && (payload.Some? ==> PatternMatches(payload.value, c.inner.value))
    case StructPattern(fs) =>
      && c.CStruct?
      && forall i :: 0 <= i < |fs| ==> PatternMatches(fs[i].pattern, c.fields[FindField(c.fields, fs[i].name)].ctor)
    case _ => false
  }

  predicate IsInnumerableLiteral(p: Pattern) {
    p.LiteralChar? || p.LiteralInteger? || p.LiteralString?
  }

  ghost predicate AllTyped(ps: seq<Pattern>, t: Ty) {
    forall i :: 0 <= i < |ps| ==> WellTyped(ps[i], t)
  }

  ghost predicate AllPresent(ps: seq<Pattern>, cs: seq<Ctor>) {
    forall i, j :: 0 <= i < |ps| && 0 <= j < |cs| ==> FieldsPresent(ps[i], cs[j])
  }

  // ---------- specification of the check ----------

  /** The arm that claims trial constructor c; |ps| when none does. */
  ghost function Claimant(ps: seq<Pattern>, c: Ctor): (i: nat)
    requires forall j :: 0 <= j < |ps| ==> FieldsPresent(ps[j], c)
    ensures i <= |ps|
    ensures i < |ps| ==> PatternMatches(ps[i], c)
    ensures forall j :: 0 <= j < i ==> !PatternMatches(ps[j], c)
  {
    if ps == [] then 0
    else if PatternMatches(ps[0], c) then 0
    else
      var r := Claimant(ps[1..], c);
      assert forall j :: 1 <= j < |ps| ==> ps[j] == ps[1..][j - 1];
      r + 1
  }

  /** For each trial constructor, the arm that claims it. */
  ghost function Claims(ps: seq<Pattern>, cs: seq<Ctor>): (claims: seq<nat>)
    requires AllPresent(ps, cs)
    ensures |claims| == |cs| && forall j :: 0 <= j < |cs| ==> claims[j] == Claimant(ps, cs[j])
  {
    seq(|cs|, j requires 0 <= j < |cs| => Claimant(ps, cs[j]))
  }

  /** How many trial constructors arm i claims; for i == |ps|, how many nobody claims. */
  ghost function Score(claims: seq<nat>, i: nat): (n: nat)
    ensures n > 0 <==> i in claims
  {
    multiset(claims)[i]
  }

  datatype Verdict = Accepted | Unhandled(trial: nat) | Useless(arm: nat)

  /** A non-partial match passes: every trial is claimed, and the first arm
      that claims nothing, if any, is a literal of an innumerable type. */
  ghost predicate Accepts(ps: seq<Pattern>, claims: seq<nat>) {
    && |ps| !in claims
    && forall u :: 0 <= u < |ps| && Score(claims, u) == 0 && (forall i :: 0 <= i < u ==> Score(claims, i) > 0)
         ==> IsInnumerableLiteral(ps[u])
  }

  // ---------- the checker ----------

  method CheckArms(ps: seq<Pattern>, t: Ty) returns (verdict: Verdict, scores: seq<nat>, alive: seq<bool>)
    requires WellFormed(t) && AllTyped(ps, t)
    ensures AllPresent(ps, Ctors(t))
    ensures Tallied(|ps|, Claims(ps, Ctors(t)), scores, alive)
    ensures verdict.Accepted? <==> Accepts(ps, Claims(ps, Ctors(t)))
    ensures Explains(verdict, ps, scores, alive)
  {
    TypedPatternsPresent(ps, t);
    var trials := GenerateConstructors(t);
    scores, alive := ScoreTrials(ps, trials);
    verdict := Decide(ps, scores, alive, Claims(ps, trials));
  }

  method Decide(ps: seq<Pattern>, scores: seq<nat>, alive: seq<bool>, ghost claims: seq<nat>) returns (verdict: Verdict)
    requires Tallied(|ps|, claims, scores, alive)
    ensures verdict.Accepted? <==> Accepts(ps, claims)
    ensures Explains(verdict, ps, scores, alive)
  {
    var j := 0;
    while j < |alive| && !alive[j]
      invariant j <= |alive| && forall k :: 0 <= k < j ==> !alive[k]
    {
      j := j + 1;
    }
    if j < |alive| {
      assert claims[j] in claims;
      return Unhandled(j);
    }
    var u := 0;
    while u < |scores| && scores[u] != 0
      invariant u <= |scores| && forall k :: 0 <= k < u ==> scores[k] != 0
    {
      u := u + 1;
    }
    if u < |scores| && !IsInnumerableLiteral(ps[u]) {
      return Useless(u);
    }
    return Accepted;
  }

  /** A rejection names the first unclaimed trial or, when there is none, the first arm without a trial. */
  ghost predicate Explains(verdict: Verdict, ps: seq<Pattern>, scores: seq<nat>, alive: seq<bool>) {
    match verdict
    case Accepted => true
    case Unhandled(j) => j < |alive| && alive[j] && forall k :: 0 <= k < j ==> !alive[k]
    case Useless(u) =>
      && u < |ps| == |scores| && scores[u] == 0 && !IsInnumerableLiteral(ps[u])
      && (forall k :: 0 <= k < u ==> scores[k] != 0)
      && forall k :: 0 <= k < |alive| ==> !alive[k]
  }

  ghost predicate Tallied(n: nat, claims: seq<nat>, scores: seq<nat>, alive: seq<bool>) {
    && |scores| == n
    && (forall i :: 0 <= i < n ==> scores[i] == Score(claims, i))
    && |alive| == |claims|
    && forall j :: 0 <= j < |claims| ==> alive[j] == (claims[j] == n)
  }

  /** The nested trial loop: each trial is credited to the first arm that matches it. */
  method ScoreTrials(ps: seq<Pattern>, trials: seq<Ctor>) returns (scores: seq<nat>, alive: seq<bool>)
    requires AllPresent(ps, trials)
    ensures Tallied(|ps|, Claims(ps, trials), scores, alive)
  {
    ghost var claims := Claims(ps, trials);
    alive := seq(|trials|, _ => true);
    scores := seq(|ps|, _ => 0);
    for trial := 0 to |trials|
      invariant |alive| == |trials| && forall j :: trial <= j < |trials| ==> alive[j]
      invariant Tallied(|ps|, claims[..trial], scores, alive[..trial])
    {
      var index := FirstMatching(ps, trials[trial]);
      ghost var was, had := scores, alive;
      if index < |ps| {
        scores := scores[index := scores[index] + 1];
        alive := alive[trial := false];
      }
      TallyOneMore(|ps|, claims, trial, was, had, scores, alive);
    }
    assert claims[..|trials|] == claims && alive[..|alive|] == alive;
  }

  lemma TallyOneMore(n: nat, claims: seq<nat>, trial: nat, was: seq<nat>, had: seq<bool>, scores: seq<nat>,
                     alive: seq<bool>)
    requires trial < |claims| == |had| == |alive| && claims[trial] <= n && |was| == |scores| == n
    requires Tallied(n, claims[..trial], was, had[..trial]) && had[trial]
    requires if claims[trial] < n
      then scores == was[claims[trial] := was[claims[trial]] + 1] && alive == had[trial := false]
      else scores == was && alive == had
    ensures Tallied(n, claims[..trial + 1], scores, alive[..trial + 1])
  {
    assert claims[..trial + 1] == claims[..trial] + [claims[trial]];
    forall i | 0 <= i < n ensures scores[i] == Score(claims[..trial + 1], i) {
      assert scores[i] == was[i] + if i == claims[trial] then 1 else 0;
    }
    forall j | 0 <= j < trial + 1 ensures alive[j] == (claims[j] == n) {
      if j < trial { assert had[j] == had[..trial][j] && claims[..trial][j] == claims[j]; }
    }
  }

  method FirstMatching(ps: seq<Pattern>, trial: Ctor) returns (index: nat)
    requires forall i :: 0 <= i < |ps| ==> FieldsPresent(ps[i], trial)
    ensures index == Claimant(ps, trial)
  {
    index := 0;
    while index < |ps| && !PatternMatches(ps[index], trial)
      invariant index <= |ps|
      invariant forall j :: 0 <= j < index ==> !PatternMatches(ps[j], trial)
    {
      index := index + 1;
    }
  }

  // ---------- typed patterns never miss a field ----------

  lemma StructFieldFound(fs: seq<FieldTy>, row: seq<FieldCtor>, index: nat)
    requires RowOf(row, fs) && index < |fs|
    requires forall i, j :: 0 <= i < j < |fs| ==> fs[i].name != fs[j].name
    ensures FindField(row, fs[index].name) == index
  {
    assert row[index].name == fs[index].name;
  }

  lemma {:induction false} TypedPatternPresent(p: Pattern, c: Ctor, t: Ty)
    requires WellFormed(t) && WellTyped(p, t) && c in Ctors(t)
    ensures FieldsPresent(p, c)
    decreases p
  {
    match p {
      case EnumPattern(index, tag, payload) =>
        if c.CEnum? && c.tag == tag && payload.Some? && c.inner.Some? {
          EnumCtorVariant(t.variants, c, index);
          TypedPatternPresent(payload.value, c.inner.value, t.variants[index].payload.value);
        }
      case StructPattern(fs) =>
        if t.Struct? {
          InStructCtors(t.fields, c);
          forall i | 0 <= i < |fs|
            ensures FindField(c.fields, fs[i].name) < |c.fields|
            ensures FieldsPresent(fs[i].pattern, c.fields[FindField(c.fields, fs[i].name)].ctor)
          {
            StructFieldFound(t.fields, c.fields, fs[i].index);
            TypedPatternPresent(fs[i].pattern, c.fields[fs[i].index].ctor, t.fields[fs[i].index].ty);
          }
        }
      case _ =>
    }
  }

  /** A constructor of an enum type that carries variant `index`'s name comes from that variant. */
  lemma EnumCtorVariant(vs: seq<VariantTy>, c: Ctor, index: nat)
    requires c in EnumCtors(vs) && c.CEnum? && index < |vs| && vs[index].name == c.tag
    requires forall i, j :: 0 <= i < j < |vs| ==> vs[i].name != vs[j].name
    ensures c.inner.Some? == vs[index].payload.Some?
    ensures c.inner.Some? ==> c.inner.value in Ctors(vs[index].payload.value)
  {
    InEnumCtors(vs, c);
    var k :| 0 <= k < |vs| && c in VariantCtors(vs[k]);
    InVariantCtors(vs[k], c);
  }

  lemma TypedPatternsPresent(ps: seq<Pattern>, t: Ty)
    requires WellFormed(t) && AllTyped(ps, t)
    ensures AllPresent(ps, Ctors(t))
  {
    forall i, j | 0 <= i < |ps| && 0 <= j < |Ctors(t)| ensures FieldsPresent(ps[i], Ctors(t)[j]) {
      TypedPatternPresent(ps[i], Ctors(t)[j], t);
    }
  }

  // ---------- a pattern that claims a constructor matches all of it ----------

  lemma {:induction false} ClaimedMeansMatched(p: Pattern, c: Ctor, v: Value, t: Ty)
    requires WellFormed(t) && WellTyped(p, t) && c in Ctors(t) && HasType(v, t) && Belongs(v, c, t)
    requires FieldsPresent(p, c) && PatternMatches(p, c)
    ensures Matches(p, v)
    decreases p, 2
  {
    match p {
      case EnumPattern(index, tag, payload) =>
        EnumCtorVariant(t.variants, c, index);
        assert v.tag == index;
        if payload.Some? {
          ClaimedMeansMatched(payload.value, c.inner.value, v.payload.value, t.variants[index].payload.value);
        }
      case StructPattern(fs) => ClaimedStructMatched(p, c, v, t);
      case _ =>
    }
  }

  lemma {:induction false} ClaimedStructMatched(p: Pattern, c: Ctor, v: Value, t: Ty)
    requires p.StructPattern? && t.Struct?
    requires WellFormed(t) && WellTyped(p, t) && c in Ctors(t) && HasType(v, t) && Belongs(v, c, t)
    requires FieldsPresent(p, c) && PatternMatches(p, c)
    ensures Matches(p, v)
    decreases p, 1
  {
    InStructCtors(t.fields, c);
    forall i | 0 <= i < |p.fields| ensures FieldMatched(p.fields[i], v) {
      ClaimedFieldMatched(p, c, v, t, i);
    }
    MatchedByFields(p, v);
  }

  ghost predicate FieldMatched(f: FieldPattern, v: Value) {
    f.index < |Parts(v)| && Matches(f.pattern, Parts(v)[f.index])
  }

  lemma {:induction false} MatchedByFields(p: Pattern, v: Value)
    requires p.StructPattern? && HasParts(v) && forall i :: 0 <= i < |p.fields| ==> FieldMatched(p.fields[i], v)
    ensures Matches(p, v)
  {
    forall i | 0 <= i < |p.fields|
      ensures p.fields[i].index < |Parts(v)| && Matches(p.fields[i].pattern, Parts(v)[p.fields[i].index])
    {
      assert FieldMatched(p.fields[i], v);
    }
  }

  lemma {:induction false} ClaimedFieldMatched(p: Pattern, c: Ctor, v: Value, t: Ty, i: nat)
    requires p.StructPattern? && t.Struct? && i < |p.fields| && WellFormed(t) && WellTyped(p, t)
    requires c.CStruct? && RowOf(c.fields, t.fields) && HasType(v, t) && Belongs(v, c, t)
    requires FieldsPresent(p, c) && PatternMatches(p, c)
    ensures FieldMatched(p.fields[i], v)
    decreases p, 0
  {
    var f := p.fields[i];
    ClaimedField(p, c, t, i);
    ClaimedMeansMatched(f.pattern, c.fields[f.index].ctor, v.fields[f.index], t.fields[f.index].ty);
  }

  /** The constructor of the field that a claiming struct pattern mentions is claimed too. */
  lemma {:induction false} ClaimedField(p: Pattern, c: Ctor, t: Ty, i: nat)
    requires p.StructPattern? && t.Struct? && WellFormed(t) && WellTyped(p, t) && c.CStruct?
    requires RowOf(c.fields, t.fields)
    requires i < |p.fields| && FieldsPresent(p, c) && PatternMatches(p, c)
    ensures var f := p.fields[i];
      && FieldsPresent(f.pattern, c.fields[f.index].ctor) && PatternMatches(f.pattern, c.fields[f.index].ctor)
  {
    StructFieldFound(t.fields, c.fields, p.fields[i].index);
  }

  /** The patterns that can claim a constructor: no literal of an innumerable type, no struct pattern on a string,
      and a sub-pattern wherever the variant has a payload. */
  ghost predicate Exact(p: Pattern, t: Ty)
    requires WellTyped(p, t)
    decreases p
  {
    match p
    case EnumPattern(index, _, payload) =>
      && payload.Some? == t.variants[index].payload.Some?
      && (payload.Some? ==> Exact(payload.value, t.variants[index].payload.value))
    case StructPattern(fs) => t.Struct? && forall i :: 0 <= i < |fs| ==> Exact(fs[i].pattern, t.fields[fs[i].index].ty)
    case _ => !IsInnumerableLiteral(p)
  }

  lemma {:induction false} ClaimedMeansExact(p: Pattern, c: Ctor, t: Ty)
    requires WellFormed(t) && WellTyped(p, t) && c in Ctors(t) && FieldsPresent(p, c) && PatternMatches(p, c)
    ensures Exact(p, t)
    decreases p
  {
    match p {
      case EnumPattern(index, tag, payload) =>
        EnumCtorVariant(t.variants, c, index);
        if payload.Some? { ClaimedMeansExact(payload.value, c.inner.value, t.variants[index].payload.value); }
      case StructPattern(fs) =>
        InStructCtors(t.fields, c);
        forall i | 0 <= i < |fs| ensures Exact(fs[i].pattern, t.fields[fs[i].index].ty) {
          ClaimedField(p, c, t, i);
          ClaimedMeansExact(fs[i].pattern, c.fields[fs[i].index].ctor, t.fields[fs[i].index].ty);
        }
      case _ =>
    }
  }

  lemma {:induction false} ExactMatchedMeansClaimed(p: Pattern, c: Ctor, v: Value, t: Ty)
    requires WellFormed(t) && WellTyped(p, t) && Exact(p, t) && c in Ctors(t) && HasType(v, t) && Belongs(v, c, t)
    requires FieldsPresent(p, c) && Matches(p, v)
    ensures PatternMatches(p, c)
    decreases p, 1
  {
    match p {
      case LiteralUnit => assert c in [CUnit];
      case LiteralBool(b) => assert c in [CFalse, CTrue];
      case EnumPattern(index, tag, payload) =>
        InEnumCtors(t.variants, c);
        var k :| 0 <= k < |t.variants| && c in VariantCtors(t.variants[k]);
        InVariantCtors(t.variants[k], c);
        assert k == index;
        if payload.Some? {
          ExactMatchedMeansClaimed(payload.value, c.inner.value, v.payload.value, t.variants[index].payload.value);
        }
      case StructPattern(_) => ExactStructClaimed(p, c, v, t);
      case _ =>
    }
  }

  lemma {:induction false} ExactStructClaimed(p: Pattern, c: Ctor, v: Value, t: Ty)
    requires p.StructPattern?
    requires WellFormed(t) && WellTyped(p, t) && Exact(p, t) && c in Ctors(t) && HasType(v, t) && Belongs(v, c, t)
    requires FieldsPresent(p, c) && Matches(p, v)
    ensures PatternMatches(p, c)
    decreases p, 0
  {
    var fs := p.fields;
    InStructCtors(t.fields, c);
    forall i | 0 <= i < |fs| ensures PatternMatches(fs[i].pattern, c.fields[FindField(c.fields, fs[i].name)].ctor) {
      StructFieldFound(t.fields, c.fields, fs[i].index);
      ExactMatchedMeansClaimed(fs[i].pattern, c.fields[fs[i].index].ctor, v.fields[fs[i].index],
        t.fields[fs[i].index].ty);
    }
  }

  /** What the checker's matching function decides: whether the pattern is exact and matches the values of the
      constructor, any of them or all of them. */
  lemma ClaimsExactly(p: Pattern, c: Ctor, v: Value, t: Ty)
    requires WellFormed(t) && WellTyped(p, t) && c in Ctors(t) && HasType(v, t) && Belongs(v, c, t)
    requires FieldsPresent(p, c)
    ensures PatternMatches(p, c) <==> Exact(p, t) && Matches(p, v)
  {
    if PatternMatches(p, c) {
      ClaimedMeansExact(p, c, t);
      ClaimedMeansMatched(p, c, v, t);
    } else if Exact(p, t) && Matches(p, v) {
      ExactMatchedMeansClaimed(p, c, v, t);
    }
  }

  // ---------- usefulness ----------

  /** The first arm whose pattern is exact and matches v; |ps| when none is. */
  ghost function FirstExact(ps: seq<Pattern>, t: Ty, v: Value): (i: nat)
    requires AllTyped(ps, t)
    ensures i <= |ps|
    ensures i < |ps| ==> Exact(ps[i], t) && Matches(ps[i], v)
    ensures forall j :: 0 <= j < i ==> !(Exact(ps[j], t) && Matches(ps[j], v))
  {
    if ps == [] then 0
    else if Exact(ps[0], t) && Matches(ps[0], v) then 0
    else
      var r := FirstExact(ps[1..], t, v);
      assert forall j :: 1 <= j < |ps| ==> ps[j] == ps[1..][j - 1];
      r + 1
  }

  lemma ClaimantIsFirstExact(ps: seq<Pattern>, c: Ctor, v: Value, t: Ty)
    requires WellFormed(t) && AllTyped(ps, t) && c in Ctors(t) && HasType(v, t) && Belongs(v, c, t)
    requires forall i :: 0 <= i < |ps| ==> FieldsPresent(ps[i], c)
    ensures FirstExact(ps, t, v) == Claimant(ps, c)
  {
    forall i | 0 <= i < |ps| ensures PatternMatches(ps[i], c) <==> Exact(ps[i], t) && Matches(ps[i], v) {
      ClaimsExactly(ps[i], c, v, t);
    }
  }

  ghost predicate Picks(ps: seq<Pattern>, t: Ty, i: nat, v: Value)
    requires AllTyped(ps, t)
  {
    HasType(v, t) && Reached(v, t) && FirstExact(ps, t, v) == i
  }

  /** For any arms: arm i claims a trial exactly when some value picks it as the first exact arm, and with
      i == |ps|, some trial stays unclaimed exactly when some value is matched by no exact arm. */
  lemma ScoresExactly(ps: seq<Pattern>, t: Ty, i: nat)
    requires WellFormed(t) && AllTyped(ps, t)
    ensures AllPresent(ps, Ctors(t))
    ensures Score(Claims(ps, Ctors(t)), i) > 0 <==> exists v :: Picks(ps, t, i, v)
  {
    TypedPatternsPresent(ps, t);
    var cs := Ctors(t);
    if i in Claims(ps, cs) {
      var j :| 0 <= j < |cs| && Claims(ps, cs)[j] == i;
      var v := Inhabited(cs[j], t);
      BelongingValueIsReached(v, cs[j], t);
      ClaimantIsFirstExact(ps, cs[j], v, t);
      assert Picks(ps, t, i, v);
    }
    forall v | Picks(ps, t, i, v) ensures i in Claims(ps, cs) {
      Partition(v, t);
      var j :| 0 <= j < |cs| && Belongs(v, cs[j], t);
      ClaimantIsFirstExact(ps, cs[j], v, t);
      assert Claims(ps, cs)[j] == i;
    }
  }

  /** A value no part of which has a rule-less type has arm i as its first match; with i == |ps|, it has none. */
  ghost predicate Reaches(ps: seq<Pattern>, t: Ty, i: nat, v: Value) {
    HasType(v, t) && Reached(v, t) && FirstMatch(ps, v) == i
  }

  lemma ExactArmsMatchFirst(ps: seq<Pattern>, t: Ty, v: Value)
    requires AllTyped(ps, t) && forall k :: 0 <= k < |ps| ==> Exact(ps[k], t)
    ensures FirstExact(ps, t, v) == FirstMatch(ps, v)
  {
  }

  /** When all arms are exact the score decides reachability, and the unclaimed trials exhaustiveness. */
  lemma UsefulnessIsExact(ps: seq<Pattern>, t: Ty, i: nat)
    requires WellFormed(t) && AllTyped(ps, t)
    requires forall k :: 0 <= k < |ps| ==> Exact(ps[k], t)
    ensures AllPresent(ps, Ctors(t))
    ensures Score(Claims(ps, Ctors(t)), i) > 0 <==> exists v :: Reaches(ps, t, i, v)
  {
    ScoresExactly(ps, t, i);
    forall v ensures Picks(ps, t, i, v) <==> Reaches(ps, t, i, v) { ExactArmsMatchFirst(ps, t, v); }
    if v :| Picks(ps, t, i, v) { assert Reaches(ps, t, i, v); }
    if v :| Reaches(ps, t, i, v) { assert Picks(ps, t, i, v); }
  }

  ghost function SumScores(claims: seq<nat>, n: nat): nat {
    if n == 0 then 0 else SumScores(claims, n - 1) + Score(claims, n - 1)
  }

  lemma {:induction false} SumScoresStep(claims: seq<nat>, c: nat, n: nat)
    ensures SumScores(claims + [c], n) == SumScores(claims, n) + if c < n then 1 else 0
  {
    if n > 0 { SumScoresStep(claims, c, n - 1); }
  }

  lemma {:induction false} ScoresPartition(claims: seq<nat>, n: nat)
    requires forall j :: 0 <= j < |claims| ==> claims[j] <= n
    ensures SumScores(claims, n) + Score(claims, n) == |claims|
  {
    if claims == [] {
      for k := 0 to n invariant SumScores([], k) == 0 {}
    } else {
      var front, last := claims[..|claims| - 1], claims[|claims| - 1];
      assert claims == front + [last];
      ScoresPartition(front, n);
      SumScoresStep(front, last, n);
    }
  }

  /** Conservation: each trial constructor is claimed by one arm or left unmatched. */
  lemma ScoresAddUp(ps: seq<Pattern>, cs: seq<Ctor>)
    requires AllPresent(ps, cs)
    ensures SumScores(Claims(ps, cs), |ps|) + Score(Claims(ps, cs), |ps|) == |cs|
  {
    ScoresPartition(Claims(ps, cs), |ps|);
  }
}
