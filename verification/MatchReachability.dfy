/** Which arms of an accepted match can be reached. */
module MatchReachability {
  import TypePool
  import opened PatternTypes
  import opened Constructors
  import opened MatchChecker
  import StringArms

  /** The arms are elaborated patterns for t, and the checker lets them pass. */
  ghost predicate Passes(ps: seq<Pattern>, t: Ty) {
    WellFormed(t) && AllTyped(ps, t) && AllPresent(ps, Ctors(t)) && Accepts(ps, Claims(ps, Ctors(t)))
  }

  ghost predicate NoLiteralArm(ps: seq<Pattern>) {
    forall i :: 0 <= i < |ps| ==> !IsInnumerableLiteral(ps[i])
  }

  // ---------- accepted matches without literal arms ----------

  /** The first arm without a trial would have to be a literal, so there is none. */
  lemma EveryArmClaims(ps: seq<Pattern>, t: Ty, i: nat)
    requires Passes(ps, t) && NoLiteralArm(ps) && i < |ps|
    ensures Score(Claims(ps, Ctors(t)), i) > 0
  {
    var claims, u := Claims(ps, Ctors(t)), 0;
    while u < i && Score(claims, u) > 0
      invariant u <= i && forall k :: 0 <= k < u ==> Score(claims, k) > 0
    {
      u := u + 1;
    }
    assert !IsInnumerableLiteral(ps[u]);
  }

  lemma AcceptedArmsAreExact(ps: seq<Pattern>, t: Ty, i: nat)
    requires Passes(ps, t) && NoLiteralArm(ps) && i < |ps|
    ensures Exact(ps[i], t)
  {
    var cs := Ctors(t);
    EveryArmClaims(ps, t, i);
    var j :| 0 <= j < |cs| && Claims(ps, cs)[j] == i;
    ClaimedMeansExact(ps[i], cs[j], t);
  }

  /** Some value enters arm i. */
  ghost predicate ArmReached(ps: seq<Pattern>, t: Ty, i: nat) {
    exists v :: Reaches(ps, t, i, v)
  }

  /** Main result: in an accepted match no arm of which is a literal of an innumerable type, every arm is reached. */
  lemma AcceptedArmsAreReachable(ps: seq<Pattern>, t: Ty, i: nat)
    requires Passes(ps, t) && NoLiteralArm(ps) && i < |ps|
    ensures ArmReached(ps, t, i)
  {
    forall k | 0 <= k < |ps| ensures Exact(ps[k], t) { AcceptedArmsAreExact(ps, t, k); }
    EveryArmClaims(ps, t, i);
    UsefulnessIsExact(ps, t, i);
  }

  // ---------- patterns that are never accepted ----------

  predicate Innumerable(t: Ty) {
    t.Char? || t.Int? || t.String?
  }

  /** Somewhere inside, a variant pattern leaves out the sub-pattern for the variant's payload. */
  ghost predicate OmitsPayload(p: Pattern, t: Ty)
    requires WellTyped(p, t)
    decreases p
  {
    match p
    case EnumPattern(index, _, payload) =>
      if payload.Some? then OmitsPayload(payload.value, t.variants[index].payload.value)
        else t.variants[index].payload.Some?
    case StructPattern(fs) => exists i :: 0 <= i < |fs| && OmitsPayload(fs[i].pattern, FieldsOf(t)[fs[i].index].ty)
    case _ => false
  }

  /** A literal of an innumerable type strictly inside the pattern. */
  predicate LiteralInside(p: Pattern)
    decreases p
  {
    match p
    case EnumPattern(_, _, payload) => payload.Some?
      && (IsInnumerableLiteral(payload.value) || LiteralInside(payload.value))
    case StructPattern(fs) => exists i ::
      0 <= i < |fs| && (IsInnumerableLiteral(fs[i].pattern) || LiteralInside(fs[i].pattern))
    case _ => false
  }

  lemma {:induction false} OmitsPayloadNotExact(p: Pattern, t: Ty)
    requires WellTyped(p, t) && OmitsPayload(p, t)
    ensures !Exact(p, t) && !Innumerable(t)
    decreases p
  {
    match p {
      case EnumPattern(index, _, payload) =>
        if payload.Some? { OmitsPayloadNotExact(payload.value, t.variants[index].payload.value); }
      case StructPattern(fs) =>
        var i :| 0 <= i < |fs| && OmitsPayload(fs[i].pattern, FieldsOf(t)[fs[i].index].ty);
        OmitsPayloadNotExact(fs[i].pattern, FieldsOf(t)[fs[i].index].ty);
    }
  }

  lemma {:induction false} LiteralInsideNotExact(p: Pattern, t: Ty)
    requires WellTyped(p, t) && LiteralInside(p)
    ensures !Exact(p, t)
    decreases p
  {
    match p {
      case EnumPattern(index, _, payload) =>
        if LiteralInside(payload.value) { LiteralInsideNotExact(payload.value, t.variants[index].payload.value); }
      case StructPattern(fs) =>
        var i :| 0 <= i < |fs| && (IsInnumerableLiteral(fs[i].pattern) || LiteralInside(fs[i].pattern));
        if LiteralInside(fs[i].pattern) { LiteralInsideNotExact(fs[i].pattern, FieldsOf(t)[fs[i].index].ty); }
    }
  }

  lemma NoLiteralArmFor(ps: seq<Pattern>, t: Ty)
    requires AllTyped(ps, t) && !Innumerable(t)
    ensures NoLiteralArm(ps)
  {
    forall i | 0 <= i < |ps| ensures !IsInnumerableLiteral(ps[i]) { assert WellTyped(ps[i], t); }
  }

  /** A match one of whose arms tests for a variant but not for its payload is never accepted. */
  lemma OmittedPayloadRejected(ps: seq<Pattern>, t: Ty, i: nat)
    requires WellFormed(t) && AllTyped(ps, t) && i < |ps| && OmitsPayload(ps[i], t)
    ensures !Passes(ps, t)
  {
    OmitsPayloadNotExact(ps[i], t);
    NoLiteralArmFor(ps, t);
    if Passes(ps, t) { AcceptedArmsAreExact(ps, t, i); }
  }

  /** Neither is one with a number, character or string literal inside an arm's pattern, unless the target
      is a string. */
  lemma NestedLiteralRejected(ps: seq<Pattern>, t: Ty, i: nat)
    requires WellFormed(t) && !t.String? && AllTyped(ps, t) && i < |ps| && LiteralInside(ps[i])
    ensures !Passes(ps, t)
  {
    LiteralInsideNotExact(ps[i], t);
    NoLiteralArmFor(ps, t);
    if Passes(ps, t) { AcceptedArmsAreExact(ps, t, i); }
  }

  // ---------- arms that are literals ----------

  predicate CatchAll(p: Pattern) {
    p.Wildcard? || p.Variable?
  }

  ghost predicate CatchAllOnlyLast(ps: seq<Pattern>) {
    forall i :: 0 <= i < |ps| - 1 ==> !CatchAll(ps[i])
  }

  ghost predicate LiteralsDiffer(ps: seq<Pattern>) {
    forall i, j :: 0 <= i < j < |ps| && IsInnumerableLiteral(ps[i]) ==> ps[i] != ps[j]
  }

  /** The literals among the arms. */
  function Listed(ps: seq<Pattern>): set<Pattern> {
    if ps == [] then {} else Listed(ps[1..]) + if IsInnumerableLiteral(ps[0]) then {ps[0]} else {}
  }

  /** How many values a type of characters or numbers has. */
  function Size(t: Ty): nat {
    match t
    case Char => 256
    case Int(width) => Highest(width) - Lowest(width) + 1
    case _ => 0
  }

  predicate LeavesRoom(ps: seq<Pattern>, t: Ty) {
    |Listed(ps)| < Size(t)
  }

  predicate Numbered(t: Ty) {
    t.Char? || t.Int?
  }

  lemma {:induction false} InListed(ps: seq<Pattern>, p: Pattern)
    ensures p in Listed(ps) <==> IsInnumerableLiteral(p) && p in ps
    ensures |Listed(ps)| <= |ps|
  {
    if ps != [] {
      InListed(ps[1..], p);
      assert p in ps <==> p == ps[0] || p in ps[1..];
    }
  }

  /** The k-th literal of a type: each character, each number from the lowest. */
  function Literal(t: Ty, k: nat): Pattern {
    match t
    case Int(width) => LiteralInteger(Lowest(width) + k)
    case _ => LiteralChar(if k < 256 then k else 0)
  }

  function Literals(t: Ty, n: nat): set<Pattern> {
    if n == 0 then {} else Literals(t, n - 1) + {Literal(t, n - 1)}
  }

  lemma {:induction false} InLiterals(t: Ty, n: nat, p: Pattern)
    ensures p in Literals(t, n) <==> exists k :: 0 <= k < n && p == Literal(t, k)
  {
    if n > 0 {
      InLiterals(t, n - 1, p);
      if p == Literal(t, n - 1) { assert 0 <= n - 1 < n; }
    }
  }

  lemma {:induction false} LiteralsCount(t: Ty, n: nat)
    requires Numbered(t) && (t.Char? ==> n <= 256)
    ensures |Literals(t, n)| == n
  {
    if n > 0 {
      LiteralsCount(t, n - 1);
      NextLiteralIsNew(t, n - 1);
    }
  }

  lemma {:induction false} NextLiteralIsNew(t: Ty, n: nat)
    requires Numbered(t) && (t.Char? ==> n < 256)
    ensures Literal(t, n) !in Literals(t, n)
  {
    InLiterals(t, n, Literal(t, n));
    assert forall k :: 0 <= k < n ==> Literal(t, k) != Literal(t, n);
  }

  /** The value a literal names. */
  function Named(p: Pattern): Value
    requires IsInnumerableLiteral(p)
  {
    match p
    case LiteralChar(c) => CharV(c)
    case LiteralInteger(i) => IntV(i)
    case LiteralString(s) => StringV(s, 0)
  }

  lemma NamedMatches(p: Pattern, q: Pattern)
    requires IsInnumerableLiteral(p) && IsInnumerableLiteral(q)
    ensures Matches(q, Named(p)) <==> q == p
  {
  }

  /** A literal of the type that no arm lists. */
  lemma UnlistedLiteral(ps: seq<Pattern>, t: Ty) returns (p: Pattern)
    requires Numbered(t) && LeavesRoom(ps, t)
    ensures IsInnumerableLiteral(p) && p !in ps && HasType(Named(p), t)
  {
    LiteralsCount(t, Size(t));
    p := StringArms.Surplus(Literals(t, Size(t)), Listed(ps));
    InLiterals(t, Size(t), p);
    InListed(ps, p);
  }

  /** A value that only the catch-all at the end can take leaves room for it. */
  lemma {:induction false} TakenLeavesRoom(ps: seq<Pattern>, t: Ty, v: Value)
    requires AllTyped(ps, t) && Numbered(t) && ps != [] && HasType(v, t) && FirstMatch(ps, v) == |ps| - 1
    requires CatchAll(ps[|ps| - 1])
    ensures LeavesRoom(ps, t)
  {
    var own := OwnLiteral(t, v);
    forall p | p in Listed(ps) ensures p in Literals(t, Size(t)) - {own} {
      ListedNotTaken(ps, t, v, p);
      ListedIsLiteral(p, t);
    }
    StringArms.SubsetCount(Listed(ps), Literals(t, Size(t)) - {own});
    LiteralsCount(t, Size(t));
  }

  lemma {:induction false} ListedNotTaken(ps: seq<Pattern>, t: Ty, v: Value, p: Pattern)
    requires AllTyped(ps, t) && ps != [] && FirstMatch(ps, v) == |ps| - 1 && CatchAll(ps[|ps| - 1]) && p in Listed(ps)
    ensures WellTyped(p, t) && IsInnumerableLiteral(p) && !Matches(p, v)
  {
    InListed(ps, p);
    ArmNotTaken(ps, t, v, p);
  }

  lemma {:induction false} ArmNotTaken(ps: seq<Pattern>, t: Ty, v: Value, p: Pattern)
    requires AllTyped(ps, t) && ps != [] && FirstMatch(ps, v) == |ps| - 1 && CatchAll(ps[|ps| - 1])
    requires p in ps && IsInnumerableLiteral(p)
    ensures WellTyped(p, t) && !Matches(p, v)
  {
    var i :| 0 <= i < |ps| && ps[i] == p;
    assert WellTyped(ps[i], t);
  }

  /** The literal of a character or number. */
  lemma OwnLiteral(t: Ty, v: Value) returns (own: Pattern)
    requires (t.Char? || t.Int?) && HasType(v, t)
    ensures own in Literals(t, Size(t)) && Matches(own, v) && IsInnumerableLiteral(own)
  {
    var k: nat := if t.Char? then v.c else v.i - Lowest(t.width);
    own := Literal(t, k);
    InLiterals(t, Size(t), own);
  }

  lemma ListedIsLiteral(p: Pattern, t: Ty)
    requires WellTyped(p, t) && IsInnumerableLiteral(p) && !t.String?
    ensures p in Literals(t, Size(t))
  {
    var k: nat := if t.Char? then p.c else p.i - Lowest(t.width);
    assert p == Literal(t, k);
    InLiterals(t, Size(t), p);
  }

  /** On a type of characters or numbers there is one trial, and only a catch-all claims it. */
  lemma AcceptedHasCatchAll(ps: seq<Pattern>, t: Ty) returns (k: nat)
    requires Passes(ps, t) && Numbered(t)
    ensures k < |ps| && CatchAll(ps[k])
  {
    var cs := Ctors(t);
    k := Claimant(ps, cs[0]);
    assert Claims(ps, cs)[0] == k;
    assert PatternMatches(ps[k], cs[0]) && WellTyped(ps[k], t);
  }

  /** The first arm that claims nothing on a type with a single trial. */
  function FirstIdle(ps: seq<Pattern>): nat
    requires ps != []
  {
    if CatchAll(ps[0]) then 1 else 0
  }

  /** Main result: a match on characters, numbers or strings is accepted if and only if it has a catch-all arm, and the
      first arm without a trial, if any, is neither a second catch-all nor a struct pattern. */
  lemma {:induction false} AcceptedOnInnumerableExactlyWhen(ps: seq<Pattern>, t: Ty)
    requires AllTyped(ps, t) && (Numbered(t) || t.String?)
    ensures Passes(ps, t) <==>
      && (exists k :: 0 <= k < |ps| && CatchAll(ps[k]))
      && (FirstIdle(ps) < |ps| ==> !CatchAll(ps[FirstIdle(ps)]) && !ps[FirstIdle(ps)].StructPattern?)
  {
    var cs := Ctors(t);
    TypedPatternsPresent(ps, t);
    assert |cs| == 1;
    forall i | 0 <= i < |ps| ensures PatternMatches(ps[i], cs[0]) <==> CatchAll(ps[i]) {
      assert WellTyped(ps[i], t) && FieldsPresent(ps[i], cs[0]);
    }
    var k := Claimant(ps, cs[0]);
    assert Claims(ps, cs) == [k];
    assert forall i: nat :: Score([k], i) == if i == k then 1 else 0;
    if k < |ps| {
      var u := FirstIdle(ps);
      assert CatchAll(ps[k]);
      assert k == 0 || u == 0;
      assert u < |ps| ==> WellTyped(ps[u], t);
    }
  }

  ghost predicate EveryArmReached(ps: seq<Pattern>, t: Ty) {
    forall i :: 0 <= i < |ps| ==> ArmReached(ps, t, i)
  }

  /** Main result: an accepted match with a literal arm has only reachable arms exactly when, for characters and
      numbers, no literal repeats, nothing follows a catch-all, and the literals do not use up the type; for strings,
      each arm adds something to those before it, length tests included. */
  lemma {:induction false} LiteralArmsReachableExactlyWhen(ps: seq<Pattern>, t: Ty)
    requires Passes(ps, t) && |ps| <= MAX_LENGTH && !NoLiteralArm(ps)
    ensures Numbered(t) || t.String?
    ensures Numbered(t) ==>
      (EveryArmReached(ps, t) <==> CatchAllOnlyLast(ps) && LiteralsDiffer(ps) && LeavesRoom(ps, t))
    ensures t.String? ==> (EveryArmReached(ps, t) <==> forall i :: 0 <= i < |ps| ==> StringArms.AddsStrings(ps, i))
  {
    if !Innumerable(t) { NoLiteralArmFor(ps, t); }
    if t.String? {
      forall i | 0 <= i < |ps| ensures ArmReached(ps, t, i) <==> StringArms.AddsStrings(ps, i) {
        StringArms.ArmReachedExactlyWhen(ps, i);
      }
    } else {
      NumberArmsReachableExactlyWhen(ps, t);
    }
  }

  lemma {:induction false} NumberArmsReachableExactlyWhen(ps: seq<Pattern>, t: Ty)
    requires Passes(ps, t) && Numbered(t)
    ensures EveryArmReached(ps, t) <==> CatchAllOnlyLast(ps) && LiteralsDiffer(ps) && LeavesRoom(ps, t)
  {
    var k := AcceptedHasCatchAll(ps, t);
    if EveryArmReached(ps, t) {
      ReachedMeansDistinct(ps, t);
      LastReachedLeavesRoom(ps, t, |ps| - 1);
    }
    if CatchAllOnlyLast(ps) && LiteralsDiffer(ps) && LeavesRoom(ps, t) {
      forall i | 0 <= i < |ps| ensures ArmReached(ps, t, i) {
        if i < |ps| - 1 { LiteralReached(ps, t, i); } else { CatchAllReached(ps, t, i); }
      }
    }
  }

  lemma LastReachedLeavesRoom(ps: seq<Pattern>, t: Ty, last: nat)
    requires AllTyped(ps, t) && Numbered(t) && last == |ps| - 1 && CatchAll(ps[last]) && ArmReached(ps, t, last)
    ensures LeavesRoom(ps, t)
  {
    var v :| Reaches(ps, t, last, v);
    TakenLeavesRoom(ps, t, v);
  }

  lemma ReachedMeansDistinct(ps: seq<Pattern>, t: Ty)
    requires EveryArmReached(ps, t)
    ensures CatchAllOnlyLast(ps) && LiteralsDiffer(ps)
  {
    forall i | 0 <= i < |ps| - 1 ensures !CatchAll(ps[i]) {
      var next := i + 1;
      assert ArmReached(ps, t, next);
      var v :| Reaches(ps, t, next, v);
    }
    forall i, j | 0 <= i < j < |ps| && IsInnumerableLiteral(ps[i]) ensures ps[i] != ps[j] {
      assert ArmReached(ps, t, j);
      var v :| Reaches(ps, t, j, v);
    }
  }

  lemma PlainPattern(p: Pattern, t: Ty)
    requires WellTyped(p, t) && Numbered(t)
    ensures CatchAll(p) || IsInnumerableLiteral(p)
  {
  }

  lemma {:induction false} LiteralReached(ps: seq<Pattern>, t: Ty, i: nat)
    requires AllTyped(ps, t) && Numbered(t)
    requires CatchAllOnlyLast(ps) && LiteralsDiffer(ps) && i < |ps| - 1
    ensures ArmReached(ps, t, i)
  {
    PlainPattern(ps[i], t);
    var v := Named(ps[i]);
    forall j | 0 <= j < i ensures !Matches(ps[j], v) {
      PlainPattern(ps[j], t);
      NamedMatches(ps[i], ps[j]);
    }
    NamedMatches(ps[i], ps[i]);
    assert WellTyped(ps[i], t);
    assert Reaches(ps, t, i, v);
  }

  lemma {:induction false} CatchAllReached(ps: seq<Pattern>, t: Ty, last: nat)
    requires AllTyped(ps, t) && Numbered(t)
    requires last == |ps| - 1 && CatchAll(ps[last]) && CatchAllOnlyLast(ps) && LeavesRoom(ps, t)
    ensures ArmReached(ps, t, last)
  {
    var p := UnlistedLiteral(ps, t);
    var v := Named(p);
    forall j | 0 <= j < last ensures !Matches(ps[j], v) {
      PlainPattern(ps[j], t);
      NamedMatches(p, ps[j]);
    }
    assert Reaches(ps, t, last, v);
  }

  // ---------- inputs on which acceptance does not mean that every arm is reached ----------

  /** A number type on which the match { 1, 1, _ } is accepted although its second arm is never entered. */
  lemma RepeatedLiteralAccepted()
    ensures var ps := [LiteralInteger(1), LiteralInteger(1), Wildcard];
      Passes(ps, Int(TypePool.I64)) && forall v :: FirstMatch(ps, v) != 1
  {
    var ps, t := [LiteralInteger(1), LiteralInteger(1), Wildcard], Int(TypePool.I64);
    TypedPatternsPresent(ps, t);
    assert Claims(ps, Ctors(t)) == [2];
    assert Score([2], 0) == 0;
    forall v ensures FirstMatch(ps, v) != 1 {
      if Matches(ps[1], v) { assert Matches(ps[0], v); }
    }
  }

  function LengthTest(): Pattern {
    StructPattern([FieldPattern("len", 0, LiteralInteger(0))])
  }

  lemma {:induction false} LengthTestPasses(ps: seq<Pattern>)
    requires ps == [LiteralString([]), LengthTest(), Wildcard]
    ensures Passes(ps, String)
  {
    assert WellTyped(LengthTest(), String);
    TypedPatternsPresent(ps, String);
    assert !PatternMatches(ps[0], CString) && !PatternMatches(ps[1], CString) && PatternMatches(ps[2], CString);
    assert Claims(ps, Ctors(String)) == [2];
    assert Score([2], 0) == 0;
  }

  /** The match { "", { len: 0 }, _ } on a string is accepted although its second arm is never entered. */
  lemma {:induction false} RepeatedLengthAccepted(ps: seq<Pattern>, v: Value)
    requires ps == [LiteralString([]), LengthTest(), Wildcard] && HasType(v, String)
    ensures Passes(ps, String) && FirstMatch(ps, v) != 1
  {
    LengthTestPasses(ps);
    if Matches(ps[1], v) { OnlyTheEmptyString(v); }
  }

  lemma {:induction false} OnlyTheEmptyString(v: Value)
    requires HasType(v, String) && Matches(LengthTest(), v)
    ensures Matches(LiteralString([]), v)
  {
    assert LengthTest().fields[0].pattern == LiteralInteger(0);
    assert Matches(LengthTest().fields[0].pattern, Parts(v)[0]);
  }

  /** A struct pattern on a string: { len: n } takes every string, yet claims no trial, so the match { {len: n}, _ } is
      rejected because its first arm is called useless. */
  lemma StringStructPatternRejected()
    ensures var ps := [StructPattern([FieldPattern("len", 0, Variable("n"))]), Wildcard];
      && WellFormed(String) && AllTyped(ps, String) && AllPresent(ps, Ctors(String)) && !Passes(ps, String)
      && forall v :: HasType(v, String) ==> FirstMatch(ps, v) == 0
  {
    var p := StructPattern([FieldPattern("len", 0, Variable("n"))]);
    var ps := [p, Wildcard];
    assert WellTyped(p, String);
    TypedPatternsPresent(ps, String);
    assert !Exact(p, String);
    if Passes(ps, String) {
      NoLiteralHere(p);
      AcceptedArmsAreExact(ps, String, 0);
    }
    forall v | HasType(v, String) ensures FirstMatch(ps, v) == 0 {
      PartsTyped(v, String);
      assert Matches(p, v);
    }
  }

  lemma NoLiteralHere(p: Pattern)
    requires p.StructPattern?
    ensures NoLiteralArm([p, Wildcard])
  {
  }
}
