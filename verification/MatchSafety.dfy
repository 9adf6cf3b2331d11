/** When an accepted match can never reach its crash call. */
module MatchSafety {
  import opened Wrappers
  import opened PatternTypes
  import opened Constructors
  import opened ConstructorPartition
  import opened MatchChecker
  import opened MatchCode
  import opened MatchCompiler
  import opened MatchCompilerCorrect

  /** A match the typer lets through: at least one arm, elaborated patterns, checker satisfied. */
  ghost predicate AcceptedMatch(arms: seq<Arm>, t: Ty) {
    && arms != []
    && AllTyped(PatternsOf(arms), t)
    && AllPresent(PatternsOf(arms), Ctors(t))
    && Accepts(PatternsOf(arms), Claims(PatternsOf(arms), Ctors(t)))
  }

  ghost predicate Structured(arms: seq<Arm>) {
    forall i :: 0 <= i < |arms| ==> NonEmptyStructs(arms[i].pattern)
  }

  lemma TypedArmsStructured(arms: seq<Arm>, t: Ty)
    requires AllTyped(PatternsOf(arms), t)
    ensures Structured(arms)
  {
    forall i | 0 <= i < |arms| ensures NonEmptyStructs(arms[i].pattern) {
      assert PatternsOf(arms)[i] == arms[i].pattern;
      TypedStructsNonEmpty(arms[i].pattern, t);
    }
  }

  /** An accepted match never crashes on a value no part of which has a rule-less type. */
  lemma AcceptedNeverCrashes(arms: seq<Arm>, next: VarId, v: Value, t: Ty)
    requires WellFormed(t) && AcceptedMatch(arms, t) && HasType(v, t) && Reached(v, t)
    ensures Structured(arms)
    ensures RunMatch(MatchCodeFor(arms, next), v).Ran?
  {
    TypedArmsStructured(arms, t);
    AcceptedMatches(PatternsOf(arms), v, t);
    forall k | 0 <= k < |arms| ensures WellTyped(arms[k].pattern, t) { assert WellTyped(PatternsOf(arms)[k], t); }
    CompiledMatchIsFirstMatch(arms, next, v, t);
  }

  lemma AcceptedMatches(ps: seq<Pattern>, v: Value, t: Ty)
    requires WellFormed(t) && AllTyped(ps, t) && HasType(v, t) && Reached(v, t)
    requires AllPresent(ps, Ctors(t)) && |ps| !in Claims(ps, Ctors(t))
    ensures FirstMatch(ps, v) < |ps|
  {
    var cs := Ctors(t);
    Partition(v, t);
    var j :| 0 <= j < |cs| && Belongs(v, cs[j], t);
    var i := Claimant(ps, cs[j]);
    assert Claims(ps, cs)[j] == i;
    ClaimedMeansMatched(ps[i], cs[j], v, t);
  }

  // ---------- the other direction: a crashing accepted match ----------

  lemma {:induction false} AnyValue(t: Ty) returns (v: Value)
    requires WellFormed(t)
    ensures HasType(v, t)
    decreases t
  {
    match t {
      case Unit => v := UnitV;
      case Char => v := CharV(0);
      case Int(_) => v := IntV(0);
      case String => v := StringV([], 0);
      case Bool => v := BoolV(false);
      case TypeVar => v := OpaqueV(0);
      case Unsupported => v := OpaqueV(0);
      case Enum(vs) =>
        if vs[0].payload.Some? {
          var inner := AnyValue(vs[0].payload.value);
          v := EnumV(0, Some(inner));
        } else {
          v := EnumV(0, None);
        }
      case BareVariant(vs, k) =>
        if vs[k].payload.Some? {
          var inner := AnyValue(vs[k].payload.value);
          v := EnumV(k, Some(inner));
        } else {
          v := EnumV(k, None);
        }
      case Struct(fs) =>
        var vals: seq<Value> := [];
        for k := 0 to |fs|
          invariant |vals| == k && forall i :: 0 <= i < k ==> HasType(vals[i], fs[i].ty)
        {
          var inner := AnyValue(fs[k].ty);
          vals := vals + [inner];
        }
        v := StructV(vals);
    }
  }

  lemma {:induction false} UnreachedValue(t: Ty) returns (v: Value)
    requires WellFormed(t) && !Supported(t)
    ensures HasType(v, t) && !Reached(v, t)
    decreases t
  {
    match t {
      case Unsupported => v := OpaqueV(0);
      case BareVariant(_, _) => v := AnyValue(t);
      case Enum(vs) =>
        var k :| 0 <= k < |vs| && vs[k].payload.Some? && !Supported(vs[k].payload.value);
        var inner := UnreachedValue(vs[k].payload.value);
        v := EnumV(k, Some(inner));
      case Struct(fs) =>
        var k :| 0 <= k < |fs| && !Supported(fs[k].ty);
        var whole := AnyValue(t);
        var inner := UnreachedValue(fs[k].ty);
        v := StructV(whole.fields[k := inner]);
        assert !Reached(v.fields[k], fs[k].ty);
    }
  }

  /** A pattern that matches nothing outside constructor c. */
  ghost predicate Pins(p: Pattern, c: Ctor, t: Ty) {
    && WellTyped(p, t)
    && FieldsPresent(p, c) && PatternMatches(p, c)
    && forall v :: HasType(v, t) && Matches(p, v) ==> Belongs(v, c, t)
  }

  lemma {:induction false} PinningPattern(c: Ctor, t: Ty) returns (p: Pattern)
    requires WellFormed(t) && c in Ctors(t)
    ensures Pins(p, c, t)
    decreases t
  {
    match t {
      case Enum(vs) =>
        var k := CtorVariant(vs, c);
        if c.inner.Some? {
          var inner := PinningPattern(c.inner.value, vs[k].payload.value);
          p := EnumPattern(k, vs[k].name, Some(inner));
          PinnedPayload(vs, k, inner, c);
        } else {
          p := EnumPattern(k, vs[k].name, None);
          PinnedTag(vs, k, c);
        }
      case Struct(fs) =>
        InStructCtors(fs, c);
        if fs == [] {
          p := Wildcard;
        } else {
          var pfs := PinningFields(c, fs);
          p := StructPattern(pfs);
          PinnedStruct(pfs, c, fs);
        }
      case _ => p := PinningScalar(c, t);
    }
  }

  lemma PinningScalar(c: Ctor, t: Ty) returns (p: Pattern)
    requires !t.Enum? && !t.Struct? && c in Ctors(t)
    ensures Pins(p, c, t)
  {
    match t {
      case Unit => p := LiteralUnit;
      case Bool => p := LiteralBool(c.CTrue?);
      case _ => p := Wildcard;
    }
  }

  lemma CtorVariant(vs: seq<VariantTy>, c: Ctor) returns (k: nat)
    requires c in EnumCtors(vs)
    ensures k < |vs| && c.CEnum? && c.tag == vs[k].name && c.inner.Some? == vs[k].payload.Some?
    ensures c.inner.Some? ==> c.inner.value in Ctors(vs[k].payload.value)
  {
    InEnumCtors(vs, c);
    k :| 0 <= k < |vs| && c in VariantCtors(vs[k]);
    InVariantCtors(vs[k], c);
  }

  lemma PinnedPayload(vs: seq<VariantTy>, k: nat, inner: Pattern, c: Ctor)
    requires WellFormed(Enum(vs)) && k < |vs| && c.CEnum? && c.tag == vs[k].name && c.inner.Some? && vs[k].payload.Some?
    requires Pins(inner, c.inner.value, vs[k].payload.value)
    ensures Pins(EnumPattern(k, vs[k].name, Some(inner)), c, Enum(vs))
  {
    var p := EnumPattern(k, vs[k].name, Some(inner));
    forall v | HasType(v, Enum(vs)) && Matches(p, v) ensures Belongs(v, c, Enum(vs)) {
      assert HasType(v.payload.value, vs[k].payload.value) && Matches(inner, v.payload.value);
    }
  }

  lemma PinnedTag(vs: seq<VariantTy>, k: nat, c: Ctor)
    requires WellFormed(Enum(vs)) && k < |vs| && c.CEnum? && c.tag == vs[k].name && c.inner.None? && vs[k].payload.None?
    ensures Pins(EnumPattern(k, vs[k].name, None), c, Enum(vs))
  {
  }

  ghost predicate PinsFields(pfs: seq<FieldPattern>, n: nat, c: Ctor, fs: seq<FieldTy>)
    requires c.CStruct? && |c.fields| == |fs| >= n
  {
    && |pfs| == n
    && forall i :: 0 <= i < n ==>
         pfs[i].index == i && pfs[i].name == fs[i].name && Pins(pfs[i].pattern, c.fields[i].ctor, fs[i].ty)
  }

  lemma {:induction false} PinningFields(c: Ctor, fs: seq<FieldTy>) returns (pfs: seq<FieldPattern>)
    requires c.CStruct? && RowOf(c.fields, fs)
    requires forall i :: 0 <= i < |fs| ==> WellFormed(fs[i].ty)
    ensures PinsFields(pfs, |fs|, c, fs)
    decreases fs, 0
  {
    pfs := [];
    for k := 0 to |fs|
      invariant PinsFields(pfs, k, c, fs)
    {
      var inner := PinningPattern(c.fields[k].ctor, fs[k].ty);
      pfs := pfs + [FieldPattern(fs[k].name, k, inner)];
    }
  }

  lemma PinnedStruct(pfs: seq<FieldPattern>, c: Ctor, fs: seq<FieldTy>)
    requires fs != [] && c.CStruct? && RowOf(c.fields, fs) && PinsFields(pfs, |fs|, c, fs)
    requires forall i, j :: 0 <= i < j < |fs| ==> fs[i].name != fs[j].name
    ensures Pins(StructPattern(pfs), c, Struct(fs))
  {
    var p, t := StructPattern(pfs), Struct(fs);
    forall i | 0 <= i < |pfs| ensures FindField(c.fields, pfs[i].name) == i {
      StructFieldFound(fs, c.fields, i);
    }
    forall v | HasType(v, t) && Matches(p, v) ensures Belongs(v, c, t) {
      PinnedValue(pfs, c, fs, v);
    }
  }

  lemma PinnedValue(pfs: seq<FieldPattern>, c: Ctor, fs: seq<FieldTy>, v: Value)
    requires c.CStruct? && RowOf(c.fields, fs) && PinsFields(pfs, |fs|, c, fs)
    requires HasType(v, Struct(fs)) && Matches(StructPattern(pfs), v)
    ensures Belongs(v, c, Struct(fs))
  {
    forall i | 0 <= i < |fs| ensures Belongs(v.fields[i], c.fields[i].ctor, fs[i].ty) {
      assert Pins(pfs[i].pattern, c.fields[i].ctor, fs[i].ty);
      assert Matches(pfs[i].pattern, v.fields[pfs[i].index]);
    }
  }

  /** One pinning arm per constructor: accepted, and silent on everything unreached. */
  lemma PinningArms(t: Ty) returns (arms: seq<Arm>)
    requires WellFormed(t) && Ctors(t) != []
    ensures AcceptedMatch(arms, t)
    ensures forall v :: HasType(v, t) && !Reached(v, t) ==> FirstMatch(PatternsOf(arms), v) == |arms|
  {
    arms := PinningEach(t);
    PinningAccepted(arms, t);
    forall v | HasType(v, t) && !Reached(v, t) ensures FirstMatch(PatternsOf(arms), v) == |arms| {
      PinningSilent(arms, t, v);
    }
  }

  ghost predicate PinsEach(arms: seq<Arm>, t: Ty) {
    |arms| == |Ctors(t)| && forall i :: 0 <= i < |arms| ==> Pins(arms[i].pattern, Ctors(t)[i], t)
  }

  lemma PinningEach(t: Ty) returns (arms: seq<Arm>)
    requires WellFormed(t)
    ensures PinsEach(arms, t)
  {
    var cs := Ctors(t);
    arms := [];
    for k := 0 to |cs|
      invariant |arms| == k && forall i :: 0 <= i < k ==> Pins(arms[i].pattern, cs[i], t)
    {
      var p := PinningPattern(cs[k], t);
      arms := arms + [Arm(p, 0)];
    }
  }

  lemma PinningAccepted(arms: seq<Arm>, t: Ty)
    requires WellFormed(t) && Ctors(t) != [] && PinsEach(arms, t)
    ensures AcceptedMatch(arms, t)
  {
    var ps, cs := PatternsOf(arms), Ctors(t);
    forall i | 0 <= i < |ps| ensures WellTyped(ps[i], t) && Pins(ps[i], cs[i], t) {
      assert Pins(arms[i].pattern, cs[i], t);
    }
    TypedPatternsPresent(ps, t);
    forall j | 0 <= j < |cs| ensures Claimant(ps, cs[j]) == j {
      PinsClaimOwn(ps, j, t);
    }
    forall u | 0 <= u < |ps| ensures Score(Claims(ps, cs), u) > 0 {
      assert Claims(ps, cs)[u] == u;
    }
  }

  lemma PinningSilent(arms: seq<Arm>, t: Ty, v: Value)
    requires WellFormed(t) && PinsEach(arms, t) && HasType(v, t) && !Reached(v, t)
    ensures FirstMatch(PatternsOf(arms), v) == |arms|
  {
    var i := FirstMatch(PatternsOf(arms), v);
    if i < |arms| {
      assert Pins(arms[i].pattern, Ctors(t)[i], t);
      BelongingValueIsReached(v, Ctors(t)[i], t);
    }
  }

  lemma PinsClaimOwn(ps: seq<Pattern>, j: nat, t: Ty)
    requires WellFormed(t) && |ps| == |Ctors(t)| && j < |ps| && AllPresent(ps, Ctors(t))
    requires forall i :: 0 <= i < |ps| ==> Pins(ps[i], Ctors(t)[i], t)
    ensures Claimant(ps, Ctors(t)[j]) == j
  {
    var cs := Ctors(t);
    var i := Claimant(ps, cs[j]);
    assert PatternMatches(ps[j], cs[j]);
    if i < j {
      var v := Inhabited(cs[j], t);
      ClaimedMeansMatched(ps[i], cs[j], v, t);
      BelongsToAtMostOne(v, cs[i], cs[j], t);
      CtorsNoDuplicates(t);
    }
  }

  ghost predicate MatchIsSafe(arms: seq<Arm>, v: Value, t: Ty) {
    AcceptedMatch(arms, t) && HasType(v, t) ==> Structured(arms) && RunMatch(MatchCodeFor(arms, 0), v).Ran?
  }

  /** Main result: every accepted match on t is crash-free exactly when t has no rule-less
      part, or has no constructor at all (then every match on it is rejected). */
  lemma AcceptanceIsSafeExactlyWhen(t: Ty)
    requires WellFormed(t)
    ensures (Supported(t) || Ctors(t) == []) <==> forall arms, v :: MatchIsSafe(arms, v, t)
  {
    if Supported(t) || Ctors(t) == [] {
      forall arms, v ensures MatchIsSafe(arms, v, t) {
        if AcceptedMatch(arms, t) && HasType(v, t) {
          if Ctors(t) == [] {
            NothingAcceptedWithoutCtors(arms, t);
          } else {
            SupportedIsReached(v, t);
            AcceptedNeverCrashes(arms, 0, v, t);
          }
        }
      }
    } else {
      var arms := PinningArms(t);
      var v := UnreachedValue(t);
      TypedArmsStructured(arms, t);
      forall k | 0 <= k < |arms| ensures WellTyped(arms[k].pattern, t) { assert WellTyped(PatternsOf(arms)[k], t); }
      CompiledMatchIsFirstMatch(arms, 0, v, t);
      assert !MatchIsSafe(arms, v, t);
    }
  }

  lemma NothingAcceptedWithoutCtors(arms: seq<Arm>, t: Ty)
    requires Ctors(t) == []
    ensures !AcceptedMatch(arms, t)
  {
    var ps := PatternsOf(arms);
    if arms != [] && AllTyped(ps, t) {
      assert WellTyped(ps[0], t);
      assert !IsInnumerableLiteral(ps[0]);
      assert Score(Claims(ps, Ctors(t)), 0) == 0;
    }
  }
}
