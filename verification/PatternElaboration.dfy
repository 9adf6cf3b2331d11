/** Elaboration of a parsed pattern against the type of its target. */
module PatternElaboration {
  import opened Wrappers
  import opened PatternTypes

  datatype Literal = UnitLit | CharLit(c: Byte) | NumericLit(i: int) | BoolLit(b: bool) | StringLit(s: Bytes)

  datatype ParsedPattern =
    | PWildcard
    | PLiteral(literal: Literal)
    | PVariable(name: Ident)
    | PEnum(tag: Ident, payload: Option<ParsedPattern>)
    | PStruct(fields: seq<ParsedField>)

  datatype ParsedField = ParsedField(name: Ident, pattern: ParsedPattern)

  /** The parsed pattern a typed pattern came from. */
  ghost function Erase(p: Pattern): ParsedPattern
    decreases p
  {
    match p
    case Wildcard => PWildcard
    case Variable(name) => PVariable(name)
    case LiteralUnit => PLiteral(UnitLit)
    case LiteralChar(c) => PLiteral(CharLit(c))
    case LiteralInteger(i) => PLiteral(NumericLit(i))
    case LiteralBool(b) => PLiteral(BoolLit(b))
    case LiteralString(s) => PLiteral(StringLit(s))
    case EnumPattern(_, tag, payload) =>
      PEnum(tag, if payload.Some? then Some(Erase(payload.value)) else None)
    case StructPattern(fs) =>
      PStruct(seq(|fs|, i requires 0 <= i < |fs| => ParsedField(fs[i].name, Erase(fs[i].pattern))))
  }

  /** The patterns that make sense for a target of type t. */
  ghost predicate Fits(p: ParsedPattern, t: Ty)
    decreases p
  {
    match p
    case PWildcard => true
    case PVariable(_) => true
    case PLiteral(UnitLit) => t.Unit?
    case PLiteral(CharLit(_)) => t.Char?
    case PLiteral(NumericLit(i)) => t.Int? && Lowest(t.width) <= i <= Highest(t.width)
    case PLiteral(BoolLit(_)) => t.Bool?
    case PLiteral(StringLit(_)) => t.String?
    case PEnum(tag, payload) =>
      && HasVariants(t)
      && exists k ::
           && 0 <= k < |t.variants| && t.variants[k].name == tag
           && (payload.Some? ==> t.variants[k].payload.Some? && Fits(payload.value, t.variants[k].payload.value))
    case PStruct(fs) =>
      HasFields(t) && fs != [] && forall i :: 0 <= i < |fs| ==> FieldFits(fs[i], t)
  }

  ghost predicate FieldFits(f: ParsedField, t: Ty)
    requires HasFields(t)
    decreases f
  {
    exists k :: 0 <= k < |FieldsOf(t)| && FieldsOf(t)[k].name == f.name && Fits(f.pattern, FieldsOf(t)[k].ty)
  }

  method EvalPattern(p: ParsedPattern, t: Ty) returns (r: Result<Pattern>)
    requires WellFormed(t)
    ensures r.Ok? <==> Fits(p, t)
    ensures r.Ok? ==> WellTyped(r.value, t) && Erase(r.value) == p
    decreases p, 1
  {
    match p {
      case PWildcard => return Ok(Wildcard);
      case PVariable(name) => return Ok(Variable(name));
      case PLiteral(literal) =>
        match literal {
          case UnitLit => return if t.Unit? then Ok(LiteralUnit) else Err;
          case CharLit(c) => return if t.Char? then Ok(LiteralChar(c)) else Err;
          case NumericLit(i) =>
            return if t.Int? && Lowest(t.width) <= i <= Highest(t.width) then Ok(LiteralInteger(i)) else Err;
          case BoolLit(b) => return if t.Bool? then Ok(LiteralBool(b)) else Err;
          case StringLit(s) => return if t.String? then Ok(LiteralString(s)) else Err;
        }
      case PEnum(tag, payload) =>
        if !HasVariants(t) { return Err; }
        var k := 0;
        while k < |t.variants| && t.variants[k].name != tag
          invariant k <= |t.variants| && forall i :: 0 <= i < k ==> t.variants[i].name != tag
        {
          k := k + 1;
        }
        if k == |t.variants| { return Err; }
        assert forall i :: 0 <= i < |t.variants| && t.variants[i].name == tag ==> i == k;
        if payload.None? { return Ok(EnumPattern(k, tag, None)); }
        if t.variants[k].payload.None? { return Err; }
        var inner := EvalPattern(payload.value, t.variants[k].payload.value);
        if inner.Err? { return Err; }
        return Ok(EnumPattern(k, tag, Some(inner.value)));
      case PStruct(fs) =>
        if fs == [] || !HasFields(t) { return Err; }
        var typed := EvalFields(fs, t);
        if typed.Err? { return Err; }
        ghost var erased := Erase(StructPattern(typed.value)).fields;
        assert forall i :: 0 <= i < |fs| ==> FieldTyped(typed.value[i], fs[i], t) && erased[i] == fs[i];
        return Ok(StructPattern(typed.value));
    }
  }

  ghost predicate FieldTyped(typed: FieldPattern, f: ParsedField, t: Ty)
    requires HasFields(t)
  {
    && typed.name == f.name && Erase(typed.pattern) == f.pattern
    && typed.index < |FieldsOf(t)| && FieldsOf(t)[typed.index].name == typed.name
    && WellTyped(typed.pattern, FieldsOf(t)[typed.index].ty)
  }

  method EvalFields(fs: seq<ParsedField>, t: Ty) returns (r: Result<seq<FieldPattern>>)
    requires WellFormed(t) && HasFields(t)
    ensures r.Ok? <==> forall i :: 0 <= i < |fs| ==> FieldFits(fs[i], t)
    ensures r.Ok? ==> |r.value| == |fs| && forall i :: 0 <= i < |fs| ==> FieldTyped(r.value[i], fs[i], t)
    decreases fs, 0
  {
    var done: seq<FieldPattern> := [];
    for i := 0 to |fs|
      invariant |done| == i
      invariant forall j :: 0 <= j < i ==> FieldFits(fs[j], t) && FieldTyped(done[j], fs[j], t)
    {
      var k := 0;
      while k < |FieldsOf(t)| && FieldsOf(t)[k].name != fs[i].name
        invariant k <= |FieldsOf(t)| && forall j :: 0 <= j < k ==> FieldsOf(t)[j].name != fs[i].name
      {
        k := k + 1;
      }
      if k == |FieldsOf(t)| {
        assert !FieldFits(fs[i], t);
        return Err;
      }
      assert forall j :: 0 <= j < |FieldsOf(t)| && FieldsOf(t)[j].name == fs[i].name ==> j == k;
      var inner := EvalPattern(fs[i].pattern, FieldsOf(t)[k].ty);
      if inner.Err? {
        assert !FieldFits(fs[i], t);
        return Err;
      }
      assert FieldFits(fs[i], t);
      done := done + [FieldPattern(fs[i].name, k, inner.value)];
    }
    return Ok(done);
  }

  // ---------- fitting is having a typed pattern, and only one ----------

  lemma {:induction false} TypedFits(p: Pattern, t: Ty)
    requires WellTyped(p, t)
    ensures Fits(Erase(p), t)
    decreases p
  {
    match p {
      case EnumPattern(index, tag, payload) =>
        if payload.Some? { TypedFits(payload.value, t.variants[index].payload.value); }
        assert t.variants[index].name == tag;
      case StructPattern(fs) =>
        var parsed := Erase(p).fields;
        forall i | 0 <= i < |parsed| ensures FieldFits(parsed[i], t) {
          TypedFits(fs[i].pattern, FieldsOf(t)[fs[i].index].ty);
          assert FieldsOf(t)[fs[i].index].name == parsed[i].name;
        }
      case _ =>
    }
  }

  lemma {:induction false} FittingIsTyped(p: ParsedPattern, t: Ty) returns (q: Pattern)
    requires Fits(p, t)
    ensures WellTyped(q, t) && Erase(q) == p
    decreases p
  {
    match p {
      case PWildcard => q := Wildcard;
      case PVariable(name) => q := Variable(name);
      case PLiteral(UnitLit) => q := LiteralUnit;
      case PLiteral(CharLit(c)) => q := LiteralChar(c);
      case PLiteral(NumericLit(i)) => q := LiteralInteger(i);
      case PLiteral(BoolLit(b)) => q := LiteralBool(b);
      case PLiteral(StringLit(s)) => q := LiteralString(s);
      case PEnum(tag, payload) =>
        var k :| && 0 <= k < |t.variants| && t.variants[k].name == tag
          && (payload.Some? ==> t.variants[k].payload.Some? && Fits(payload.value, t.variants[k].payload.value));
        if payload.Some? {
          var inner := FittingIsTyped(payload.value, t.variants[k].payload.value);
          q := EnumPattern(k, tag, Some(inner));
        } else {
          q := EnumPattern(k, tag, None);
        }
      case PStruct(fs) =>
        var done: seq<FieldPattern> := [];
        for i := 0 to |fs|
          invariant |done| == i && forall j :: 0 <= j < i ==> FieldTyped(done[j], fs[j], t)
        {
          assert FieldFits(fs[i], t);
          var k :| 0 <= k < |FieldsOf(t)| && FieldsOf(t)[k].name == fs[i].name
            && Fits(fs[i].pattern, FieldsOf(t)[k].ty);
          var inner := FittingIsTyped(fs[i].pattern, FieldsOf(t)[k].ty);
          done := done + [FieldPattern(fs[i].name, k, inner)];
        }
        q := StructPattern(done);
        assert forall i :: 0 <= i < |fs| ==> FieldTyped(done[i], fs[i], t) && Erase(q).fields[i] == fs[i];
    }
  }

  /** Main result: a parsed pattern fits a type exactly when some typed pattern comes from it. */
  lemma {:induction false} FitsExactlyWhen(p: ParsedPattern, t: Ty)
    ensures Fits(p, t) <==> exists q :: WellTyped(q, t) && Erase(q) == p
  {
    if Fits(p, t) { var q := FittingIsTyped(p, t); }
    if q :| WellTyped(q, t) && Erase(q) == p { TypedFits(q, t); }
  }

  /** And there is no other one. */
  lemma {:induction false} TypedPatternIsUnique(p: Pattern, q: Pattern, t: Ty)
    requires WellFormed(t) && WellTyped(p, t) && WellTyped(q, t) && Erase(p) == Erase(q)
    ensures p == q
    decreases p
  {
    match p {
      case EnumPattern(index, _, payload) =>
        assert t.variants[index].name == t.variants[q.index].name;
        if payload.Some? { TypedPatternIsUnique(payload.value, q.payload.value, t.variants[index].payload.value); }
      case StructPattern(fs) =>
        assert |fs| == |Erase(p).fields| == |Erase(q).fields| == |q.fields|;
        forall i | 0 <= i < |fs| ensures fs[i] == q.fields[i] {
          assert Erase(p).fields[i] == Erase(q).fields[i];
          TypedPatternIsUnique(fs[i].pattern, q.fields[i].pattern, FieldsOf(t)[fs[i].index].ty);
        }
      case _ =>
    }
  }
}
