/** Types, values and typed patterns as the `when` checker and compiler see them. */
module PatternTypes {
  import opened Powers
  import opened Wrappers
  import TypePool

  type Ident = string
  type Byte = x: nat | x < 256
  const MAX_LENGTH := 0xFFFF_FFFF_FFFF_FFFF

  /** A string's length is a 64-bit number. */
  type Bytes = s: seq<Byte> | |s| <= MAX_LENGTH witness []
  type IntegerType = TypePool.IntegerType

  /** A match target's type. BareVariant is one variant of an enum, Unsupported stands for the other types
      without a constructor rule: references, pointers, floats, opaque aliases, functions. */
  datatype Ty =
    | Unit | Char | Int(width: IntegerType) | Bool | String | TypeVar
    | Enum(variants: seq<VariantTy>)
    | BareVariant(variants: seq<VariantTy>, index: nat)
    | Struct(fields: seq<FieldTy>)
    | Unsupported

  datatype VariantTy = VariantTy(name: Ident, payload: Option<Ty>)
  datatype FieldTy = FieldTy(name: Ident, ty: Ty)

  function Lowest(width: IntegerType): int {
    match width
    case I8 => -0x80
    case I16 => -0x8000
    case I32 => -0x8000_0000
    case I64 => -0x8000_0000_0000_0000
    case _ => 0
  }

  function Highest(width: IntegerType): int {
    match width
    case U8 => 0xFF
    case U16 => 0xFFFF
    case U32 => 0xFFFF_FFFF
    case U64 => MAX_LENGTH
    case I8 => 0x7F
    case I16 => 0x7FFF
    case I32 => 0x7FFF_FFFF
    case I64 => 0x7FFF_FFFF_FFFF_FFFF
  }

  /** The values of a word of that many bits, in two's complement if it is signed. */
  predicate Spans(width: IntegerType, bits: nat, signed: bool)
    requires bits > 0
  {
    && Lowest(width) == -(if signed then Power(2, bits - 1) else 0)
    && Highest(width) == Lowest(width) + Power(2, bits) - 1
  }

  lemma IntegerTypesSpan()
    ensures Spans(TypePool.U8, 8, false) && Spans(TypePool.I8, 8, true)
    ensures Spans(TypePool.U16, 16, false) && Spans(TypePool.I16, 16, true)
    ensures Spans(TypePool.U32, 32, false) && Spans(TypePool.I32, 32, true)
    ensures Spans(TypePool.U64, 64, false) && Spans(TypePool.I64, 64, true)
  {
    WordPowers();
  }

  /** A string is a struct of its length and a pointer to its bytes, besides being a type of its own. */
  function FieldsOf(t: Ty): seq<FieldTy> {
    match t
    case Struct(fs) => fs
    case String => [FieldTy("len", Int(TypePool.U64)), FieldTy("data", Unsupported)]
    case _ => []
  }

  predicate HasFields(t: Ty) {
    t.Struct? || t.String?
  }

  predicate HasVariants(t: Ty) {
    t.Enum? || t.BareVariant?
  }

  ghost predicate DistinctVariants(vs: seq<VariantTy>) {
    |vs| > 0 && forall i, j :: 0 <= i < j < |vs| ==> vs[i].name != vs[j].name
  }

  /** Variant names and field names are distinct, and an enum declares at least one variant. */
  ghost predicate WellFormed(t: Ty)
    decreases t
  {
    match t
    case Enum(vs) =>
      DistinctVariants(vs) && forall i :: 0 <= i < |vs| ==> vs[i].payload.Some? ==> WellFormed(vs[i].payload.value)
    case BareVariant(vs, k) =>
      && k < |vs| && DistinctVariants(vs)
      && forall i :: 0 <= i < |vs| ==> vs[i].payload.Some? ==> WellFormed(vs[i].payload.value)
    case Struct(fs) =>
      && (forall i, j :: 0 <= i < j < |fs| ==> fs[i].name != fs[j].name)
      && forall i :: 0 <= i < |fs| ==> WellFormed(fs[i].ty)
    case _ => true
  }

  /** No part of the type falls into the rule-less case. */
  ghost predicate Supported(t: Ty)
    decreases t
  {
    match t
    case Enum(vs) => forall i :: 0 <= i < |vs| ==> vs[i].payload.Some? ==> Supported(vs[i].payload.value)
    case Struct(fs) => forall i :: 0 <= i < |fs| ==> Supported(fs[i].ty)
    case BareVariant(_, _) => false
    case Unsupported => false
    case _ => true
  }

  /** Run-time values. An enum value carries its tag (the variant's position) and payload, a string its bytes and
      where they are. */
  datatype Value =
    | UnitV | CharV(c: Byte) | IntV(i: int) | BoolV(b: bool) | StringV(s: Bytes, data: nat)
    | OpaqueV(repr: nat)
    | EnumV(tag: nat, payload: Option<Value>)
    | StructV(fields: seq<Value>)

  predicate HasParts(v: Value) {
    v.StructV? || v.StringV?
  }

  /** What field accesses read. */
  function Parts(v: Value): seq<Value> {
    match v
    case StructV(fs) => fs
    case StringV(s, data) => [IntV(|s|), OpaqueV(data)]
    case _ => []
  }

  ghost predicate HasType(v: Value, t: Ty)
    decreases t
  {
    match t
    case Unit => v.UnitV?
    case Char => v.CharV?
    case Int(width) => v.IntV? && Lowest(width) <= v.i <= Highest(width)
    case Bool => v.BoolV?
    case String => v.StringV?
    case TypeVar => v.OpaqueV?
    case Unsupported => v.OpaqueV?
    case Enum(vs) =>
      && v.EnumV?
      && v.tag < |vs|
      && v.payload.Some? == vs[v.tag].payload.Some?
      && (v.payload.Some? ==> HasType(v.payload.value, vs[v.tag].payload.value))
    case BareVariant(vs, k) =>
      && v.EnumV?
      && v.tag == k < |vs|
      && v.payload.Some? == vs[k].payload.Some?
      && (v.payload.Some? ==> HasType(v.payload.value, vs[k].payload.value))
    case Struct(fs) =>
      && v.StructV?
      && |v.fields| == |fs|
      && forall i :: 0 <= i < |fs| ==> HasType(v.fields[i], fs[i].ty)
  }

  lemma PartsTyped(v: Value, t: Ty)
    requires HasType(v, t) && HasFields(t)
    ensures HasParts(v) && |Parts(v)| == |FieldsOf(t)|
    ensures forall i :: 0 <= i < |FieldsOf(t)| ==> HasType(Parts(v)[i], FieldsOf(t)[i].ty)
  {
  }

  datatype Pattern =
    | LiteralUnit | LiteralChar(c: Byte) | LiteralInteger(i: int) | LiteralBool(b: bool) | LiteralString(s: Bytes)
    | Variable(name: Ident)
    | EnumPattern(index: nat, tag: Ident, payload: Option<Pattern>)
    | StructPattern(fields: seq<FieldPattern>)
    | Wildcard

  datatype FieldPattern = FieldPattern(name: Ident, index: nat, pattern: Pattern)

  /** What pattern elaboration guarantees of a pattern for a target of type t. */
  ghost predicate WellTyped(p: Pattern, t: Ty)
    decreases p
  {
    match p
    case Wildcard => true
    case Variable(_) => true
    case LiteralUnit => t.Unit?
    case LiteralChar(_) => t.Char?
    case LiteralInteger(i) => t.Int? && Lowest(t.width) <= i <= Highest(t.width)
    case LiteralBool(_) => t.Bool?
    case LiteralString(_) => t.String?
    case EnumPattern(index, tag, payload) =>
      && HasVariants(t)
      && index < |t.variants|
      && t.variants[index].name == tag
      && (payload.Some? ==>
        t.variants[index].payload.Some? && WellTyped(payload.value, t.variants[index].payload.value))
    case StructPattern(fs) =>
      && HasFields(t)
      && fs != []
      && forall i :: 0 <= i < |fs| ==>
           && fs[i].index < |FieldsOf(t)|
           && FieldsOf(t)[fs[i].index].name == fs[i].name
           && WellTyped(fs[i].pattern, FieldsOf(t)[fs[i].index].ty)
  }

  /** Source-level meaning of a pattern: a variant pattern without a sub-pattern ignores the payload. */
  predicate Matches(p: Pattern, v: Value)
    decreases p
  {
    match p
    case Wildcard => true
    case Variable(_) => true
    case LiteralUnit => true
    case LiteralChar(c) => v == CharV(c)
    case LiteralInteger(i) => v == IntV(i)
    case LiteralBool(b) => v == BoolV(b)
    case LiteralString(s) => v.StringV? && v.s == s
    case EnumPattern(index, _, payload) =>
      && v.EnumV?
      && v.tag == index
      && (payload.Some? ==> v.payload.Some? && Matches(payload.value, v.payload.value))
    case StructPattern(fs) =>
      && HasParts(v)
      && forall i :: 0 <= i < |fs| ==> fs[i].index < |Parts(v)| && Matches(fs[i].pattern, Parts(v)[fs[i].index])
  }

  /** Position of the first pattern that matches v; |ps| when none does. */
  function FirstMatch(ps: seq<Pattern>, v: Value): (i: nat)
    ensures i <= |ps|
    ensures i < |ps| ==> Matches(ps[i], v)
    ensures forall j :: 0 <= j < i ==> !Matches(ps[j], v)
  {
    if ps == [] then 0
    else if Matches(ps[0], v) then 0
    else
      var r := FirstMatch(ps[1..], v);
      assert forall j :: 1 <= j < |ps| ==> ps[j] == ps[1..][j - 1];
      r + 1
  }
}
