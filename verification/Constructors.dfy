/** The finite list of trial constructors of a type, and why it partitions the type's values. */
module Constructors {
  import opened Wrappers
  import opened PatternTypes

  datatype Ctor =
    | CUnit | CChar | CInt | CString | CTypeVar | CFalse | CTrue
    | CEnum(tag: Ident, inner: Option<Ctor>)
    | CStruct(fields: seq<FieldCtor>)

  datatype FieldCtor = FieldCtor(name: Ident, ctor: Ctor)

  /** The values a constructor stands for, within type t. */
  ghost predicate Belongs(v: Value, c: Ctor, t: Ty)
    decreases c
  {
    match c
    case CUnit => v.UnitV?
    case CChar => v.CharV?
    case CInt => v.IntV?
    case CString => v.StringV?
    case CTypeVar => v.OpaqueV?
    case CFalse => v == BoolV(false)
    case CTrue => v == BoolV(true)
    case CEnum(tag, inner) =>
      && v.EnumV? && t.Enum?
      && v.tag < |t.variants|
      && t.variants[v.tag].name == tag
      && v.payload.Some? == inner.Some? == t.variants[v.tag].payload.Some?
      && (inner.Some? ==> Belongs(v.payload.value, inner.value, t.variants[v.tag].payload.value))
    case CStruct(fs) =>
      && v.StructV? && t.Struct?
      && |fs| == |v.fields| == |t.fields|
      && forall i :: 0 <= i < |fs| ==>
           fs[i].name == t.fields[i].name && Belongs(v.fields[i], fs[i].ctor, t.fields[i].ty)
  }

  // ---------- specification of the generated list ----------

  function Ctors(t: Ty): seq<Ctor>
    decreases t
  {
    match t
    case String => [CString]
    case Unit => [CUnit]
    case Char => [CChar]
    case TypeVar => [CTypeVar]
    case Int(_) => [CInt]
    case Bool => [CFalse, CTrue]
    case Enum(vs) => EnumCtors(vs)
    case Struct(fs) => Structs(Rows(fs))
    case BareVariant(_, _) => []
    case Unsupported => []
  }

  function VariantCtors(v: VariantTy): seq<Ctor>
    decreases v
  {
    match v.payload
    case None => [CEnum(v.name, None)]
    case Some(p) => Wrap(v.name, Ctors(p))
  }

  function EnumCtors(vs: seq<VariantTy>): seq<Ctor>
    decreases vs
  {
    if vs == [] then [] else EnumCtors(vs[..|vs| - 1]) + VariantCtors(vs[|vs| - 1])
  }

  /** One row of field constructors for every combination. */
  function Rows(fs: seq<FieldTy>): seq<seq<FieldCtor>>
    decreases fs
  {
    if fs == [] then [[]] else Cross(Rows(fs[..|fs| - 1]), Tagged(fs[|fs| - 1].name, Ctors(fs[|fs| - 1].ty)))
  }

  function Wrap(tag: Ident, cs: seq<Ctor>): (r: seq<Ctor>)
    ensures |r| == |cs|
    ensures forall i :: 0 <= i < |cs| ==> r[i] == CEnum(tag, Some(cs[i]))
  {
    seq(|cs|, i requires 0 <= i < |cs| => CEnum(tag, Some(cs[i])))
  }

  function Tagged(name: Ident, cs: seq<Ctor>): (r: seq<FieldCtor>)
    ensures |r| == |cs|
    ensures forall i :: 0 <= i < |cs| ==> r[i] == FieldCtor(name, cs[i])
  {
    seq(|cs|, i requires 0 <= i < |cs| => FieldCtor(name, cs[i]))
  }

  function Structs(rows: seq<seq<FieldCtor>>): (r: seq<Ctor>)
    ensures |r| == |rows|
    ensures forall i :: 0 <= i < |rows| ==> r[i] == CStruct(rows[i])
  {
    seq(|rows|, i requires 0 <= i < |rows| => CStruct(rows[i]))
  }

  function Extend(row: seq<FieldCtor>, cs: seq<FieldCtor>): (r: seq<seq<FieldCtor>>)
    ensures |r| == |cs|
    ensures forall i :: 0 <= i < |cs| ==> r[i] == row + [cs[i]]
  {
    seq(|cs|, i requires 0 <= i < |cs| => row + [cs[i]])
  }

  function Cross(rows: seq<seq<FieldCtor>>, cs: seq<FieldCtor>): (r: seq<seq<FieldCtor>>)
    ensures |r| == |rows| * |cs|
  {
    if rows == [] then [] else
      var r := Cross(rows[..|rows| - 1], cs) + Extend(rows[|rows| - 1], cs);
      assert |r| == (|rows| - 1) * |cs| + |cs|;
      r
  }

  // ---------- the generator ----------

  method GenerateConstructors(t: Ty) returns (result: seq<Ctor>)
    ensures result == Ctors(t)
    decreases t, 1
  {
    match t {
      case String => return [CString];
      case Unit => return [CUnit];
      case Char => return [CChar];
      case TypeVar => return [CTypeVar];
      case Int(_) => return [CInt];
      case Bool => return [CFalse, CTrue];
      case BareVariant(_, _) => return [];
      case Unsupported => return [];
      case Enum(vs) =>
        result := [];
        for k := 0 to |vs|
          invariant result == EnumCtors(vs[..k])
        {
          var made := GenerateVariant(vs[k]);
          assert vs[..k + 1][..k] == vs[..k];
          result := result + made;
        }
        assert vs[..|vs|] == vs;
      case Struct(fs) =>
        var allFieldCtors := GenerateFields(fs);
        // The cross product of all fields, one field at a time.
        result := [CStruct([])];
        for k := 0 to |fs|
          invariant result == Structs(Rows(fs[..k]))
        {
          result := CrossProduct(result, allFieldCtors[k], Rows(fs[..k]));
          assert fs[..k + 1][..k] == fs[..k];
        }
        assert fs[..|fs|] == fs;
    }
  }

  method GenerateVariant(v: VariantTy) returns (made: seq<Ctor>)
    ensures made == VariantCtors(v)
    decreases v, 2
  {
    match v.payload {
      case None =>
        made := [CEnum(v.name, None)];
      case Some(payload) =>
        var inner := GenerateConstructors(payload);
        made := [];
        for j := 0 to |inner|
          invariant made == Wrap(v.name, inner)[..j]
        {
          made := made + [CEnum(v.name, Some(inner[j]))];
        }
    }
  }

  method GenerateFields(fs: seq<FieldTy>) returns (all: seq<seq<FieldCtor>>)
    ensures |all| == |fs|
    ensures forall i :: 0 <= i < |fs| ==> all[i] == Tagged(fs[i].name, Ctors(fs[i].ty))
    decreases fs, 2
  {
    all := [];
    for k := 0 to |fs|
      invariant |all| == k
      invariant forall i :: 0 <= i < k ==> all[i] == Tagged(fs[i].name, Ctors(fs[i].ty))
    {
      var inner := GenerateConstructors(fs[k].ty);
      var fieldCtors: seq<FieldCtor> := [];
      for j := 0 to |inner|
        invariant fieldCtors == Tagged(fs[k].name, inner)[..j]
      {
        fieldCtors := fieldCtors + [FieldCtor(fs[k].name, inner[j])];
      }
      all := all + [fieldCtors];
    }
  }

  /** Pushes every constructor of one more field onto every accumulated struct constructor. */
  method CrossProduct(result: seq<Ctor>, fieldCtors: seq<FieldCtor>, ghost rows: seq<seq<FieldCtor>>)
    returns (newResult: seq<Ctor>)
    requires result == Structs(rows)
    ensures newResult == Structs(Cross(rows, fieldCtors))
  {
    newResult := [];
    for i := 0 to |result|
      invariant newResult == Structs(Cross(rows[..i], fieldCtors))
    {
      ghost var before := newResult;
      for j := 0 to |fieldCtors|
        invariant newResult == before + Structs(Extend(rows[i], fieldCtors))[..j]
      {
        newResult := newResult + [CStruct(result[i].fields + [fieldCtors[j]])];
      }
      assert rows[..i + 1][..i] == rows[..i];
      assert newResult == before + Structs(Extend(rows[i], fieldCtors));
    }
    assert rows[..|rows|] == rows;
  }
}
