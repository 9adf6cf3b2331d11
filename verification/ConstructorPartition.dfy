/** The generated constructors partition the values of a type. */
module ConstructorPartition {
  import opened Wrappers
  import opened PatternTypes
  import opened Constructors

  /** No value inside v is typed by a rule-less type. */
  ghost predicate Reached(v: Value, t: Ty)
    decreases t
  {
    match t
    case BareVariant(_, _) => false
    case Unsupported => false
    case Enum(vs) =>
      v.EnumV? && v.tag < |vs| && v.payload.Some? && vs[v.tag].payload.Some? ==>
        Reached(v.payload.value, vs[v.tag].payload.value)
    case Struct(fs) =>
      v.StructV? && |v.fields| == |fs| ==> forall i :: 0 <= i < |fs| ==> Reached(v.fields[i], fs[i].ty)
    case _ => true
  }

  ghost predicate NoDuplicates<T>(s: seq<T>) {
    forall i, j :: 0 <= i < j < |s| ==> s[i] != s[j]
  }

  /** Number of constructors: enum variants add, struct fields multiply. */
  ghost function Count(t: Ty): nat
    decreases t
  {
    match t
    case Bool => 2
    case BareVariant(_, _) => 0
    case Unsupported => 0
    case Enum(vs) => CountVariants(vs)
    case Struct(fs) => CountFields(fs)
    case _ => 1
  }

  ghost function CountVariants(vs: seq<VariantTy>): nat
    decreases vs
  {
    if vs == [] then 0
    else (if vs[0].payload.Some? then Count(vs[0].payload.value) else 1) + CountVariants(vs[1..])
  }

  ghost function CountFields(fs: seq<FieldTy>): nat
    decreases fs
  {
    if fs == [] then 1 else Count(fs[0].ty) * CountFields(fs[1..])
  }

  // ---------- membership ----------

  lemma {:induction false} InEnumCtors(vs: seq<VariantTy>, c: Ctor)
    ensures c in EnumCtors(vs) <==> exists k :: 0 <= k < |vs| && c in VariantCtors(vs[k])
    decreases |vs|
  {
    if vs != [] {
      var n := |vs| - 1;
      InEnumCtors(vs[..n], c);
      if c in EnumCtors(vs[..n]) {
        var k :| 0 <= k < n && c in VariantCtors(vs[..n][k]);
        assert c in VariantCtors(vs[k]);
      }
      forall k | 0 <= k < |vs| && c in VariantCtors(vs[k]) ensures c in EnumCtors(vs) {
        if k < n { assert vs[..n][k] == vs[k]; }
      }
    }
  }

  lemma {:induction false} InCross(rows: seq<seq<FieldCtor>>, cs: seq<FieldCtor>, row: seq<FieldCtor>)
    ensures row in Cross(rows, cs) <==> row != [] && row[..|row| - 1] in rows && row[|row| - 1] in cs
    decreases |rows|
  {
    if rows != [] {
      var n := |rows| - 1;
      InCross(rows[..n], cs, row);
      assert rows == rows[..n] + [rows[n]];
      if row in Extend(rows[n], cs) {
        assert row[..|row| - 1] == rows[n];
      }
      if row != [] && row[..|row| - 1] == rows[n] && row[|row| - 1] in cs {
        var k :| 0 <= k < |cs| && cs[k] == row[|row| - 1];
        assert row == rows[n] + [cs[k]] == Extend(rows[n], cs)[k];
      }
    }
  }

  ghost predicate RowOf(row: seq<FieldCtor>, fs: seq<FieldTy>) {
    && |row| == |fs|
    && forall i :: 0 <= i < |fs| ==> row[i].name == fs[i].name && row[i].ctor in Ctors(fs[i].ty)
  }

  lemma RowOfSplits(fs: seq<FieldTy>, row: seq<FieldCtor>)
    requires |row| == |fs| > 0
    ensures RowOf(row, fs) <==>
      && RowOf(row[..|row| - 1], fs[..|fs| - 1])
      && row[|row| - 1] in Tagged(fs[|fs| - 1].name, Ctors(fs[|fs| - 1].ty))
  {
    var n := |fs| - 1;
    InTagged(fs[n].name, Ctors(fs[n].ty), row[n]);
    if RowOf(row[..n], fs[..n]) {
      forall i | 0 <= i < n ensures row[i].name == fs[i].name && row[i].ctor in Ctors(fs[i].ty) {
        assert row[..n][i] == row[i] && fs[..n][i] == fs[i];
      }
    }
  }

  lemma InTagged(name: Ident, cs: seq<Ctor>, f: FieldCtor)
    ensures f in Tagged(name, cs) <==> f.name == name && f.ctor in cs
  {
    if f.name == name && f.ctor in cs {
      var k :| 0 <= k < |cs| && cs[k] == f.ctor;
      assert Tagged(name, cs)[k] == f;
    }
  }

  lemma {:induction false} InRows(fs: seq<FieldTy>, row: seq<FieldCtor>)
    ensures row in Rows(fs) <==> RowOf(row, fs)
    decreases |fs|
  {
    if fs != [] {
      var n := |fs| - 1;
      InCross(Rows(fs[..n]), Tagged(fs[n].name, Ctors(fs[n].ty)), row);
      if row != [] {
        InRows(fs[..n], row[..|row| - 1]);
        if |row| == |fs| { RowOfSplits(fs, row); }
      }
    }
  }

  lemma InStructCtors(fs: seq<FieldTy>, c: Ctor)
    ensures c in Ctors(Struct(fs)) <==> c.CStruct? && RowOf(c.fields, fs)
  {
    var rows := Rows(fs);
    if c in Structs(rows) {
      var i :| 0 <= i < |rows| && Structs(rows)[i] == c;
      InRows(fs, rows[i]);
    }
    if c.CStruct? && RowOf(c.fields, fs) {
      InRows(fs, c.fields);
      var i :| 0 <= i < |rows| && rows[i] == c.fields;
      assert Structs(rows)[i] == c;
    }
  }

  lemma InVariantCtors(v: VariantTy, c: Ctor)
    ensures c in VariantCtors(v) <==>
      && c.CEnum? && c.tag == v.name && c.inner.Some? == v.payload.Some?
      && (c.inner.Some? ==> c.inner.value in Ctors(v.payload.value))
  {
    if v.payload.Some? && c.CEnum? && c.tag == v.name && c.inner.Some? && c.inner.value in Ctors(v.payload.value) {
      var cs := Ctors(v.payload.value);
      var i :| 0 <= i < |cs| && cs[i] == c.inner.value;
      assert Wrap(v.name, cs)[i] == c;
    }
  }

  // ---------- every value lies in exactly one constructor ----------

  lemma {:induction false} BelongsToAtMostOne(v: Value, c: Ctor, d: Ctor, t: Ty)
    requires Belongs(v, c, t) && Belongs(v, d, t)
    ensures c == d
    decreases c
  {
    match c {
      case CEnum(tag, inner) =>
        if inner.Some? {
          BelongsToAtMostOne(v.payload.value, inner.value, d.inner.value, t.variants[v.tag].payload.value);
        }
      case CStruct(fs) =>
        forall i | 0 <= i < |fs| ensures fs[i] == d.fields[i] {
          BelongsToAtMostOne(v.fields[i], fs[i].ctor, d.fields[i].ctor, t.fields[i].ty);
        }
      case _ =>
    }
  }

  lemma {:induction false} ReachedValueBelongs(v: Value, t: Ty) returns (c: Ctor)
    requires HasType(v, t) && Reached(v, t)
    ensures c in Ctors(t) && Belongs(v, c, t)
    decreases t
  {
    match t {
      case Unit => c := CUnit;
      case Char => c := CChar;
      case Int(_) => c := CInt;
      case String => c := CString;
      case TypeVar => c := CTypeVar;
      case Bool => c := if v.b then CTrue else CFalse;
      case Enum(vs) =>
        if v.payload.Some? {
          var inner := ReachedValueBelongs(v.payload.value, vs[v.tag].payload.value);
          c := CEnum(vs[v.tag].name, Some(inner));
        } else {
          c := CEnum(vs[v.tag].name, None);
        }
        InVariantCtors(vs[v.tag], c);
        InEnumCtors(vs, c);
      case Struct(fs) =>
        var row: seq<FieldCtor> := [];
        for k := 0 to |fs|
          invariant |row| == k
          invariant forall i :: 0 <= i < k ==>
            row[i].name == fs[i].name && row[i].ctor in Ctors(fs[i].ty) && Belongs(v.fields[i], row[i].ctor, fs[i].ty)
        {
          var inner := ReachedValueBelongs(v.fields[k], fs[k].ty);
          row := row + [FieldCtor(fs[k].name, inner)];
        }
        c := CStruct(row);
        InStructCtors(fs, c);
    }
  }

  lemma {:induction false} BelongingValueIsReached(v: Value, c: Ctor, t: Ty)
    requires HasType(v, t) && c in Ctors(t) && Belongs(v, c, t) && WellFormed(t)
    ensures Reached(v, t)
    decreases t
  {
    match t {
      case Enum(vs) =>
        InEnumCtors(vs, c);
        var k :| 0 <= k < |vs| && c in VariantCtors(vs[k]);
        InVariantCtors(vs[k], c);
        assert c.tag == vs[k].name == vs[v.tag].name;
        assert k == v.tag;
        if c.inner.Some? {
          BelongingValueIsReached(v.payload.value, c.inner.value, vs[k].payload.value);
        }
      case Struct(fs) =>
        InStructCtors(fs, c);
        forall i | 0 <= i < |fs| ensures Reached(v.fields[i], fs[i].ty) {
          BelongingValueIsReached(v.fields[i], c.fields[i].ctor, fs[i].ty);
        }
      case _ =>
    }
  }

  lemma {:induction false} SupportedIsReached(v: Value, t: Ty)
    requires Supported(t)
    ensures Reached(v, t)
    decreases t
  {
    match t {
      case Enum(vs) =>
        if v.EnumV? && v.tag < |vs| && v.payload.Some? && vs[v.tag].payload.Some? {
          SupportedIsReached(v.payload.value, vs[v.tag].payload.value);
        }
      case Struct(fs) =>
        if v.StructV? && |v.fields| == |fs| {
          forall i | 0 <= i < |fs| ensures Reached(v.fields[i], fs[i].ty) {
            SupportedIsReached(v.fields[i], fs[i].ty);
          }
        }
      case _ =>
    }
  }

  // ---------- the list has no duplicates ----------

  lemma {:induction false} CrossNoDuplicates(rows: seq<seq<FieldCtor>>, cs: seq<FieldCtor>)
    requires NoDuplicates(rows) && NoDuplicates(cs)
    ensures NoDuplicates(Cross(rows, cs))
    decreases |rows|
  {
    if rows != [] {
      var n := |rows| - 1;
      CrossNoDuplicates(rows[..n], cs);
      var front, back := Cross(rows[..n], cs), Extend(rows[n], cs);
      assert NoDuplicates(back) by {
        forall i, j | 0 <= i < j < |back| ensures back[i] != back[j] {
          assert back[i][|rows[n]|] == cs[i] && back[j][|rows[n]|] == cs[j];
        }
      }
      forall i, j | 0 <= i < |front| && 0 <= j < |back| ensures front[i] != back[j] {
        InCross(rows[..n], cs, front[i]);
        assert back[j][..|back[j]| - 1] == rows[n];
      }
    }
  }

  lemma {:induction false} RowsNoDuplicates(fs: seq<FieldTy>)
    requires forall i :: 0 <= i < |fs| ==> NoDuplicates(Ctors(fs[i].ty))
    ensures NoDuplicates(Rows(fs))
    decreases |fs|
  {
    if fs != [] {
      var n := |fs| - 1;
      RowsNoDuplicates(fs[..n]);
      CrossNoDuplicates(Rows(fs[..n]), Tagged(fs[n].name, Ctors(fs[n].ty)));
    }
  }

  lemma {:induction false} EnumCtorsNoDuplicates(vs: seq<VariantTy>)
    requires forall i, j :: 0 <= i < j < |vs| ==> vs[i].name != vs[j].name
    requires forall i :: 0 <= i < |vs| ==> NoDuplicates(VariantCtors(vs[i]))
    ensures NoDuplicates(EnumCtors(vs))
    decreases |vs|
  {
    if vs != [] {
      var n := |vs| - 1;
      EnumCtorsNoDuplicates(vs[..n]);
      var front, back := EnumCtors(vs[..n]), VariantCtors(vs[n]);
      forall i, j | 0 <= i < |front| && 0 <= j < |back| ensures front[i] != back[j] {
        InEnumCtors(vs[..n], front[i]);
        var k :| 0 <= k < n && front[i] in VariantCtors(vs[..n][k]);
        InVariantCtors(vs[k], front[i]);
        InVariantCtors(vs[n], back[j]);
      }
    }
  }

  lemma {:induction false} CtorsNoDuplicates(t: Ty)
    requires WellFormed(t)
    ensures NoDuplicates(Ctors(t))
    decreases t
  {
    match t {
      case Enum(vs) =>
        forall i | 0 <= i < |vs| ensures NoDuplicates(VariantCtors(vs[i])) {
          if vs[i].payload.Some? { CtorsNoDuplicates(vs[i].payload.value); }
        }
        EnumCtorsNoDuplicates(vs);
      case Struct(fs) =>
        forall i | 0 <= i < |fs| ensures NoDuplicates(Ctors(fs[i].ty)) { CtorsNoDuplicates(fs[i].ty); }
        RowsNoDuplicates(fs);
      case _ =>
    }
  }

  /** Main result: a value lies in exactly one generated constructor, unless part of it has a rule-less type. */
  lemma Partition(v: Value, t: Ty)
    requires WellFormed(t) && HasType(v, t)
    ensures Reached(v, t) <==> exists i :: 0 <= i < |Ctors(t)| && Belongs(v, Ctors(t)[i], t)
    ensures forall i, j | 0 <= i < |Ctors(t)| && 0 <= j < |Ctors(t)| ::
      Belongs(v, Ctors(t)[i], t) && Belongs(v, Ctors(t)[j], t) ==> i == j
    ensures Supported(t) ==> Reached(v, t)
  {
    if Supported(t) { SupportedIsReached(v, t); }
    if Reached(v, t) {
      var c := ReachedValueBelongs(v, t);
      var i :| 0 <= i < |Ctors(t)| && Ctors(t)[i] == c;
    }
    forall i | 0 <= i < |Ctors(t)| && Belongs(v, Ctors(t)[i], t) ensures Reached(v, t) {
      BelongingValueIsReached(v, Ctors(t)[i], t);
    }
    CtorsNoDuplicates(t);
    forall i, j | 0 <= i < |Ctors(t)| && 0 <= j < |Ctors(t)|
      && Belongs(v, Ctors(t)[i], t) && Belongs(v, Ctors(t)[j], t)
      ensures i == j
    {
      BelongsToAtMostOne(v, Ctors(t)[i], Ctors(t)[j], t);
    }
  }

  // ---------- every constructor is inhabited ----------

  lemma {:induction false} Inhabited(c: Ctor, t: Ty) returns (v: Value)
    requires c in Ctors(t)
    ensures HasType(v, t) && Belongs(v, c, t)
    decreases t
  {
    match t {
      case Unit => v := UnitV;
      case Char => v := CharV(0);
      case Int(_) => v := IntV(0);
      case String => v := StringV([], 0);
      case TypeVar => v := OpaqueV(0);
      case Bool => v := BoolV(c.CTrue?);
      case Enum(vs) =>
        InEnumCtors(vs, c);
        var k :| 0 <= k < |vs| && c in VariantCtors(vs[k]);
        InVariantCtors(vs[k], c);
        if c.inner.Some? {
          var inner := Inhabited(c.inner.value, vs[k].payload.value);
          v := EnumV(k, Some(inner));
        } else {
          v := EnumV(k, None);
        }
      case Struct(fs) =>
        InStructCtors(fs, c);
        var vals: seq<Value> := [];
        for k := 0 to |fs|
          invariant |vals| == k
          invariant forall i :: 0 <= i < k ==>
            HasType(vals[i], fs[i].ty) && Belongs(vals[i], c.fields[i].ctor, fs[i].ty)
        {
          var inner := Inhabited(c.fields[k].ctor, fs[k].ty);
          vals := vals + [inner];
        }
        v := StructV(vals);
    }
  }

  // ---------- counting ----------

  lemma {:induction false} CountsVariants(vs: seq<VariantTy>)
    requires forall i :: 0 <= i < |vs| ==> vs[i].payload.Some? ==>
      |Ctors(vs[i].payload.value)| == Count(vs[i].payload.value)
    ensures |EnumCtors(vs)| == CountVariants(vs)
  {
    for k := 0 to |vs|
      invariant |EnumCtors(vs[..k])| + CountVariants(vs[k..]) == CountVariants(vs)
    {
      assert vs[..k + 1][..k] == vs[..k];
      assert vs[k..][1..] == vs[k + 1..];
    }
    assert vs[..|vs|] == vs;
  }

  lemma {:induction false} CountsFields(fs: seq<FieldTy>)
    requires forall i :: 0 <= i < |fs| ==> |Ctors(fs[i].ty)| == Count(fs[i].ty)
    ensures |Rows(fs)| == CountFields(fs)
  {
    for k := 0 to |fs|
      invariant |Rows(fs[..k])| * CountFields(fs[k..]) == CountFields(fs)
    {
      assert fs[..k + 1][..k] == fs[..k];
      assert fs[k..][1..] == fs[k + 1..];
      MulAssociates(|Rows(fs[..k])|, |Ctors(fs[k].ty)|, CountFields(fs[k + 1..]));
    }
    assert fs[..|fs|] == fs;
  }

  lemma MulAssociates(a: nat, b: nat, c: nat)
    ensures a * (b * c) == (a * b) * c
  {
  }

  lemma {:induction false} Counts(t: Ty)
    ensures |Ctors(t)| == Count(t)
    decreases t
  {
    match t {
      case Enum(vs) =>
        forall i | 0 <= i < |vs| && vs[i].payload.Some?
          ensures |Ctors(vs[i].payload.value)| == Count(vs[i].payload.value)
        {
          Counts(vs[i].payload.value);
        }
        CountsVariants(vs);
      case Struct(fs) =>
        forall i | 0 <= i < |fs| ensures |Ctors(fs[i].ty)| == Count(fs[i].ty) { Counts(fs[i].ty); }
        CountsFields(fs);
      case _ =>
    }
  }
}
