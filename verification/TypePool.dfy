/** The hash-consed type pool. */
module TypePool {
  import opened Wrappers

  type TypeId = nat
  type ScopeId = nat
  type Ident = string

  datatype IntegerType = U8 | U16 | U32 | U64 | I8 | I16 | I32 | I64
  datatype ScalarKind = UnitType | CharType | BoolType

  /** Builtins that are never merged. */
  datatype NominalKind = PointerType | F32 | F64 | NeverType

  datatype Field = Field(name: Ident, typeId: TypeId)
  datatype Variant = Variant(name: Ident, index: nat, payload: Option<TypeId>, myTypeId: TypeId, enumTypeId: TypeId)
  datatype DefnInfo = DefnInfo(name: Ident, scope: ScopeId)
  datatype Instance = Instance(parent: TypeId, args: seq<TypeId>)
  datatype GenericParam = GenericParam(name: Ident, typeId: TypeId)

  datatype Node =
    | Scalar(kind: ScalarKind)
    | Integer(intType: IntegerType)
    | Nominal(nominal: NominalKind)
    | TypeVariable(name: Ident, scope: ScopeId)
    | Reference(inner: TypeId)
    | Struct(fields: seq<Field>, defn: Option<DefnInfo>, inst: Option<Instance>)
    | Enum(variants: seq<Variant>, defn: Option<DefnInfo>, inst: Option<Instance>)
    | EnumVariant(variant: Variant)
    | OpaqueAlias(aliasee: TypeId, aliasDefn: DefnInfo)
    | Generic(params: seq<GenericParam>, body: TypeId, genericDefn: DefnInfo)

  /** Structural equality of pool entries; named types, variants, aliases and generics never merge. */
  predicate TypeEq(a: Node, b: Node) {
    match (a, b)
    case (Scalar(k1), Scalar(k2)) => k1 == k2
    case (Integer(i1), Integer(i2)) => i1 == i2
    case (TypeVariable(n1, s1), TypeVariable(n2, s2)) => n1 == n2 && s1 == s2
    case (Reference(t1), Reference(t2)) => t1 == t2
    case (Struct(fs1, d1, _), Struct(fs2, d2, _)) =>
      && d1.None? && d2.None?
      && |fs1| == |fs2|
      && forall k :: 0 <= k < |fs1| ==> fs1[k].name == fs2[k].name && fs1[k].typeId == fs2[k].typeId
    case (Enum(vs1, d1, _), Enum(vs2, d2, _)) =>
      && d1.None? && d2.None?
      && |vs1| == |vs2|
      && forall k :: 0 <= k < |vs1| ==> vs1[k].name == vs2[k].name && vs1[k].payload == vs2[k].payload
    case _ => false
  }

  // ---------- adding an entry ----------

  /** The variants of an enum whose first entry goes to position base. */
  function Placed(vs: seq<Variant>, base: TypeId): (r: seq<Variant>)
    ensures |r| == |vs|
    ensures forall j :: 0 <= j < |vs| ==> r[j] == vs[j].(myTypeId := base + vs[j].index, enumTypeId := base + |vs|)
  {
    seq(|vs|, j requires 0 <= j < |vs| => vs[j].(myTypeId := base + vs[j].index, enumTypeId := base + |vs|))
  }

  function VariantNodes(vs: seq<Variant>): (r: seq<Node>)
    ensures |r| == |vs|
    ensures forall j :: 0 <= j < |vs| ==> r[j] == EnumVariant(vs[j])
  {
    seq(|vs|, j requires 0 <= j < |vs| => EnumVariant(vs[j]))
  }

  /** The pool after pushing n unconditionally: an enum is preceded by its variants. */
  function Appended(pool: seq<Node>, n: Node): seq<Node> {
    match n
    case Enum(vs, defn, inst) =>
      var placed := Placed(vs, |pool|);
      pool + VariantNodes(placed) + [Enum(placed, defn, inst)]
    case _ => pool + [n]
  }

  /** Two children lie below the entry that mentions them. */
  ghost predicate ChildrenBelow(n: Node, i: nat) {
    match n
    case Reference(inner) => inner < i
    case Struct(fs, _, inst) =>
      && (forall k :: 0 <= k < |fs| ==> fs[k].typeId < i)
      && InstanceBelow(inst, i)
    case Enum(vs, _, inst) =>
      && (forall k :: 0 <= k < |vs| ==> vs[k].payload.Some? ==> vs[k].payload.value < i)
      && InstanceBelow(inst, i)
    case EnumVariant(v) => v.payload.Some? ==> v.payload.value < i
    case OpaqueAlias(aliasee, _) => aliasee < i
    case Generic(params, body, _) => body < i && forall k :: 0 <= k < |params| ==> params[k].typeId < i
    case _ => true
  }

  ghost predicate InstanceBelow(inst: Option<Instance>, i: nat) {
    inst.Some? ==> inst.value.parent < i && forall k :: 0 <= k < |inst.value.args| ==> inst.value.args[k] < i
  }

  /** What the callers of AddType build: numbered variants, children in the pool, no bare variant. */
  ghost predicate Addable(n: Node, i: nat) {
    && ChildrenBelow(n, i)
    && !n.EnumVariant?
    && (n.Enum? ==> forall k :: 0 <= k < |n.variants| ==> n.variants[k].index == k)
    && (n.Struct? || n.Enum? ==> n.inst.Some? ==> n.defn.Some?)
  }

  // ---------- the pool invariant ----------

  /** An enum with k variants at id e owns the entries e-k..e-1, which point back to it. */
  ghost predicate EnumPlaced(pool: seq<Node>, e: TypeId)
    requires e < |pool| && pool[e].Enum?
  {
    var vs := pool[e].variants;
    && |vs| <= e
    && ChildrenBelow(pool[e], e - |vs|)
    && forall j :: 0 <= j < |vs| ==>
         && pool[e - |vs| + j] == EnumVariant(vs[j])
         && vs[j].index == j && vs[j].myTypeId == e - |vs| + j && vs[j].enumTypeId == e
  }

  ghost predicate VariantOwned(pool: seq<Node>, i: TypeId)
    requires i < |pool| && pool[i].EnumVariant?
  {
    var v := pool[i].variant;
    && v.myTypeId == i < v.enumTypeId < |pool| && pool[v.enumTypeId].Enum?
    && v.index < |pool[v.enumTypeId].variants| && pool[v.enumTypeId].variants[v.index] == v
  }

  ghost predicate Distinct(pool: seq<Node>) {
    forall i, j :: 0 <= i < j < |pool| ==> !TypeEq(pool[i], pool[j])
  }

  ghost predicate Below(pool: seq<Node>) {
    forall i :: 0 <= i < |pool| ==> ChildrenBelow(pool[i], i)
  }

  ghost predicate PlacedAt(pool: seq<Node>, i: TypeId)
    requires i < |pool|
  {
    && (pool[i].Enum? ==> EnumPlaced(pool, i))
    && (pool[i].EnumVariant? ==> VariantOwned(pool, i))
  }

  ghost predicate Placement(pool: seq<Node>) {
    forall i :: 0 <= i < |pool| ==> PlacedAt(pool, i)
  }

  /** Instances are named after their generic, and no two entries are the same instance. */
  ghost predicate InstancesUnique(pool: seq<Node>) {
    && (forall i :: 0 <= i < |pool| && InstanceOf(pool[i]).Some? ==> pool[i].defn.Some?)
    && forall i, j :: 0 <= i < j < |pool| && InstanceOf(pool[i]).Some? ==> InstanceOf(pool[i]) != InstanceOf(pool[j])
  }

  function InstanceOf(n: Node): Option<Instance> {
    if n.Struct? || n.Enum? then n.inst else None
  }

  ghost predicate ValidPool(pool: seq<Node>) {
    Below(pool) && Placement(pool) && Distinct(pool) && InstancesUnique(pool)
  }

  lemma TypeEqSymmetric(a: Node, b: Node)
    requires TypeEq(a, b)
    ensures TypeEq(b, a)
  {
  }

  lemma AppendedKeepsInvariant(pool: seq<Node>, n: Node)
    requires ValidPool(pool) && Addable(n, |pool|)
    requires forall i :: 0 <= i < |pool| ==> !TypeEq(pool[i], n)
    requires InstanceOf(n).Some? ==> forall i :: 0 <= i < |pool| ==> InstanceOf(pool[i]) != InstanceOf(n)
    ensures ValidPool(Appended(pool, n))
  {
    AppendedEntries(pool, n);
    AppendedBelow(pool, n);
    AppendedPlacement(pool, n);
    AppendedDistinct(pool, n);
    AppendedInstances(pool, n);
  }

  /** The entries of the grown pool: the old ones, the variants of an enum, and the new entry last. */
  lemma AppendedEntries(pool: seq<Node>, n: Node)
    requires Addable(n, |pool|)
    ensures var bigger := Appended(pool, n);
      && |bigger| > |pool| && pool <= bigger
      && (forall i :: |pool| <= i < |bigger| - 1 ==>
        n.Enum? && bigger[i] == EnumVariant(Placed(n.variants, |pool|)[i - |pool|]))
      && bigger[|bigger| - 1] == (if n.Enum? then n.(variants := Placed(n.variants, |pool|)) else n)
      && |bigger| == |pool| + 1 + (if n.Enum? then |n.variants| else 0)
  {
  }

  lemma AppendedBelow(pool: seq<Node>, n: Node)
    requires Below(pool) && Addable(n, |pool|)
    ensures Below(Appended(pool, n))
  {
    AppendedEntries(pool, n);
    var bigger := Appended(pool, n);
    assert forall i :: 0 <= i < |pool| ==> bigger[i] == pool[i];
  }

  lemma AppendedPlacement(pool: seq<Node>, n: Node)
    requires Placement(pool) && Addable(n, |pool|)
    ensures Placement(Appended(pool, n))
  {
    AppendedEntries(pool, n);
    var bigger := Appended(pool, n);
    forall i | 0 <= i < |bigger| ensures PlacedAt(bigger, i) {
      if i < |pool| {
        PlacementStable(pool, bigger, i);
      } else {
        NewEntryPlaced(pool, n, i);
      }
    }
  }

  lemma NewEntryPlaced(pool: seq<Node>, n: Node, i: TypeId)
    requires Addable(n, |pool|) && |pool| <= i < |Appended(pool, n)|
    ensures PlacedAt(Appended(pool, n), i)
  {
    if !n.Enum? {
      assert (pool + [n])[i] == n;
    } else if i < |pool| + |n.variants| {
      NewVariantPlaced(pool, n, i);
    } else {
      assert i == |pool| + |n.variants|;
      NewEnumPlaced(pool, n);
    }
  }

  lemma NewVariantPlaced(pool: seq<Node>, n: Node, i: TypeId)
    requires n.Enum? && Addable(n, |pool|) && |pool| <= i < |pool| + |n.variants|
    ensures i < |Appended(pool, n)| && PlacedAt(Appended(pool, n), i)
  {
    NewVariantOwned(pool, n, i - |pool|);
  }

  lemma PlacementStable(pool: seq<Node>, bigger: seq<Node>, i: TypeId)
    requires pool <= bigger && i < |pool| && Placement(pool)
    ensures PlacedAt(bigger, i)
  {
    assert forall j :: 0 <= j < |pool| ==> bigger[j] == pool[j];
    assert PlacedAt(pool, i);
  }

  lemma NewEnumPlaced(pool: seq<Node>, n: Node)
    requires n.Enum? && Addable(n, |pool|)
    ensures PlacedAt(Appended(pool, n), |pool| + |n.variants|)
  {
    var placed := Placed(n.variants, |pool|);
    Middle(pool, VariantNodes(placed), n.(variants := placed));
    PlacedBelow(n, |pool|);
    PlacedInOrder(n, |pool|);
    EnumPlacedAt(Appended(pool, n), |pool| + |placed|, |pool|, placed);
  }

  lemma NewVariantOwned(pool: seq<Node>, n: Node, j: nat)
    requires n.Enum? && Addable(n, |pool|) && j < |n.variants|
    ensures Appended(pool, n)[|pool| + j].EnumVariant? && VariantOwned(Appended(pool, n), |pool| + j)
  {
    var placed := Placed(n.variants, |pool|);
    Middle(pool, VariantNodes(placed), n.(variants := placed));
  }

  lemma Middle<T>(a: seq<T>, b: seq<T>, c: T)
    ensures forall j :: 0 <= j < |b| ==> (a + b + [c])[|a| + j] == b[j]
    ensures forall i :: |a| <= i < |a| + |b| ==> (a + b + [c])[i] == b[i - |a|]
    ensures (a + b + [c])[|a| + |b|] == c
  {
  }

  lemma PlacedInOrder(n: Node, base: TypeId)
    requires n.Enum? && Addable(n, base)
    ensures var placed := Placed(n.variants, base);
      forall j :: 0 <= j < |placed| ==>
        placed[j].index == j && placed[j].myTypeId == base + j && placed[j].enumTypeId == base + |placed|
  {
  }

  lemma PlacedBelow(n: Node, base: TypeId)
    requires n.Enum? && Addable(n, base)
    ensures ChildrenBelow(n.(variants := Placed(n.variants, base)), base)
  {
    var placed := Placed(n.variants, base);
    assert forall k :: 0 <= k < |placed| ==> placed[k].payload == n.variants[k].payload;
  }

  lemma EnumPlacedAt(pool: seq<Node>, e: TypeId, base: TypeId, vs: seq<Variant>)
    requires e == base + |vs| < |pool| && pool[e].Enum? && pool[e].variants == vs && ChildrenBelow(pool[e], base)
    requires forall j :: 0 <= j < |vs| ==> pool[base + j] == EnumVariant(vs[j])
    requires forall j :: 0 <= j < |vs| ==> vs[j].index == j && vs[j].myTypeId == base + j && vs[j].enumTypeId == e
    ensures EnumPlaced(pool, e)
  {
    forall j | 0 <= j < |vs| ensures pool[e - |vs| + j] == EnumVariant(vs[j]) {
      assert pool[base + j] == EnumVariant(vs[j]);
    }
  }

  lemma AppendedDistinct(pool: seq<Node>, n: Node)
    requires Distinct(pool) && Addable(n, |pool|)
    requires forall i :: 0 <= i < |pool| ==> !TypeEq(pool[i], n)
    ensures Distinct(Appended(pool, n))
  {
    AppendedEntries(pool, n);
    var bigger := Appended(pool, n);
    var last := |bigger| - 1;
    assert forall i :: 0 <= i < |pool| ==> bigger[i] == pool[i];
    forall i, j | 0 <= i < j < |bigger| ensures !TypeEq(bigger[i], bigger[j]) {
      if i < |pool| && j == last {
        assert !TypeEq(pool[i], n);
      }
    }
  }

  lemma AppendedInstances(pool: seq<Node>, n: Node)
    requires InstancesUnique(pool) && Addable(n, |pool|)
    requires InstanceOf(n).Some? ==> forall i :: 0 <= i < |pool| ==> InstanceOf(pool[i]) != InstanceOf(n)
    ensures InstancesUnique(Appended(pool, n))
  {
    AppendedEntries(pool, n);
    var bigger := Appended(pool, n);
    assert forall i :: 0 <= i < |pool| ==> bigger[i] == pool[i];
    assert InstanceOf(bigger[|bigger| - 1]) == InstanceOf(n);
  }

  // ---------- variants and their enums ----------

  /** The provenance of a type: its own, or its enum's for a variant. */
  function InstanceInfo(pool: seq<Node>, id: TypeId): Option<Instance>
    requires Placement(pool) && id < |pool|
  {
    var n := pool[id];
    assert PlacedAt(pool, id);
    if n.EnumVariant? then InstanceOf(pool[n.variant.enumTypeId]) else InstanceOf(n)
  }

  /** A variant's enum mentions only types below all its variants. */
  lemma InstanceInfoBelow(pool: seq<Node>, id: TypeId)
    requires Below(pool) && Placement(pool) && id < |pool|
    ensures InstanceBelow(InstanceInfo(pool, id), id)
  {
    if pool[id].EnumVariant? {
      assert PlacedAt(pool, id) && PlacedAt(pool, pool[id].variant.enumTypeId);
    } else {
      assert ChildrenBelow(pool[id], id);
    }
  }

  /** The enum that a variant belongs to, or the enum itself. */
  function WholeEnum(pool: seq<Node>, id: TypeId): (e: TypeId)
    requires Placement(pool) && id < |pool| && (pool[id].Enum? || pool[id].EnumVariant?)
    ensures e < |pool| && pool[e].Enum?
  {
    assert PlacedAt(pool, id);
    if pool[id].EnumVariant? then pool[id].variant.enumTypeId else id
  }

  ghost predicate PayloadsBelow(vs: seq<Variant>, bound: TypeId) {
    forall k :: 0 <= k < |vs| ==> vs[k].payload.Some? ==> vs[k].payload.value < bound
  }

  lemma FamilyBelow(pool: seq<Node>, id: TypeId)
    requires Below(pool) && Placement(pool) && id < |pool| && (pool[id].Enum? || pool[id].EnumVariant?)
    ensures PayloadsBelow(pool[WholeEnum(pool, id)].variants, id)
  {
    assert ChildrenBelow(pool[id], id);
    assert PlacedAt(pool, id) && PlacedAt(pool, WholeEnum(pool, id));
  }

  // ---------- denotation ----------

  /** What an id means: anonymous types are structural, instances are applications, a variant is its whole enum with an
      index, and all other types are nominal. */
  datatype Tree =
    | TLeaf(id: TypeId)
    | TScalar(kind: ScalarKind)
    | TInt(intType: IntegerType)
    | TVar(name: Ident, scope: ScopeId)
    | TRef(inner: Tree)
    | TStruct(fields: seq<TreeField>)
    | TEnum(variants: seq<TreeVariant>)
    | TApp(parent: TypeId, args: seq<Tree>)
    | TVariant(whole: Tree, index: nat)

  datatype TreeField = TreeField(name: Ident, tree: Tree)
  datatype TreeVariant = TreeVariant(name: Ident, payload: Option<Tree>)

  ghost function Den(pool: seq<Node>, id: TypeId): Tree
    requires Below(pool) && id < |pool|
    decreases id, 2
  {
    var n := pool[id];
    match n
    case Scalar(k) => TScalar(k)
    case Integer(i) => TInt(i)
    case TypeVariable(name, scope) => TVar(name, scope)
    case Reference(inner) => TRef(Den(pool, inner))
    case Struct(_, defn, inst) =>
      if inst.Some? then TApp(inst.value.parent, DenAll(pool, inst.value.args, id))
      else if defn.Some? then TLeaf(id) else Shape(pool, id)
    case Enum(_, defn, inst) =>
      if inst.Some? then TApp(inst.value.parent, DenAll(pool, inst.value.args, id))
      else if defn.Some? then TLeaf(id) else Shape(pool, id)
    case EnumVariant(v) => if HasFamily(pool, id) then TVariant(EnumDen(pool, v.enumTypeId, id), v.index) else TLeaf(id)
    case _ => TLeaf(id)
  }

  /** The entry is a variant with its enum in place, as every variant of a valid pool is. */
  ghost predicate HasFamily(pool: seq<Node>, id: TypeId) {
    id < |pool| && pool[id].EnumVariant? && VariantOwned(pool, id) && EnumPlaced(pool, pool[id].variant.enumTypeId)
  }

  /** What enum e means, all of whose parts lie below the bound, though e itself may lie above it. */
  ghost function EnumDen(pool: seq<Node>, e: TypeId, bound: TypeId): Tree
    requires Below(pool) && e < |pool| && bound <= |pool| && pool[e].Enum? && ChildrenBelow(pool[e], bound)
    decreases bound, 1
  {
    var n := pool[e];
    if n.inst.Some? then TApp(n.inst.value.parent, DenAll(pool, n.inst.value.args, bound))
    else if n.defn.Some? then TLeaf(e)
    else
      TEnum(seq(|n.variants|, k requires 0 <= k < |n.variants| =>
        TreeVariant(n.variants[k].name, DenPayload(pool, n.variants[k].payload, bound))))
  }

  /** A variant means its enum and its index. */
  lemma VariantMeaning(pool: seq<Node>, id: TypeId)
    requires Below(pool) && Placement(pool) && id < |pool| && pool[id].EnumVariant?
    ensures var v := pool[id].variant;
      v.enumTypeId < |pool| && Den(pool, id) == TVariant(Den(pool, v.enumTypeId), v.index)
  {
    var v := pool[id].variant;
    assert PlacedAt(pool, id) && PlacedAt(pool, v.enumTypeId);
    EnumDenIsDen(pool, v.enumTypeId, id);
  }

  lemma EnumDenIsDen(pool: seq<Node>, e: TypeId, bound: TypeId)
    requires Below(pool) && e < |pool| && bound <= |pool| && pool[e].Enum? && ChildrenBelow(pool[e], bound)
    ensures EnumDen(pool, e, bound) == Den(pool, e)
  {
    var n := pool[e];
    if n.inst.Some? {
      assert DenAll(pool, n.inst.value.args, bound) == DenAll(pool, n.inst.value.args, e);
    } else if n.defn.None? {
      assert EnumDen(pool, e, bound).variants == Shape(pool, e).variants;
    }
  }

  ghost function DenAll(pool: seq<Node>, ids: seq<TypeId>, bound: TypeId): (r: seq<Tree>)
    requires Below(pool) && bound <= |pool| && forall k :: 0 <= k < |ids| ==> ids[k] < bound
    ensures |r| == |ids| && forall k :: 0 <= k < |ids| ==> r[k] == Den(pool, ids[k])
    decreases bound, 0
  {
    seq(|ids|, k requires 0 <= k < |ids| => Den(pool, ids[k]))
  }

  /** One level of structure of a struct or enum entry, whether or not it has a name. */
  ghost function Shape(pool: seq<Node>, id: TypeId): (r: Tree)
    requires Below(pool) && id < |pool| && (pool[id].Struct? || pool[id].Enum?)
    ensures pool[id].Struct? ==> r.TStruct? && |r.fields| == |pool[id].fields|
    ensures pool[id].Struct? ==> forall k :: 0 <= k < |r.fields| ==>
      r.fields[k] == TreeField(pool[id].fields[k].name, Den(pool, pool[id].fields[k].typeId))
    ensures pool[id].Enum? ==> r.TEnum? && |r.variants| == |pool[id].variants|
    ensures pool[id].Enum? ==> forall k :: 0 <= k < |r.variants| ==>
      r.variants[k] == TreeVariant(pool[id].variants[k].name, DenPayload(pool, pool[id].variants[k].payload, id))
    decreases id, 1
  {
    match pool[id]
    case Struct(fs, _, _) =>
      TStruct(seq(|fs|, k requires 0 <= k < |fs| => TreeField(fs[k].name, Den(pool, fs[k].typeId))))
    case Enum(vs, _, _) =>
      TEnum(seq(|vs|, k requires 0 <= k < |vs| => TreeVariant(vs[k].name, DenPayload(pool, vs[k].payload, id))))
  }

  ghost function DenPayload(pool: seq<Node>, payload: Option<TypeId>, bound: TypeId): (r: Option<Tree>)
    requires Below(pool) && bound <= |pool| && (payload.Some? ==> payload.value < bound)
    ensures r.Some? == payload.Some? && (r.Some? ==> r.value == Den(pool, payload.value))
    decreases bound, 0
  {
    if payload.Some? then Some(Den(pool, payload.value)) else None
  }

  /** Growing the pool changes no existing meaning. */
  lemma {:induction false} DenStable(pool: seq<Node>, bigger: seq<Node>, id: TypeId)
    requires pool <= bigger && Below(bigger) && Placement(pool) && id < |pool|
    ensures Below(pool)
    ensures Den(pool, id) == Den(bigger, id)
    ensures pool[id].Struct? || pool[id].Enum? ==> Shape(pool, id) == Shape(bigger, id)
    decreases id
  {
    assert forall i :: 0 <= i < |pool| ==> pool[i] == bigger[i];
    var n := pool[id];
    match n {
      case Reference(inner) => DenStable(pool, bigger, inner);
      case Struct(fs, _, inst) =>
        forall k | 0 <= k < |fs| ensures Den(pool, fs[k].typeId) == Den(bigger, fs[k].typeId) {
          DenStable(pool, bigger, fs[k].typeId);
        }
        assert Shape(pool, id).fields == Shape(bigger, id).fields;
        ArgsStable(pool, bigger, inst, id);
      case Enum(vs, _, inst) =>
        forall k | 0 <= k < |vs|
          ensures DenPayload(pool, vs[k].payload, id) == DenPayload(bigger, vs[k].payload, id)
        {
          if vs[k].payload.Some? { DenStable(pool, bigger, vs[k].payload.value); }
        }
        assert Shape(pool, id).variants == Shape(bigger, id).variants;
        ArgsStable(pool, bigger, inst, id);
      case EnumVariant(v) => FamilyDenStable(pool, bigger, id);
      case _ =>
    }
  }

  lemma {:induction false} FamilyDenStable(pool: seq<Node>, bigger: seq<Node>, id: TypeId)
    requires pool <= bigger && Below(bigger) && Below(pool) && Placement(pool) && id < |pool| && pool[id].EnumVariant?
    ensures Den(pool, id) == Den(bigger, id)
    decreases id, 1
  {
    var e := pool[id].variant.enumTypeId;
    assert PlacedAt(pool, id) && PlacedAt(pool, e);
    assert forall i :: 0 <= i < |pool| ==> pool[i] == bigger[i];
    assert HasFamily(pool, id) && HasFamily(bigger, id);
    ArgsStable(pool, bigger, pool[e].inst, id);
    PayloadsStable(pool, bigger, pool[e].variants, id);
    assert EnumDen(pool, e, id) == EnumDen(bigger, e, id);
  }

  lemma {:induction false} PayloadsStable(pool: seq<Node>, bigger: seq<Node>, vs: seq<Variant>, id: TypeId)
    requires pool <= bigger && Below(bigger) && Below(pool) && Placement(pool) && id < |pool| && PayloadsBelow(vs, id)
    ensures forall k :: 0 <= k < |vs| ==> DenPayload(pool, vs[k].payload, id) == DenPayload(bigger, vs[k].payload, id)
    decreases id, 0
  {
    forall k | 0 <= k < |vs| ensures DenPayload(pool, vs[k].payload, id) == DenPayload(bigger, vs[k].payload, id) {
      if vs[k].payload.Some? { DenStable(pool, bigger, vs[k].payload.value); }
    }
  }

  lemma {:induction false} ArgsStable(pool: seq<Node>, bigger: seq<Node>, inst: Option<Instance>, id: TypeId)
    requires pool <= bigger && Below(bigger) && Below(pool) && Placement(pool) && id < |pool| && InstanceBelow(inst, id)
    ensures inst.Some? ==> DenAll(pool, inst.value.args, id) == DenAll(bigger, inst.value.args, id)
    decreases id, 0
  {
    if inst.Some? {
      var args := inst.value.args;
      forall k | 0 <= k < |args| ensures Den(pool, args[k]) == Den(bigger, args[k]) {
        DenStable(pool, bigger, args[k]);
      }
    }
  }

  /** Main result: in a valid pool two ids are equal exactly when they mean the same. */
  lemma {:induction false} DenInjective(pool: seq<Node>, i: TypeId, j: TypeId)
    requires ValidPool(pool) && i < |pool| && j < |pool|
    ensures Den(pool, i) == Den(pool, j) <==> i == j
    decreases i
  {
    if Den(pool, i) == Den(pool, j) {
      var a, b := pool[i], pool[j];
      if InstanceOf(a).Some? {
        var xs, ys := a.inst.value.args, b.inst.value.args;
        assert DenAll(pool, xs, i) == DenAll(pool, ys, j);
        forall k | 0 <= k < |xs| ensures xs[k] == ys[k] {
          assert Den(pool, xs[k]) == DenAll(pool, xs, i)[k];
          DenInjective(pool, xs[k], ys[k]);
        }
        assert xs == ys;
      } else if a.EnumVariant? {
        VariantInjective(pool, i, j);
      } else if !Den(pool, i).TLeaf? {
        SameShapeTypeEq(pool, i, j);
        if i != j { TypeEqSymmetric(a, b); }
      }
    }
  }

  lemma {:induction false} SameShapeTypeEq(pool: seq<Node>, i: TypeId, j: TypeId)
    requires ValidPool(pool) && i < |pool| && j < |pool|
    requires Den(pool, i) == Den(pool, j) && InstanceOf(pool[i]).None?
    requires !Den(pool, i).TLeaf? && !Den(pool, i).TVariant?
    ensures TypeEq(pool[i], pool[j])
    decreases i, 0
  {
    var a, b := pool[i], pool[j];
    match a {
      case Reference(inner) => DenInjective(pool, inner, b.inner);
      case Struct(fs, _, _) =>
        var s, t := Shape(pool, i), Shape(pool, j);
        forall k | 0 <= k < |fs| ensures fs[k].name == b.fields[k].name && fs[k].typeId == b.fields[k].typeId {
          assert s.fields[k] == t.fields[k];
          DenInjective(pool, fs[k].typeId, b.fields[k].typeId);
        }
      case Enum(vs, _, _) =>
        var s, t := Shape(pool, i), Shape(pool, j);
        forall k | 0 <= k < |vs| ensures vs[k].name == b.variants[k].name && vs[k].payload == b.variants[k].payload {
          assert s.variants[k] == t.variants[k];
          if vs[k].payload.Some? { DenInjective(pool, vs[k].payload.value, b.variants[k].payload.value); }
        }
      case _ =>
    }
  }

  /** Variants of equal enums with equal indices are equal. */
  lemma {:induction false} VariantInjective(pool: seq<Node>, i: TypeId, j: TypeId)
    requires ValidPool(pool) && i < |pool| && j < |pool| && pool[i].EnumVariant? && Den(pool, i) == Den(pool, j)
    ensures i == j
    decreases i, 1
  {
    VariantMeaning(pool, i);
    assert Den(pool, j).TVariant?;
    VariantMeaning(pool, j);
    var e, f := pool[i].variant.enumTypeId, pool[j].variant.enumTypeId;
    assert PlacedAt(pool, i) && PlacedAt(pool, j) && PlacedAt(pool, e) && PlacedAt(pool, f);
    EnumInjective(pool, e, f, i);
  }

  lemma {:induction false} EnumInjective(pool: seq<Node>, e: TypeId, f: TypeId, bound: TypeId)
    requires ValidPool(pool) && e < |pool| && f < |pool| && bound <= |pool|
    requires pool[e].Enum? && pool[f].Enum? && ChildrenBelow(pool[e], bound) && Den(pool, e) == Den(pool, f)
    ensures e == f
    decreases bound, 0
  {
    var a, b := pool[e], pool[f];
    if a.inst.Some? {
      var xs, ys := a.inst.value.args, b.inst.value.args;
      assert DenAll(pool, xs, e) == DenAll(pool, ys, f);
      forall k | 0 <= k < |xs| ensures xs[k] == ys[k] {
        assert Den(pool, xs[k]) == DenAll(pool, xs, e)[k];
        DenInjective(pool, xs[k], ys[k]);
      }
      assert xs == ys;
    } else if a.defn.None? {
      var s, t := Shape(pool, e), Shape(pool, f);
      forall k | 0 <= k < |a.variants|
        ensures a.variants[k].name == b.variants[k].name && a.variants[k].payload == b.variants[k].payload
      {
        assert s.variants[k] == t.variants[k];
        if a.variants[k].payload.Some? { DenInjective(pool, a.variants[k].payload.value, b.variants[k].payload.value); }
      }
      assert TypeEq(a, b) && TypeEq(b, a);
    }
  }

  // ---------- what an entry about to be added means ----------

  /** Types without a name, which are all that a pool merges. */
  predicate Nameless(n: Node) {
    match n
    case Scalar(_) => true
    case Integer(_) => true
    case TypeVariable(_, _) => true
    case Reference(_) => true
    case Struct(_, defn, _) => defn.None?
    case Enum(_, defn, _) => defn.None?
    case _ => false
  }

  /** Its meaning, from its own parts and the meanings of its children, whatever it is compared with. */
  ghost function Meaning(pool: seq<Node>, n: Node): (t: Tree)
    requires Below(pool) && ChildrenBelow(n, |pool|) && Nameless(n)
    ensures n.Struct? ==> t.TStruct? && |t.fields| == |n.fields|
    ensures n.Enum? ==> t.TEnum? && |t.variants| == |n.variants|
  {
    match n
    case Scalar(kind) => TScalar(kind)
    case Integer(intType) => TInt(intType)
    case TypeVariable(name, scope) => TVar(name, scope)
    case Reference(inner) => TRef(Den(pool, inner))
    case Struct(fs, _, _) =>
      TStruct(seq(|fs|, k requires 0 <= k < |fs| => TreeField(fs[k].name, Den(pool, fs[k].typeId))))
    case Enum(vs, _, _) =>
      TEnum(seq(|vs|, k requires 0 <= k < |vs| => TreeVariant(vs[k].name, DenPayload(pool, vs[k].payload, |pool|))))
  }

  /** An entry of the pool has the meaning of such a type if and only if it equals it structurally. */
  lemma {:induction false} EqualMeansSame(pool: seq<Node>, i: TypeId, n: Node)
    requires ValidPool(pool) && i < |pool| && Addable(n, |pool|)
    ensures TypeEq(pool[i], n) ==> Nameless(n)
    ensures Nameless(n) ==> (TypeEq(pool[i], n) <==> Den(pool, i) == Meaning(pool, n))
  {
    if Nameless(n) {
      if TypeEq(pool[i], n) { EqualMeans(pool, i, n); }
      if Den(pool, i) == Meaning(pool, n) { SameMeaningEqual(pool, i, n); }
    }
  }

  lemma {:induction false} EqualMeans(pool: seq<Node>, i: TypeId, n: Node)
    requires ValidPool(pool) && i < |pool| && Addable(n, |pool|) && Nameless(n) && TypeEq(pool[i], n)
    ensures Den(pool, i) == Meaning(pool, n)
  {
    if n.Struct? || n.Enum? { assert InstanceOf(pool[i]).None?; }
    if n.Struct? { assert Shape(pool, i).fields == Meaning(pool, n).fields; }
    if n.Enum? { assert Shape(pool, i).variants == Meaning(pool, n).variants; }
  }

  lemma {:induction false} SameMeaningEqual(pool: seq<Node>, i: TypeId, n: Node)
    requires ValidPool(pool) && i < |pool| && Addable(n, |pool|) && Nameless(n) && Den(pool, i) == Meaning(pool, n)
    ensures TypeEq(pool[i], n)
  {
    var a := pool[i];
    match n {
      case Reference(inner) => DenInjective(pool, a.inner, inner);
      case Struct(fs, _, _) =>
        var s, t := Shape(pool, i), Meaning(pool, n);
        forall k | 0 <= k < |fs| ensures a.fields[k].name == fs[k].name && a.fields[k].typeId == fs[k].typeId {
          assert s.fields[k] == t.fields[k];
          DenInjective(pool, a.fields[k].typeId, fs[k].typeId);
        }
      case Enum(vs, _, _) =>
        var s, t := Shape(pool, i), Meaning(pool, n);
        forall k | 0 <= k < |vs| ensures a.variants[k].name == vs[k].name && a.variants[k].payload == vs[k].payload {
          assert s.variants[k] == t.variants[k];
          if vs[k].payload.Some? { DenInjective(pool, a.variants[k].payload.value, vs[k].payload.value); }
        }
      case _ =>
    }
  }

  /** What was pushed has the meaning it had before. */
  lemma {:induction false} PushedMeans(pool: seq<Node>, n: Node)
    requires ValidPool(pool) && Addable(n, |pool|) && Nameless(n)
    ensures Below(Appended(pool, n)) && Den(Appended(pool, n), |Appended(pool, n)| - 1) == Meaning(pool, n)
  {
    var bigger := Appended(pool, n);
    var last := |bigger| - 1;
    AppendedEntries(pool, n);
    AppendedBelow(pool, n);
    forall j | 0 <= j < |pool| ensures Den(pool, j) == Den(bigger, j) { DenStable(pool, bigger, j); }
    match n {
      case Struct(fs, _, _) => assert Shape(bigger, last).fields == Meaning(pool, n).fields;
      case Enum(vs, _, _) =>
        var placed := bigger[last].variants;
        assert forall k :: 0 <= k < |vs| ==> placed[k].name == vs[k].name && placed[k].payload == vs[k].payload;
        assert Shape(bigger, last).variants == Meaning(pool, n).variants;
      case _ =>
    }
  }

  /** Some entry has the meaning of the type about to be added. */
  ghost predicate Known(pool: seq<Node>, n: Node) {
    && Nameless(n) && Below(pool) && ChildrenBelow(n, |pool|)
    && exists i :: 0 <= i < |pool| && Den(pool, i) == Meaning(pool, n)
  }

  /** The id means what was to be added: the one entry of a known type, or a new entry, which is the node itself. */
  ghost predicate AddedAs(was: seq<Node>, pool: seq<Node>, n: Node, dedupe: bool, id: TypeId) {
    && id < |pool| && Below(was) && Below(pool) && ChildrenBelow(n, |was|)
    && (Nameless(n) ==> Den(pool, id) == Meaning(was, n))
    && if dedupe && Known(was, n) then pool == was else pool == Appended(was, n) && id == |pool| - 1
  }

  lemma {:induction false} AddedMeans(was: seq<Node>, pool: seq<Node>, n: Node, dedupe: bool, id: TypeId)
    requires ValidPool(was) && Addable(n, |was|) && id < |pool|
    requires if dedupe && exists i :: 0 <= i < |was| && TypeEq(was[i], n) then pool == was && TypeEq(was[id], n)
      else pool == Appended(was, n) && id == |pool| - 1
    ensures AddedAs(was, pool, n, dedupe, id)
  {
    forall i | 0 <= i < |was|
      ensures TypeEq(was[i], n) <==> Nameless(n) && Den(was, i) == Meaning(was, n)
    {
      EqualMeansSame(was, i, n);
    }
    AppendedBelow(was, n);
    if Nameless(n) { PushedMeans(was, n); }
  }

  // ---------- the pool object ----------

  class Types {
    var types: seq<Node>

    constructor ()
      ensures types == [] && Valid()
    {
      types := [];
    }

    ghost predicate Valid()
      reads this
    {
      ValidPool(types)
    }

    /** Returns an equal entry if there is one and dedupe is set; otherwise pushes n, an enum after its variants. */
    method AddTypeExt(n: Node, dedupe: bool) returns (id: TypeId)
      requires Addable(n, |types|)
      modifies this
      ensures id < |types|
      ensures if dedupe && exists i :: 0 <= i < |old(types)| && TypeEq(old(types)[i], n)
        then types == old(types) && TypeEq(types[id], n) && forall i :: 0 <= i < id ==> !TypeEq(types[i], n)
        else types == Appended(old(types), n) && id == |types| - 1
      ensures old(Valid()) ==> AddedAs(old(types), types, n, dedupe, id)
    {
      ghost var was := types;
      if dedupe {
        var i := 0;
        while i < |types|
          invariant i <= |types| && types == old(types)
          invariant forall k :: 0 <= k < i ==> !TypeEq(types[k], n)
        {
          if TypeEq(types[i], n) {
            if ValidPool(was) { AddedMeans(was, types, n, dedupe, i); }
            return i;
          }
          i := i + 1;
        }
      }
      id := Push(n);
      if ValidPool(was) { AddedMeans(was, types, n, dedupe, id); }
    }

    /** An enum is pushed after its variants, which learn their own ids and the enum's. */
    method Push(n: Node) returns (id: TypeId)
      modifies this
      ensures types == Appended(old(types), n) && id == |types| - 1
    {
      if n.Enum? {
        var variants, next := n.variants, |types|;
        var enumTypeId := next + |variants|;
        var placed: seq<Variant> := [];
        for k := 0 to |variants|
          invariant placed == Placed(variants, next)[..k]
          invariant types == old(types) + VariantNodes(Placed(variants, next))[..k]
        {
          var v := variants[k].(myTypeId := next + variants[k].index, enumTypeId := enumTypeId);
          placed := placed + [v];
          types := types + [EnumVariant(v)];
        }
        assert placed == Placed(variants, next);
        types := types + [n.(variants := placed)];
        id := enumTypeId;
      } else {
        id := |types|;
        types := types + [n];
      }
    }

    /** The deduplicating add keeps the pool valid and every existing id's meaning. */
    method AddType(n: Node) returns (id: TypeId)
      requires Valid() && Addable(n, |types|)
      requires InstanceOf(n).Some? ==> forall i :: 0 <= i < |types| ==> InstanceOf(types[i]) != InstanceOf(n)
      modifies this
      ensures Valid() && old(types) <= types && id < |types|
      ensures types == old(types) || (types == Appended(old(types), n) && id == |types| - 1)
      ensures types == old(types) ==> TypeEq(types[id], n)
      ensures AddedAs(old(types), types, n, true, id)
    {
      id := AddTypeExt(n, true);
      if types != old(types) {
        AppendedKeepsInvariant(old(types), n);
      }
    }
  }
}
