/** How enums are laid out in memory: padded variant structs that share one size with the tag-plus-padding base. */
module EnumLayout {
  import opened Powers
  import opened Wrappers

  /** Size and alignment in bytes. */
  datatype Layout = Layout(size: nat, align: nat)

  /** What every sized type satisfies. */
  predicate Sound(l: Layout) {
    l.align >= 1 && l.size % l.align == 0
  }

  const TAG := Layout(1, 1)

  /** Code generation's limit; the number of variants has to stay below it. */
  const VARIANT_LIMIT := 255

  /** The largest value of an unsigned integer of the tag's size. */
  function LargestTag(): nat {
    Power(2, 8 * TAG.size) - 1
  }

  lemma LimitIsLargestTag()
    ensures LargestTag() == VARIANT_LIMIT
  {
    WordPowers();
  }

  // ---------- standard struct layout ----------

  function RoundUp(n: nat, a: nat): (r: nat)
    requires a >= 1
    ensures r % a == 0 && n <= r < n + a
    ensures r == n <==> n % a == 0
  {
    var rest := n % a;
    RoundingIsMultiple(n, a);
    if rest == 0 then n else n + (a - rest)
  }

  lemma RoundingIsMultiple(n: nat, a: nat)
    requires a >= 1
    ensures n % a != 0 ==> (n + (a - n % a)) % a == 0
  {
    var q := n / a;
    assert n == a * q + n % a;
    assert n + (a - n % a) == a * (q + 1) by { assert a * (q + 1) == a * q + a; }
    MultipleOf(q + 1, a);
  }

  lemma MultipleOf(q: nat, a: nat)
    requires a >= 1
    ensures (a * q) % a == 0
  {
    var n := a * q;
    var d := n / a - q;
    assert n == a * (n / a) + n % a;
    assert a * d == -(n % a) by { assert a * d == a * (n / a) - a * q; }
    if d < 0 { Scaled(a, -d); } else if d > 0 { Scaled(a, d); }
  }

  lemma Scaled(a: nat, d: nat)
    requires d >= 1
    ensures a * d >= a
  {
  }

  predicate AllSound(fields: seq<Layout>) {
    forall k :: 0 <= k < |fields| ==> Sound(fields[k])
  }

  /** Where the last field ends. */
  function EndOf(fields: seq<Layout>): nat
    requires AllSound(fields)
  {
    if fields == [] then 0
    else
      var last := fields[|fields| - 1];
      RoundUp(EndOf(fields[..|fields| - 1]), last.align) + last.size
  }

  function OffsetOf(fields: seq<Layout>, k: nat): nat
    requires AllSound(fields) && k < |fields|
  {
    RoundUp(EndOf(fields[..k]), fields[k].align)
  }

  function MaxAlign(fields: seq<Layout>): (r: nat)
    requires AllSound(fields)
    ensures r >= 1
  {
    if fields == [] then 1
    else
      var rest := MaxAlign(fields[1..]);
      if fields[0].align > rest then fields[0].align else rest
  }

  function SizeOf(fields: seq<Layout>): nat
    requires AllSound(fields)
  {
    RoundUp(EndOf(fields), MaxAlign(fields))
  }

  // ---------- padding ----------

  function Sum(ns: seq<nat>): nat {
    if ns == [] then 0 else ns[0] + Sum(ns[1..])
  }

  /** The widest integer that still fits, again and again. */
  function WidestFirst(bits: nat): seq<nat> {
    if bits >= 64 then [64] + WidestFirst(bits - 64)
    else if bits >= 32 then [32] + WidestFirst(bits - 32)
    else if bits >= 8 then [8] + WidestFirst(bits - 8)
    else []
  }

  /** Whole-byte integers in order of width, at most four of them narrower than 64 bits. */
  ghost predicate Orderly(ms: seq<nat>) {
    && (forall k :: 0 <= k < |ms| ==> ms[k] in {64, 32, 8})
    && (forall j, k :: 0 <= j < k < |ms| ==> ms[j] >= ms[k])
    && forall k :: 0 <= k < |ms| - 4 ==> ms[k] == 64
  }

  /** The integers fill whole bytes exactly. */
  lemma {:induction false} WidestFirstFills(bits: nat)
    requires bits % 8 == 0
    ensures Sum(WidestFirst(bits)) == bits && Orderly(WidestFirst(bits))
    decreases bits
  {
    if bits >= 8 {
      var n := if bits >= 64 then 64 else if bits >= 32 then 32 else 8;
      WidestFirstFills(bits - n);
      WidestFirstBelow(bits - n);
      FillOneMore(n, WidestFirst(bits - n));
    }
  }

  lemma FillOneMore(n: nat, rest: seq<nat>)
    requires n in {64, 32, 8} && Orderly(rest) && (forall k :: 0 <= k < |rest| ==> rest[k] <= n)
    requires n == 64 || |rest| < 4
    ensures Sum([n] + rest) == n + Sum(rest) && Orderly([n] + rest)
  {
    var ms := [n] + rest;
    assert ms[0] == n && ms[1..] == rest;
    assert forall k :: 1 <= k < |ms| ==> ms[k] == rest[k - 1];
  }

  lemma {:induction false} WidestFirstBelow(bits: nat)
    ensures forall k :: 0 <= k < |WidestFirst(bits)| ==>
      WidestFirst(bits)[k] <= 64 && (bits < 64 ==> WidestFirst(bits)[k] <= 32)
        && (bits < 32 ==> WidestFirst(bits)[k] <= 8)
    ensures bits < 64 ==> |WidestFirst(bits)| <= 4
    ensures bits < 32 ==> |WidestFirst(bits)| <= bits / 8
    decreases bits
  {
    if bits >= 8 {
      var n := if bits >= 64 then 64 else if bits >= 32 then 32 else 8;
      WidestFirstBelow(bits - n);
    }
  }

  lemma NextMember(members: seq<nat>, remaining: nat, n: nat)
    requires n <= remaining && n == if remaining >= 64 then 64 else if remaining >= 32 then 32 else 8
    ensures members + WidestFirst(remaining) == members + [n] + WidestFirst(remaining - n)
  {
    Associates(members, [n], WidestFirst(remaining - n));
  }

  lemma Associates<T>(a: seq<T>, b: seq<T>, c: seq<T>)
    ensures a + (b + c) == a + b + c
  {
  }

  /** Integer members, in bits, that fill a packed struct of the given size. */
  method PaddingType(sizeBits: nat) returns (members: seq<nat>)
    requires sizeBits % 8 == 0
    ensures members == WidestFirst(sizeBits)
  {
    members := [];
    var remaining := sizeBits;
    while remaining >= 64
      invariant members + WidestFirst(remaining) == WidestFirst(sizeBits)
    {
      NextMember(members, remaining, 64);
      members := members + [64];
      remaining := remaining - 64;
    }
    while remaining >= 32
      invariant remaining < 64 && members + WidestFirst(remaining) == WidestFirst(sizeBits)
    {
      NextMember(members, remaining, 32);
      members := members + [32];
      remaining := remaining - 32;
    }
    while remaining >= 8
      invariant remaining < 32 && members + WidestFirst(remaining) == WidestFirst(sizeBits)
    {
      NextMember(members, remaining, 8);
      members := members + [8];
      remaining := remaining - 8;
    }
  }

  /** The members of a packed struct follow each other without gaps. */
  function PackedSize(members: seq<nat>): nat {
    Sum(members) / 8
  }

  // ---------- enums ----------

  datatype VariantStruct = VariantStruct(fields: seq<Layout>, tag: nat, size: nat)

  /** The base has the tag and packed padding members after it; size is that of the base. */
  datatype EnumStruct = EnumStruct(variants: seq<VariantStruct>, padding: seq<nat>, size: nat)

  function VariantFields(payload: Option<Layout>): (r: seq<Layout>) {
    match payload
    case None => [TAG]
    case Some(l) => [TAG, l]
  }

  predicate PayloadSound(payload: Option<Layout>) {
    payload.Some? ==> Sound(payload.value)
  }

  function VariantAlign(payload: Option<Layout>): (r: nat)
    requires PayloadSound(payload)
    ensures r >= 1
  {
    if payload.Some? then payload.value.align else 1
  }

  function VariantSize(payload: Option<Layout>): nat
    requires PayloadSound(payload)
  {
    SizeOf(VariantFields(payload))
  }

  function LargestOf(payloads: seq<Option<Layout>>, n: nat): nat
    requires n <= |payloads| && forall k :: 0 <= k < |payloads| ==> PayloadSound(payloads[k])
  {
    if n == 0 then 0
    else
      var before, size := LargestOf(payloads, n - 1), VariantSize(payloads[n - 1]);
      if size > before then size else before
  }

  function Largest(payloads: seq<Option<Layout>>): nat
    requires forall k :: 0 <= k < |payloads| ==> PayloadSound(payloads[k])
  {
    LargestOf(payloads, |payloads|)
  }

  /** The size is a multiple of the variant's alignment. */
  predicate Aligned(payload: Option<Layout>, size: nat)
    requires PayloadSound(payload)
  {
    size % VariantAlign(payload) == 0
  }

  /** The size of the largest variant is a multiple of every variant's alignment. */
  ghost predicate AlignmentsDivide(payloads: seq<Option<Layout>>)
    requires payloads != [] && forall k :: 0 <= k < |payloads| ==> PayloadSound(payloads[k])
  {
    forall k :: 0 <= k < |payloads| ==> Aligned(payloads[k], Largest(payloads))
  }

  lemma PairLayout(l: Layout)
    requires Sound(l)
    ensures AllSound([TAG, l]) && EndOf([TAG, l]) == OffsetOf([TAG, l], 1) + l.size
    ensures OffsetOf([TAG, l], 1) == RoundUp(1, l.align)
    ensures MaxAlign([TAG, l]) == l.align && SizeOf([TAG, l]) == EndOf([TAG, l])
  {
    assert [TAG, l][..1] == [TAG] && [TAG][..0] == [] && [TAG, l][1..] == [l] && [l][1..] == [];
    assert MaxAlign([l]) == l.align;
    TagLayout();
    SumOfMultiples(RoundUp(1, l.align), l.size, l.align);
  }

  lemma SumOfMultiples(x: nat, y: nat, a: nat)
    requires a >= 1 && x % a == 0 && y % a == 0
    ensures (x + y) % a == 0
  {
    var p, q := x / a, y / a;
    assert x == a * p && y == a * q;
    assert x + y == a * (p + q) by { assert a * (p + q) == a * p + a * q; }
    MultipleOf(p + q, a);
  }

  lemma TagLayout()
    ensures AllSound([TAG]) && EndOf([TAG]) == 1 && SizeOf([TAG]) == 1 && MaxAlign([TAG]) == 1
  {
    var none: seq<Layout> := [];
    assert [TAG][..0] == none && [TAG][1..] == none;
    assert MaxAlign(none) == 1 && EndOf(none) == 0;
  }

  lemma VariantLayout(payload: Option<Layout>)
    requires PayloadSound(payload)
    ensures var fields := VariantFields(payload);
      && AllSound(fields) && 1 <= VariantSize(payload) == EndOf(fields) && MaxAlign(fields) == VariantAlign(payload)
      && (payload.Some? ==>
        1 <= OffsetOf(fields, 1) && OffsetOf(fields, 1) + payload.value.size == VariantSize(payload))
  {
    TagLayout();
    if payload.Some? { PairLayout(payload.value); }
  }

  /** Padding has alignment one, so it starts right after the fields; only the rounding at the end can add
      to the size. */
  lemma PaddedSize(payload: Option<Layout>, diff: nat)
    requires PayloadSound(payload)
    ensures var fields := VariantFields(payload) + [Layout(diff, 1)];
      && AllSound(fields) && SizeOf(fields) == RoundUp(VariantSize(payload) + diff, VariantAlign(payload))
      && (payload.Some? ==> OffsetOf(fields, 1) == OffsetOf(VariantFields(payload), 1))
  {
    var fields, pad := VariantFields(payload), Layout(diff, 1);
    VariantLayout(payload);
    assert (fields + [pad])[..|fields|] == fields;
    MaxAlignLast(fields, pad);
    if payload.Some? { assert (fields + [pad])[..1] == fields[..1]; }
  }

  lemma {:induction false} MaxAlignLast(fields: seq<Layout>, l: Layout)
    requires AllSound(fields) && Sound(l) && l.align == 1
    ensures AllSound(fields + [l]) && MaxAlign(fields + [l]) == MaxAlign(fields)
  {
    if fields != [] {
      MaxAlignLast(fields[1..], l);
      assert (fields + [l])[1..] == fields[1..] + [l];
    } else {
      assert [l][1..] == [];
    }
  }

  /** The base struct, tag and packed padding, is exactly as large as the largest variant. */
  function BaseSize(largest: nat): (r: nat)
    requires largest >= 1
    ensures r == largest
  {
    PairLayout(Layout(largest - 1, 1));
    SizeOf([TAG, Layout(largest - 1, 1)])
  }

  ghost predicate PayloadsSound(payloads: seq<Option<Layout>>) {
    forall k :: 0 <= k < |payloads| ==> PayloadSound(payloads[k])
  }

  /** A variant of an enum of the given size: tag, payload if any, then padding if the variant was too small. */
  predicate VariantLaidOut(payload: Option<Layout>, index: nat, v: VariantStruct, size: nat) {
    && PayloadSound(payload) && VariantSize(payload) <= size && v.tag == index
    && v.fields == VariantFields(payload) +
         (if VariantSize(payload) < size then [Layout(size - VariantSize(payload), 1)] else [])
  }

  /** The recorded size is the struct's. */
  predicate SizeRecorded(v: VariantStruct) {
    AllSound(v.fields) && SizeOf(v.fields) == v.size
  }

  /** Everything laid out, and all variants as large as the base. */
  ghost predicate LaidOut(payloads: seq<Option<Layout>>, e: EnumStruct) {
    && |e.variants| == |payloads| < LargestTag() && PayloadsSound(payloads)
    && 1 <= e.size && e.padding == WidestFirst(8 * e.size - 8)
    && forall k :: 0 <= k < |payloads| ==>
         && VariantLaidOut(payloads[k], k, e.variants[k], e.size)
         && SizeRecorded(e.variants[k]) && e.variants[k].size == e.size
  }

  lemma FinalVariantSize(payload: Option<Layout>, index: nat, v: VariantStruct, size: nat)
    requires VariantLaidOut(payload, index, v, size)
    ensures AllSound(v.fields) && SizeOf(v.fields) == RoundUp(size, VariantAlign(payload))
    ensures SizeOf(v.fields) == size <==> Aligned(payload, size)
    ensures payload.Some? ==>
      |v.fields| >= 2 && v.fields[1] == payload.value && 1 <= OffsetOf(v.fields, 1)
        && OffsetOf(v.fields, 1) + payload.value.size <= size
  {
    VariantLayout(payload);
    if VariantSize(payload) < size {
      PaddedSize(payload, size - VariantSize(payload));
    } else {
      var fields := VariantFields(payload);
      assert v.fields == fields;
      assert SizeOf(fields) % VariantAlign(payload) == 0;
    }
  }

  /** The enum case of type code generation: pad every variant to the largest and compare sizes with the base.
      It fails with too many variants, with none, or when a padded variant is larger than the base. */
  method CodegenEnum(payloads: seq<Option<Layout>>) returns (r: Result<EnumStruct>)
    requires PayloadsSound(payloads)
    ensures r.Ok? <==> 0 < |payloads| < LargestTag() && AlignmentsDivide(payloads)
    ensures r.Ok? ==> LaidOut(payloads, r.value) && r.value.size == Largest(payloads)
  {
    LimitIsLargestTag();
    if |payloads| >= VARIANT_LIMIT || |payloads| == 0 { return Err; }
    var variants, largest := VariantStructs(payloads);
    var padded := PadVariants(payloads, variants, largest);
    var padding := PaddingType(8 * largest - 8);
    var sameSize := SameSizeCheck(padded, BaseSize(largest));
    PaddedLaidOut(payloads, padded, largest);
    if !sameSize { return Err; }
    r := Ok(EnumStruct(padded, padding, largest));
  }

  ghost predicate AllPadded(payloads: seq<Option<Layout>>, padded: seq<VariantStruct>, largest: nat) {
    |padded| == |payloads| && forall j :: 0 <= j < |payloads| ==> VariantPadded(payloads[j], j, padded[j], largest)
  }

  lemma PaddedLaidOut(payloads: seq<Option<Layout>>, padded: seq<VariantStruct>, largest: nat)
    requires PayloadsSound(payloads) && 0 < |payloads| < LargestTag() && largest == Largest(payloads) && largest >= 1
    requires AllPadded(payloads, padded, largest)
    ensures (forall j :: 0 <= j < |padded| ==> padded[j].size == largest) <==> AlignmentsDivide(payloads)
    ensures AlignmentsDivide(payloads) ==> LaidOut(payloads, EnumStruct(padded, WidestFirst(8 * largest - 8), largest))
  {
    forall j | 0 <= j < |payloads|
      ensures padded[j].size == largest <==> Aligned(payloads[j], largest)
      ensures VariantLaidOut(payloads[j], j, padded[j], largest) && SizeRecorded(padded[j])
    {
      assert VariantPadded(payloads[j], j, padded[j], largest);
    }
  }

  /** Are all variants as large as the base, the tag with the padding that makes up the largest variant? */
  method SameSizeCheck(variants: seq<VariantStruct>, base: nat) returns (same: bool)
    ensures same <==> forall j :: 0 <= j < |variants| ==> variants[j].size == base
  {
    for k := 0 to |variants|
      invariant forall j :: 0 <= j < k ==> variants[j].size == base
    {
      if variants[k].size != base { return false; }
    }
    same := true;
  }

  /** The variants as first built, none larger than `largest`. */
  ghost predicate AllUnpadded(payloads: seq<Option<Layout>>, variants: seq<VariantStruct>, largest: nat) {
    |variants| == |payloads| && forall j :: 0 <= j < |payloads| ==>
      VariantUnpadded(payloads[j], j, variants[j], largest)
  }

  function UnpaddedVariant(payload: Option<Layout>, index: nat): VariantStruct
    requires PayloadSound(payload)
  {
    VariantStruct(VariantFields(payload), index, VariantSize(payload))
  }

  ghost predicate VariantUnpadded(payload: Option<Layout>, index: nat, v: VariantStruct, largest: nat) {
    && PayloadSound(payload) && VariantSize(payload) <= largest
    && v == UnpaddedVariant(payload, index)
  }

  function UnpaddedVariants(payloads: seq<Option<Layout>>): (r: seq<VariantStruct>)
    requires forall j :: 0 <= j < |payloads| ==> PayloadSound(payloads[j])
    ensures |r| == |payloads| && forall j :: 0 <= j < |r| ==> r[j] == UnpaddedVariant(payloads[j], j)
  {
    seq(|payloads|, j requires 0 <= j < |payloads| => UnpaddedVariant(payloads[j], j))
  }

  lemma UnpaddedWithinLargest(payloads: seq<Option<Layout>>)
    requires payloads != [] && PayloadsSound(payloads)
    ensures 1 <= Largest(payloads) && AllUnpadded(payloads, UnpaddedVariants(payloads), Largest(payloads))
  {
    LargestIsMaximum(payloads);
  }

  method BuildVariant(payload: Option<Layout>, index: nat) returns (v: VariantStruct)
    requires PayloadSound(payload)
    ensures v == UnpaddedVariant(payload, index)
  {
    VariantLayout(payload);
    var fields := VariantFields(payload);
    v := VariantStruct(fields, index, SizeOf(fields));
  }

  method VariantStructs(payloads: seq<Option<Layout>>) returns (variants: seq<VariantStruct>, largest: nat)
    requires payloads != [] && PayloadsSound(payloads)
    ensures 1 <= largest == Largest(payloads) && AllUnpadded(payloads, variants, largest)
  {
    variants, largest := [], 0;
    for k := 0 to |payloads|
      invariant variants == UnpaddedVariants(payloads)[..k] && largest == LargestOf(payloads, k)
    {
      var v := BuildVariant(payloads[k], k);
      variants := variants + [v];
      if v.size > largest { largest := v.size; }
    }
    UnpaddedWithinLargest(payloads);
  }

  /** After padding the size is recorded anew, and it is the wanted one just if the alignment allows. */
  ghost predicate VariantPadded(payload: Option<Layout>, index: nat, v: VariantStruct, size: nat) {
    && VariantLaidOut(payload, index, v, size) && SizeRecorded(v)
    && (v.size == size <==> Aligned(payload, size))
  }

  method PadVariants(payloads: seq<Option<Layout>>, variants: seq<VariantStruct>,
                     largest: nat) returns (padded: seq<VariantStruct>)
    requires AllUnpadded(payloads, variants, largest)
    ensures AllPadded(payloads, padded, largest)
  {
    padded := [];
    for k := 0 to |payloads|
      invariant |padded| == k
      invariant forall j :: 0 <= j < k ==> VariantPadded(payloads[j], j, padded[j], largest)
    {
      assert VariantUnpadded(payloads[k], k, variants[k], largest);
      var v := PadVariant(variants[k], payloads[k], k, largest);
      padded := padded + [v];
    }
  }

  method PadVariant(v: VariantStruct, ghost payload: Option<Layout>, ghost index: nat,
                    largest: nat) returns (r: VariantStruct)
    requires VariantUnpadded(payload, index, v, largest)
    ensures VariantPadded(payload, index, r, largest)
  {
    var fields := v.fields;
    VariantLayout(payload);
    var difference := largest - v.size;
    if difference != 0 {
      var padding := PaddingType(8 * difference);
      WidestFirstFills(8 * difference);
      fields := fields + [Layout(PackedSize(padding), 1)];
    }
    FinalVariantSize(payload, index, v.(fields := fields), largest);
    r := VariantStruct(fields, v.tag, SizeOf(fields));
  }

  lemma {:induction false} LargestOfBounds(payloads: seq<Option<Layout>>, n: nat, k: nat)
    requires k < n <= |payloads| && PayloadsSound(payloads)
    ensures VariantSize(payloads[k]) <= LargestOf(payloads, n)
  {
    if k < n - 1 { LargestOfBounds(payloads, n - 1, k); }
  }

  lemma {:induction false} LargestOfReached(payloads: seq<Option<Layout>>, n: nat) returns (k: nat)
    requires 0 < n <= |payloads| && PayloadsSound(payloads)
    ensures k < n && VariantSize(payloads[k]) == LargestOf(payloads, n)
  {
    VariantLayout(payloads[n - 1]);
    assert LargestOf(payloads, 0) == 0;
    if VariantSize(payloads[n - 1]) == LargestOf(payloads, n) { return n - 1; }
    k := LargestOfReached(payloads, n - 1);
  }

  /** Largest is the maximum: it is reached, and nothing is above it. */
  lemma LargestIsMaximum(payloads: seq<Option<Layout>>)
    requires payloads != [] && PayloadsSound(payloads)
    ensures 1 <= Largest(payloads)
    ensures (forall j :: 0 <= j < |payloads| ==> VariantSize(payloads[j]) <= Largest(payloads))
      && exists j :: 0 <= j < |payloads| && VariantSize(payloads[j]) == Largest(payloads)
  {
    forall j | 0 <= j < |payloads| ensures VariantSize(payloads[j]) <= Largest(payloads) {
      LargestOfBounds(payloads, |payloads|, j);
    }
    var k := LargestOfReached(payloads, |payloads|);
    VariantLayout(payloads[k]);
  }

  /** The variants { i64 } and { six i32 } are fine separately, but no enum with both can be generated. */
  lemma MisalignedEnum()
    ensures var payloads := [Some(Layout(8, 8)), Some(Layout(24, 4))];
      PayloadsSound(payloads) && Largest(payloads) == 28 && !AlignmentsDivide(payloads)
  {
    var payloads := [Some(Layout(8, 8)), Some(Layout(24, 4))];
    PairLayout(Layout(8, 8));
    PairLayout(Layout(24, 4));
    assert payloads[1..] == [Some(Layout(24, 4))];
    assert RoundUp(1, 8) == 8 && RoundUp(1, 4) == 4;
    assert VariantSize(payloads[0]) == 16 && VariantSize(payloads[1]) == 28;
    assert LargestOf(payloads, 1) == 16 && LargestOf(payloads, 2) == 28;
    assert VariantAlign(payloads[0]) == 8;
  }
}
