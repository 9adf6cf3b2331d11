/** Building an enum value in memory, loading it as the base struct, and reading tag and payload back. */
module EnumMemory {
  import opened Wrappers
  import opened EnumLayout

  type Byte = b: nat | b < 256

  /** A loaded base struct: the tag and the bytes held by each padding member. */
  datatype BaseValue = BaseValue(tag: Byte, members: seq<seq<Byte>>)

  /** Stack memory just big enough, with whatever was there before. */
  type Memory = seq<Byte>

  function Write(mem: Memory, at: nat, bytes: seq<Byte>): (r: Memory)
    requires at + |bytes| <= |mem|
    ensures |r| == |mem|
  {
    mem[..at] + bytes + mem[at + |bytes|..]
  }

  predicate WholeBytes(widths: seq<nat>) {
    forall k :: 0 <= k < |widths| ==> widths[k] % 8 == 0
  }

  function ByteCount(widths: seq<nat>): nat {
    if widths == [] then 0 else widths[0] / 8 + ByteCount(widths[1..])
  }

  lemma {:induction false} ByteCountIsSum(widths: seq<nat>)
    requires WholeBytes(widths)
    ensures 8 * ByteCount(widths) == Sum(widths)
  {
    if widths != [] { ByteCountIsSum(widths[1..]); }
  }

  // ---------- what the instructions do ----------

  /** Loads the members of a packed struct one after the other. */
  function LoadMembers(mem: Memory, at: nat, widths: seq<nat>): seq<seq<Byte>>
    requires at + ByteCount(widths) <= |mem|
    decreases |widths|
  {
    if widths == [] then []
    else
      var n := widths[0] / 8;
      [mem[at..at + n]] + LoadMembers(mem, at + n, widths[1..])
  }

  function MembersSize(members: seq<seq<Byte>>): nat {
    if members == [] then 0 else |members[0]| + MembersSize(members[1..])
  }

  function StoreMembers(mem: Memory, at: nat, members: seq<seq<Byte>>): (r: Memory)
    requires at + MembersSize(members) <= |mem|
    ensures |r| == |mem|
    decreases |members|
  {
    if members == [] then mem
    else StoreMembers(Write(mem, at, members[0]), at + |members[0]|, members[1..])
  }

  /** Allocates the variant's struct, stores the tag in its first byte and the payload at the payload's offset, and
      loads the whole as the base struct. */
  function ConstructEnum(e: EnumStruct, index: nat, payload: seq<Byte>, stack: Memory): BaseValue
    requires index < |e.variants| && e.variants[index].tag < 256 && e.size >= 1 && |stack| == e.variants[index].size
    requires AllSound(e.variants[index].fields) && 1 + ByteCount(e.padding) <= |stack|
    requires payload != [] ==>
      |e.variants[index].fields| >= 2 && OffsetOf(e.variants[index].fields, 1) + |payload| <= |stack|
  {
    var v := e.variants[index];
    var tagged := Write(stack, 0, [v.tag as Byte]);
    var filled := if payload == [] then tagged else Write(tagged, OffsetOf(v.fields, 1), payload);
    BaseValue(filled[0], LoadMembers(filled, 1, e.padding))
  }

  function EnumTag(value: BaseValue): Byte {
    value.tag
  }

  /** Stores the base value into memory allocated for the variant and loads the payload from its place there. */
  function EnumPayload(e: EnumStruct, index: nat, value: BaseValue, size: nat, stack: Memory): seq<Byte>
    requires index < |e.variants| && |stack| == e.variants[index].size && 1 + MembersSize(value.members) <= |stack|
    requires AllSound(e.variants[index].fields) && |e.variants[index].fields| >= 2
    requires OffsetOf(e.variants[index].fields, 1) + size <= |stack|
  {
    var stored := StoreMembers(Write(stack, 0, [value.tag]), 1, value.members);
    var at := OffsetOf(e.variants[index].fields, 1);
    stored[at..at + size]
  }

  // ---------- the round trip ----------

  lemma {:induction false} LoadedSize(mem: Memory, at: nat, widths: seq<nat>)
    requires at + ByteCount(widths) <= |mem|
    ensures MembersSize(LoadMembers(mem, at, widths)) == ByteCount(widths)
    decreases |widths|
  {
    if widths != [] {
      var n := widths[0] / 8;
      LoadedSize(mem, at + n, widths[1..]);
      assert LoadMembers(mem, at, widths)[1..] == LoadMembers(mem, at + n, widths[1..]);
    }
  }

  /** mem is `to` with n bytes from position `at` on taken from `from`. */
  ghost predicate Copied(mem: Memory, from: Memory, to: Memory, at: nat, n: nat)
    requires at + n <= |from| && at + n <= |to|
  {
    |mem| == |to| && forall i :: 0 <= i < |to| ==> mem[i] == if at <= i < at + n then from[i] else to[i]
  }

  lemma CopiedInTwo(mem: Memory, from: Memory, to: Memory, next: Memory, at: nat, n: nat, m: nat)
    requires at + n + m <= |from| && at + n + m <= |to| && next == Write(to, at, from[at..at + n])
    requires Copied(mem, from, next, at + n, m)
    ensures Copied(mem, from, to, at, n + m)
  {
    forall i | 0 <= i < |to| ensures mem[i] == if at <= i < at + n + m then from[i] else to[i] {
      assert next[i] == if at <= i < at + n then from[i] else to[i];
    }
  }

  /** Storing what was loaded copies the bytes, whatever integers they were cut into. */
  lemma {:induction false} LoadThenStore(from: Memory, to: Memory, at: nat, widths: seq<nat>)
    requires at + ByteCount(widths) <= |from| && at + ByteCount(widths) <= |to|
    ensures MembersSize(LoadMembers(from, at, widths)) == ByteCount(widths)
    ensures Copied(StoreMembers(to, at, LoadMembers(from, at, widths)), from, to, at, ByteCount(widths))
    decreases |widths|
  {
    LoadedSize(from, at, widths);
    if widths != [] {
      var n := widths[0] / 8;
      var members := LoadMembers(from, at, widths);
      var next := Write(to, at, members[0]);
      assert members[0] == from[at..at + n] && members[1..] == LoadMembers(from, at + n, widths[1..]);
      LoadThenStore(from, next, at + n, widths[1..]);
      CopiedInTwo(StoreMembers(next, at + n, members[1..]), from, to, next, at, n, ByteCount(widths[1..]));
    }
  }

  /** An enum value can be built for variant index with this payload. */
  ghost predicate Constructible(payloads: seq<Option<Layout>>, index: nat, payload: seq<Byte>) {
    && index < |payloads|
    && |payload| == if payloads[index].Some? then payloads[index].value.size else 0
  }

  /** In an enum that could be generated, the accesses of construction and payload reading stay inside their memory. */
  lemma AccessesInBounds(payloads: seq<Option<Layout>>, e: EnumStruct, index: nat, payload: seq<Byte>)
    requires LaidOut(payloads, e) && Constructible(payloads, index, payload)
    ensures e.variants[index].tag == index < 255 && e.variants[index].size == e.size == 1 + ByteCount(e.padding)
    ensures AllSound(e.variants[index].fields)
    ensures payloads[index].Some? ==>
      && |e.variants[index].fields| >= 2
      && 1 <= OffsetOf(e.variants[index].fields, 1) && OffsetOf(e.variants[index].fields, 1) + |payload| <= e.size
  {
    FinalVariantSize(payloads[index], index, e.variants[index], e.size);
    WidestFirstFills(8 * e.size - 8);
    assert WholeBytes(e.padding);
    ByteCountIsSum(e.padding);
  }

  /** Bytes written after the first leave that one alone and can be read back. */
  lemma Written(mem: Memory, at: nat, bytes: seq<Byte>)
    requires 1 <= at && at + |bytes| <= |mem|
    ensures Write(mem, at, bytes)[0] == mem[0] && Write(mem, at, bytes)[at..at + |bytes|] == bytes
  {
  }

  /** Main result: variant index built with a payload and loaded as the base has tag index, and reading the payload back
      as that variant gives the stored bytes, whatever was in either piece of stack memory before. */
  lemma EnumRoundTrip(payloads: seq<Option<Layout>>, e: EnumStruct, index: nat, payload: seq<Byte>, stack: Memory,
                      other: Memory)
    requires LaidOut(payloads, e) && Constructible(payloads, index, payload) && |stack| == |other| == e.size
    ensures e.variants[index].size == e.size && e.variants[index].tag < 256 && 1 + ByteCount(e.padding) <= e.size
    ensures AllSound(e.variants[index].fields)
    ensures payload != [] ==>
      |e.variants[index].fields| >= 2 && OffsetOf(e.variants[index].fields, 1) + |payload| <= e.size
    ensures var value := ConstructEnum(e, index, payload, stack);
      && EnumTag(value) == index
      && 1 + MembersSize(value.members) <= |other|
      && (payload != [] ==> EnumPayload(e, index, value, |payload|, other) == payload)
  {
    AccessesInBounds(payloads, e, index, payload);
    var fields := e.variants[index].fields;
    var tagged := Write(stack, 0, [index as Byte]);
    assert tagged[0] == index;
    if payload == [] {
      LoadThenStore(tagged, other, 1, e.padding);
    } else {
      var at := OffsetOf(fields, 1);
      var filled := Write(tagged, at, payload);
      Written(tagged, at, payload);
      BaseCopies(e, filled, other);
    }
  }

  /** Loading as the base and storing it elsewhere copies every byte of the enum. */
  lemma BaseCopies(e: EnumStruct, from: Memory, to: Memory)
    requires |from| == |to| == e.size == 1 + ByteCount(e.padding)
    ensures var members := LoadMembers(from, 1, e.padding);
      1 + MembersSize(members) == |to| && StoreMembers(Write(to, 0, [from[0]]), 1, members) == from
  {
    LoadThenStore(from, Write(to, 0, [from[0]]), 1, e.padding);
  }

  /** The tag test tells exactly the variant that was built. */
  lemma TagTellsVariant(payloads: seq<Option<Layout>>, e: EnumStruct, index: nat, payload: seq<Byte>, stack: Memory,
                        k: nat)
    requires LaidOut(payloads, e) && Constructible(payloads, index, payload) && |stack| == e.size && k < |payloads|
    ensures e.variants[index].size == e.size && e.variants[index].tag < 256 && 1 + ByteCount(e.padding) <= e.size
    ensures AllSound(e.variants[index].fields)
    ensures payload != [] ==>
      |e.variants[index].fields| >= 2 && OffsetOf(e.variants[index].fields, 1) + |payload| <= e.size
    ensures EnumTag(ConstructEnum(e, index, payload, stack)) == e.variants[k].tag <==> k == index
  {
    EnumRoundTrip(payloads, e, index, payload, stack, stack);
    AccessesInBounds(payloads, e, index, payload);
    assert VariantLaidOut(payloads[k], k, e.variants[k], e.size);
  }
}
