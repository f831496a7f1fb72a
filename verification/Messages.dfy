/** Protocol buffer messages as nanopb lays them out (nanopb/pb.h), and their encoding as bytes. */
module Messages {
  import opened Format
  import opened Coding

  /** PB_LTYPE with the sizes that go with it: of an integer in bytes, or of a buffer. */
  datatype LType =
    | LBool
    | LVarint(size: nat)
    | LUVarint(size: nat)
    | LSVarint(size: nat)
    | LFixed32
    | LFixed64
    | LBytes(max: nat)
    | LString(max: nat)
    | LSubmessage(fields: seq<Field>)
    | LFixedBytes(size: nat)

  /** PB_HTYPE; an implicit field is an optional one without a has_ flag, a fixed-count field a
      repeated one without a counter, and the fields of one oneof share a union. */
  datatype HType =
    | HRequired
    | HOptional
    | HImplicit
    | HRepeated(max: nat)
    | HFixedCount(count: nat)
    | HOneof(group: nat)

  /** pb_field_t; `init` is the default value it points to, if any. */
  datatype Field = Field(tag: nat, ltype: LType, htype: HType, init: Option<Item>)

  datatype Item =
    | VBool(b: bool)
    | VInt(i: int)
    | VFixed(n: nat)
    | VBytes(bytes: seq<byte>)
    | VMessage(slots: seq<Slot>)

  /** What a message struct holds for a field. */
  datatype Slot = One(value: Item) | Opt(has: bool, value: Item) | Many(values: seq<Item>)

  function Pow256(n: nat): nat {
    if n == 0 then 1 else 256 * Pow256(n - 1)
  }

  predicate IntSize(size: nat) {
    size == 1 || size == 2 || size == 4 || size == 8
  }

  predicate SignedFits(i: int, size: nat) {
    0 <= 2 * i + Pow256(size) < 2 * Pow256(size)
  }

  /** The value has the shape and the range the C type gives it. */
  ghost predicate ValueHas(t: LType, v: Item)
    decreases v
  {
    match t
    case LBool => v.VBool?
    case LVarint(size) => IntSize(size) && v.VInt? && SignedFits(v.i, size)
    case LUVarint(size) => IntSize(size) && v.VInt? && 0 <= v.i < Pow256(size)
    case LSVarint(size) => IntSize(size) && v.VInt? && SignedFits(v.i, size)
    case LFixed32 => v.VFixed? && v.n < TWO_TO_32
    case LFixed64 => v.VFixed? && v.n < TWO_TO_64
    case LBytes(max) => v.VBytes?
    case LString(max) => v.VBytes? && |v.bytes| <= max
    case LSubmessage(fields) => v.VMessage? && SlotsHave(fields, v.slots)
    case LFixedBytes(size) => v.VBytes? && |v.bytes| == size
  }

  ghost predicate SlotHas(f: Field, s: Slot)
    decreases s
  {
    match f.htype
    case HRequired => s.One? && ValueHas(f.ltype, s.value)
    case HImplicit => s.One? && ValueHas(f.ltype, s.value)
    case HOptional => s.Opt? && ValueHas(f.ltype, s.value)
    case HOneof(_) => s.Opt? && (s.has ==> ValueHas(f.ltype, s.value))
    case HRepeated(max) => s.Many? && forall i :: 0 <= i < |s.values| ==> ValueHas(f.ltype, s.values[i])
    case HFixedCount(count) => s.Many? && |s.values| == count && forall i :: 0 <= i < |s.values| ==> ValueHas(f.ltype, s.values[i])
  }

  ghost predicate SlotsHave(fields: seq<Field>, slots: seq<Slot>)
    decreases slots
  {
    |slots| == |fields| && forall i :: 0 <= i < |slots| ==> SlotHas(fields[i], slots[i])
  }

  // ----- the encoding

  predicate Packable(t: LType) {
    t.LBool? || t.LVarint? || t.LUVarint? || t.LSVarint? || t.LFixed32? || t.LFixed64?
  }

  const WT_VARINT := 0
  const WT_64BIT := 1
  const WT_STRING := 2
  const WT_32BIT := 5

  function WireType(t: LType): nat {
    if t.LBool? || t.LVarint? || t.LUVarint? || t.LSVarint? then WT_VARINT
    else if t.LFixed32? then WT_32BIT
    else if t.LFixed64? then WT_64BIT
    else WT_STRING
  }

  function TagBytes(tag: nat, wireType: nat): seq<byte> {
    Varint(tag * 8 + wireType)
  }

  /** The cast to uint64_t. */
  function Unsigned(i: int): nat {
    i % TWO_TO_64
  }

  /** pb_encode_svarint's zigzag form. */
  function ZigZag(i: int): nat {
    if i < 0 then -2 * i - 1 else 2 * i
  }

  function LittleEndian(n: nat, size: nat): (bytes: seq<byte>)
    ensures |bytes| == size
  {
    if size == 0 then [] else [(n % 256) as byte] + LittleEndian(n / 256, size - 1)
  }

  /** What a field encoder writes. */
  function ValueBytes(t: LType, v: Item): seq<byte>
    decreases v, 0
  {
    match t
    case LBool => if v.VBool? && v.b then Varint(1) else Varint(0)
    case LVarint(_) => if v.VInt? then Varint(Unsigned(v.i)) else []
    case LUVarint(_) => if v.VInt? && v.i >= 0 then Varint(v.i) else []
    case LSVarint(_) => if v.VInt? then Varint(ZigZag(v.i)) else []
    case LFixed32 => if v.VFixed? then LittleEndian(v.n, 4) else []
    case LFixed64 => if v.VFixed? then LittleEndian(v.n, 8) else []
    case LBytes(_) => if v.VBytes? then LengthPrefixed(v.bytes) else []
    case LString(_) => if v.VBytes? then LengthPrefixed(v.bytes) else []
    case LFixedBytes(_) => if v.VBytes? then LengthPrefixed(v.bytes) else []
    case LSubmessage(fields) => if v.VMessage? then LengthPrefixed(MessageBytes(fields, v.slots, |v.slots|)) else []
  }

  /** The first `n` array elements, one after another. */
  function ValuesBytes(t: LType, vs: seq<Item>, n: nat): seq<byte>
    requires n <= |vs|
    decreases vs, n, 0
  {
    if n == 0 then [] else ValuesBytes(t, vs, n - 1) + ValueBytes(t, vs[n - 1])
  }

  /** The first `n` array elements, each with its tag. */
  function TaggedBytes(f: Field, vs: seq<Item>, n: nat): seq<byte>
    requires n <= |vs|
    decreases vs, n, 0
  {
    if n == 0 then [] else TaggedBytes(f, vs, n - 1) + Tagged(f, ValueBytes(f.ltype, vs[n - 1]))
  }

  function Tagged(f: Field, bytes: seq<byte>): seq<byte> {
    TagBytes(f.tag, WireType(f.ltype)) + bytes
  }

  /** pb_check_proto3_default_value; a buffer of no bytes has only one value. */
  predicate IsDefault(t: LType, v: Item)
    decreases v, 0
  {
    match t
    case LBool => v == VBool(false)
    case LVarint(_) => v == VInt(0)
    case LUVarint(_) => v == VInt(0)
    case LSVarint(_) => v == VInt(0)
    case LFixed32 => v == VFixed(0)
    case LFixed64 => v == VFixed(0)
    case LBytes(_) => v == VBytes([])
    case LString(_) => v == VBytes([])
    case LFixedBytes(size) => size == 0 && v == VBytes([])
    case LSubmessage(fields) => v.VMessage? && |v.slots| == |fields| && AllDefault(fields, v.slots, |v.slots|)
  }

  predicate AllDefault(fields: seq<Field>, slots: seq<Slot>, n: nat)
    requires n <= |slots| == |fields|
    decreases slots, n, 0
  {
    n == 0 || (AllDefault(fields, slots, n - 1) && SlotDefault(fields[n - 1], slots[n - 1]))
  }

  predicate SlotDefault(f: Field, s: Slot)
    decreases s, 0
  {
    match f.htype
    case HRequired => false
    case HFixedCount(_) => false
    case HRepeated(_) => s.Many? && s.values == []
    case HOneof(_) => s.Opt? && !s.has
    case HOptional => s.Opt? && !s.has
    case HImplicit => s.One? && IsDefault(f.ltype, s.value)
  }

  /** encode_basic_field and encode_array. */
  function SlotBytes(f: Field, s: Slot): seq<byte>
    decreases s, 0
  {
    match s
    case One(v) => if f.htype.HImplicit? && IsDefault(f.ltype, v) then [] else Tagged(f, ValueBytes(f.ltype, v))
    case Opt(has, v) => if has then Tagged(f, ValueBytes(f.ltype, v)) else []
    case Many(vs) =>
      if vs == [] then []
      else if Packable(f.ltype) then TagBytes(f.tag, WT_STRING) + LengthPrefixed(ValuesBytes(f.ltype, vs, |vs|))
      else TaggedBytes(f, vs, |vs|)
  }

  /** pb_encode: the first `n` fields. */
  function MessageBytes(fields: seq<Field>, slots: seq<Slot>, n: nat): seq<byte>
    requires n <= |slots|
    decreases slots, n, 0
  {
    if n == 0 then [] else
      MessageBytes(fields, slots, n - 1) + if n <= |fields| then SlotBytes(fields[n - 1], slots[n - 1]) else []
  }

  /** The counts and sizes the encoder checks. */
  predicate ValueEncodes(t: LType, v: Item)
    decreases v, 0
  {
    match t
    case LBytes(max) => v.VBytes? && |v.bytes| <= max
    case LSubmessage(fields) => v.VMessage? && |v.slots| == |fields| && MessageEncodes(fields, v.slots, |v.slots|)
    case _ => true
  }

  predicate ValuesEncode(t: LType, vs: seq<Item>, n: nat)
    requires n <= |vs|
    decreases vs, n, 0
  {
    n == 0 || (ValuesEncode(t, vs, n - 1) && ValueEncodes(t, vs[n - 1]))
  }

  predicate SlotEncodes(f: Field, s: Slot)
    decreases s, 0
  {
    match s
    case One(v) => (f.htype.HImplicit? && IsDefault(f.ltype, v)) || ValueEncodes(f.ltype, v)
    case Opt(has, v) => !has || ValueEncodes(f.ltype, v)
    case Many(vs) => (f.htype.HRepeated? ==> |vs| <= f.htype.max) && ValuesEncode(f.ltype, vs, |vs|)
  }

  predicate MessageEncodes(fields: seq<Field>, slots: seq<Slot>, n: nat)
    requires n <= |slots| == |fields|
    decreases slots, n, 0
  {
    n == 0 || (MessageEncodes(fields, slots, n - 1) && SlotEncodes(fields[n - 1], slots[n - 1]))
  }

  // ----- the wire format in examples

  /** A field with a tag below 16 starts with one byte: the tag, and in the low three bits the wire type. */
  lemma TagExample(f: Field, bytes: seq<byte>)
    requires 0 < f.tag < 16
    ensures Tagged(f, bytes)[1..] == bytes
    ensures f.ltype.LBool? || f.ltype.LVarint? || f.ltype.LUVarint? || f.ltype.LSVarint? ==> Tagged(f, bytes)[0] as nat == 8 * f.tag
    ensures f.ltype.LFixed64? ==> Tagged(f, bytes)[0] as nat == 8 * f.tag + 1
    ensures f.ltype.LBytes? || f.ltype.LString? || f.ltype.LFixedBytes? || f.ltype.LSubmessage? ==> Tagged(f, bytes)[0] as nat == 8 * f.tag + 2
    ensures f.ltype.LFixed32? ==> Tagged(f, bytes)[0] as nat == 8 * f.tag + 5
  {
    assert TagBytes(f.tag, WireType(f.ltype)) == [(f.tag * 8 + WireType(f.ltype)) as byte];
  }

  /** Fields of each wire type, byte for byte. */
  lemma VarintExamples()
    ensures SlotBytes(Field(1, LVarint(4), HRequired, None), One(VInt(150))) == [0x08, 0x96, 0x01]
    ensures SlotBytes(Field(5, LSVarint(4), HRequired, None), One(VInt(-2))) == [0x28, 3]
  {
    var f, g := Field(1, LVarint(4), HRequired, None), Field(5, LSVarint(4), HRequired, None);
    assert ValueBytes(f.ltype, VInt(150)) == [0x96, 0x01] && TagBytes(1, WT_VARINT) == [0x08];
    assert ValueBytes(g.ltype, VInt(-2)) == [3] && TagBytes(5, WT_VARINT) == [0x28];
    hide ValueBytes, TagBytes;
    assert SlotBytes(f, One(VInt(150))) == Tagged(f, [0x96, 0x01]);
    assert SlotBytes(g, One(VInt(-2))) == Tagged(g, [3]);
  }

  lemma FixedExample()
    ensures SlotBytes(Field(3, LFixed32, HOptional, None), Opt(true, VFixed(258))) == [0x1d, 2, 1, 0, 0]
  {
    var f := Field(3, LFixed32, HOptional, None);
    assert LittleEndian(1, 3) == [1, 0, 0];
    assert LittleEndian(258, 4) == [2, 1, 0, 0] && TagBytes(3, WT_32BIT) == [0x1d];
    hide LittleEndian, TagBytes;
    assert SlotBytes(f, Opt(true, VFixed(258))) == Tagged(f, [2, 1, 0, 0]);
  }

  lemma StringExample()
    ensures SlotBytes(Field(2, LString(9), HRequired, None), One(VBytes([0x68, 0x69]))) == [0x12, 2, 0x68, 0x69]
  {
    var f := Field(2, LString(9), HRequired, None);
    assert ValueBytes(f.ltype, VBytes([0x68, 0x69])) == [2, 0x68, 0x69] && TagBytes(2, WT_STRING) == [0x12];
    hide ValueBytes, TagBytes;
    assert SlotBytes(f, One(VBytes([0x68, 0x69]))) == Tagged(f, [2, 0x68, 0x69]);
  }

  /** A packed array. */
  lemma PackedExample()
    ensures SlotBytes(Field(6, LVarint(4), HRepeated(9), None), Many([VInt(3), VInt(270)])) == [0x32, 3, 3, 0x8e, 2]
  {
    var vs := [VInt(3), VInt(270)];
    assert Varint(270) == [0x8e, 2];
    assert ValuesBytes(LVarint(4), vs, 1) == [3];
    assert ValuesBytes(LVarint(4), vs, 2) == [3, 0x8e, 2];
  }

  /** An array that cannot be packed. */
  lemma RepeatedExample()
    ensures SlotBytes(Field(7, LString(9), HRepeated(9), None), Many([VBytes([0x61]), VBytes([])])) == [0x3a, 1, 0x61, 0x3a, 0]
  {
    var f, vs := Field(7, LString(9), HRepeated(9), None), [VBytes([0x61]), VBytes([])];
    assert TaggedBytes(f, vs, 1) == [0x3a, 1, 0x61];
    assert TaggedBytes(f, vs, 2) == [0x3a, 1, 0x61, 0x3a, 0];
  }

  /** A submessage. */
  lemma NestedExample()
    ensures SlotBytes(Field(3, LSubmessage([Field(1, LVarint(4), HRequired, None)]), HOptional, None), Opt(true, VMessage([One(VInt(150))])))
      == [0x1a, 3, 0x08, 0x96, 0x01]
  {
    var fields, slots := [Field(1, LVarint(4), HRequired, None)], [One(VInt(150))];
    var f := Field(3, LSubmessage(fields), HOptional, None);
    VarintExamples();
    hide SlotBytes, TagBytes;
    assert MessageBytes(fields, slots, 0) == [];
    assert MessageBytes(fields, slots, 1) == SlotBytes(fields[0], slots[0]) == [0x08, 0x96, 0x01];
    assert ValueBytes(f.ltype, VMessage(slots)) == [3, 0x08, 0x96, 0x01];
    NestedTag(f, VMessage(slots));
  }

  lemma NestedTag(f: Field, v: Item)
    requires f.ltype.LSubmessage? && f.tag == 3
    ensures SlotBytes(f, Opt(true, v)) == [0x1a] + ValueBytes(f.ltype, v)
  {
    hide ValueBytes;
    assert TagBytes(3, WT_STRING) == [0x1a];
  }
}
