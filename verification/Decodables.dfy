/** What decoding an encoded message gives back, and from which messages. */
module Decodables {
  import opened Format
  import opened Coding
  import opened Messages

  // ----- defaults, and messages up to what is not set

  /** pb_message_set_to_defaults: all zeros, with the defaults of its fields in a submessage. */
  function Default(t: LType): (v: Item)
    ensures t.LFixedBytes? ==> v.VBytes? && |v.bytes| == t.size && forall i :: 0 <= i < t.size ==> v.bytes[i] == 0
    decreases t
  {
    match t
    case LBool => VBool(false)
    case LVarint(_) => VInt(0)
    case LUVarint(_) => VInt(0)
    case LSVarint(_) => VInt(0)
    case LFixed32 => VFixed(0)
    case LFixed64 => VFixed(0)
    case LBytes(_) => VBytes([])
    case LString(_) => VBytes([])
    case LFixedBytes(size) => VBytes(seq(size, _ => 0))
    case LSubmessage(fields) => VMessage(DefaultSlots(fields))
  }

  function DefaultSlots(fields: seq<Field>): (slots: seq<Slot>)
    ensures |slots| == |fields| && forall i :: 0 <= i < |fields| ==> slots[i] == DefaultSlot(fields[i])
    decreases fields
  {
    seq(|fields|, i requires 0 <= i < |fields| => DefaultSlot(fields[i]))
  }

  /** pb_field_set_to_default: a field's own default, which a submessage and a oneof do not use. */
  function Initial(f: Field): Item
    decreases f, 0
  {
    if f.ltype.LSubmessage? || f.htype.HOneof? || f.init == None then Default(f.ltype) else f.init.value
  }

  function DefaultSlot(f: Field): Slot
    decreases f, 1
  {
    match f.htype
    case HRequired => One(Initial(f))
    case HImplicit => One(Initial(f))
    case HOptional => Opt(false, Initial(f))
    case HOneof(_) => Opt(false, Initial(f))
    case HRepeated(_) => Many([])
    case HFixedCount(_) => Many([])
  }

  lemma InitialIsDefault(f: Field)
    requires f.ltype.LSubmessage? || f.htype.HOneof?
    ensures Initial(f) == Default(f.ltype)
  {
  }

  /** The value with every optional and oneof field that is not set put to its default. */
  function Normal(t: LType, v: Item): Item
    decreases v
  {
    match t
    case LSubmessage(fields) => if v.VMessage? then VMessage(NormalSlots(fields, v.slots)) else v
    case _ => v
  }

  function NormalAll(t: LType, vs: seq<Item>): (r: seq<Item>)
    ensures |r| == |vs| && forall i :: 0 <= i < |vs| ==> r[i] == Normal(t, vs[i])
    decreases vs
  {
    seq(|vs|, i requires 0 <= i < |vs| => Normal(t, vs[i]))
  }

  function NormalSlots(fields: seq<Field>, slots: seq<Slot>): (r: seq<Slot>)
    ensures |r| == |slots| && forall i :: 0 <= i < |slots| && i < |fields| ==> r[i] == NormalSlot(fields[i], slots[i])
    decreases slots
  {
    seq(|slots|, i requires 0 <= i < |slots| => if i < |fields| then NormalSlot(fields[i], slots[i]) else slots[i])
  }

  function NormalSlot(f: Field, s: Slot): Slot
    decreases s
  {
    match s
    case One(v) => One(Normal(f.ltype, v))
    case Opt(has, v) => if has then Opt(true, Normal(f.ltype, v)) else Opt(false, Initial(f))
    case Many(vs) => Many(NormalAll(f.ltype, vs))
  }

  // ----- a message at its defaults

  /** A field that nothing is written for as long as it has not been set. */
  ghost predicate LeftOut(f: Field)
    decreases f
  {
    match f.htype
    case HRequired => false
    case HFixedCount(_) => false
    case HImplicit => (f.init == None || f.ltype.LSubmessage?) && LeftOutValue(f.ltype)
    case _ => true
  }

  ghost predicate LeftOutValue(t: LType)
    decreases t
  {
    match t
    case LSubmessage(fields) => forall i :: 0 <= i < |fields| ==> LeftOut(fields[i])
    case LFixedBytes(size) => size == 0
    case _ => true
  }

  lemma {:induction false} ZeroIsDefault(t: LType)
    requires LeftOutValue(t)
    ensures IsDefault(t, Default(t))
    decreases t
  {
    match t
    case LSubmessage(fields) =>
      forall i | 0 <= i < |fields| ensures SlotDefault(fields[i], DefaultSlot(fields[i])) {
        if fields[i].htype.HImplicit? {
          ZeroIsDefault(fields[i].ltype);
        }
      }
      AllDefaultAt(fields, DefaultSlots(fields), |fields|);
    case _ =>
  }

  /** A message set to its defaults is encoded as nothing. */
  lemma {:induction false} DefaultWritesNothing(fields: seq<Field>, n: nat)
    requires n <= |fields| && forall i :: 0 <= i < |fields| ==> LeftOut(fields[i])
    ensures MessageBytes(fields, DefaultSlots(fields), n) == []
  {
    hide IsDefault, ValueBytes, Default, LeftOutValue;
    if n > 0 {
      DefaultWritesNothing(fields, n - 1);
      var f := fields[n - 1];
      assert DefaultSlots(fields)[n - 1] == DefaultSlot(f) && LeftOut(f);
      if f.htype.HImplicit? {
        ZeroIsDefault(f.ltype);
        assert Initial(f) == Default(f.ltype);
      }
    }
  }

  // ----- the messages that survive

  /** Lengths fit in the 32 bits the decoder reads, and strings leave room for their terminator. */
  ghost predicate ValueDecodes(t: LType, v: Item)
    decreases v
  {
    && ValueHas(t, v) && |ValueBytes(t, v)| < TWO_TO_32
    && match t
      case LBytes(max) => |v.bytes| <= max
      case LString(max) => |v.bytes| < max
      case LSubmessage(fields) => MessageDecodes(fields, v.slots)
      case _ => true
  }

  /** An implicit field that is left out must be given such a value by the decoder, too. */
  ghost predicate SlotDecodes(f: Field, s: Slot)
    decreases s
  {
    match s
    case One(v) => if f.htype.HImplicit? && IsDefault(f.ltype, v) then IsDefault(f.ltype, Initial(f)) else ValueDecodes(f.ltype, v)
    case Opt(has, v) => has ==> ValueDecodes(f.ltype, v)
    case Many(vs) =>
      && (f.htype.HRepeated? ==> |vs| <= f.htype.max)
      && (Packable(f.ltype) ==> |ValuesBytes(f.ltype, vs, |vs|)| < TWO_TO_32)
      && forall i :: 0 <= i < |vs| ==> ValueDecodes(f.ltype, vs[i])
  }

  ghost predicate GoodFields(fields: seq<Field>) {
    && (forall i :: 0 <= i < |fields| ==> 0 < fields[i].tag && fields[i].tag * 8 + 7 < TWO_TO_32)
    && (forall i, j :: 0 <= i < j < |fields| ==> fields[i].tag != fields[j].tag)
  }

  ghost predicate IsSet(s: Slot) {
    s.Opt? && s.has
  }

  ghost predicate SameOneof(f: Field, g: Field) {
    f.htype.HOneof? && f.htype == g.htype
  }

  /** At most one field of a oneof is set. */
  ghost predicate OneofsOk(fields: seq<Field>, slots: seq<Slot>)
    requires |slots| == |fields|
  {
    forall i, j | 0 <= i < |fields| && 0 <= j < |fields| && i != j && SameOneof(fields[i], fields[j]) :: IsSet(slots[i]) ==> !IsSet(slots[j])
  }

  ghost predicate MessageDecodes(fields: seq<Field>, slots: seq<Slot>)
    decreases slots
  {
    && SlotsHave(fields, slots) && GoodFields(fields) && OneofsOk(fields, slots)
    && forall i :: 0 <= i < |slots| ==> SlotDecodes(fields[i], slots[i])
  }

  // ----- where the decoder stands in an encoded message

  lemma {:induction false} MessageSplits(fields: seq<Field>, slots: seq<Slot>, i: nat, n: nat)
    requires i <= n <= |slots|
    ensures MessageBytes(fields, slots, i) <= MessageBytes(fields, slots, n)
    decreases n
  {
    hide SlotBytes;
    if i < n {
      MessageSplits(fields, slots, i, n - 1);
    }
  }

  lemma {:induction false} TaggedSplits(f: Field, vs: seq<Item>, i: nat, n: nat)
    requires i <= n <= |vs|
    ensures TaggedBytes(f, vs, i) <= TaggedBytes(f, vs, n)
    decreases n
  {
    hide ValueBytes, TagBytes;
    if i < n {
      TaggedSplits(f, vs, i, n - 1);
    }
  }

  lemma {:induction false} ValuesSplit(t: LType, vs: seq<Item>, i: nat, n: nat)
    requires i <= n <= |vs|
    ensures ValuesBytes(t, vs, i) <= ValuesBytes(t, vs, n)
    decreases n
  {
    hide ValueBytes;
    if i < n {
      ValuesSplit(t, vs, i, n - 1);
    }
  }

  lemma TailAfter(all: seq<byte>, before: seq<byte>, piece: seq<byte>)
    requires before + piece <= all
    ensures all[|before|..] == piece + all[|before + piece|..]
  {
  }

  /** The encoding from field `i` on. */
  ghost function MessageTail(fields: seq<Field>, slots: seq<Slot>, i: nat): seq<byte>
    requires i <= |slots|
  {
    MessageSplits(fields, slots, i, |slots|);
    MessageBytes(fields, slots, |slots|)[|MessageBytes(fields, slots, i)|..]
  }

  lemma MessageTailStep(fields: seq<Field>, slots: seq<Slot>, i: nat)
    requires i < |slots| == |fields|
    ensures MessageTail(fields, slots, i) == SlotBytes(fields[i], slots[i]) + MessageTail(fields, slots, i + 1)
  {
    hide SlotBytes;
    MessageSplits(fields, slots, i + 1, |slots|);
    var all, before := MessageBytes(fields, slots, |slots|), MessageBytes(fields, slots, i);
    assert MessageBytes(fields, slots, i + 1) == before + SlotBytes(fields[i], slots[i]);
    TailAfter(all, before, SlotBytes(fields[i], slots[i]));
  }

  /** The encoding of an unpacked array from element `j` on. */
  ghost function TaggedTail(f: Field, vs: seq<Item>, j: nat): seq<byte>
    requires j <= |vs|
  {
    TaggedSplits(f, vs, j, |vs|);
    TaggedBytes(f, vs, |vs|)[|TaggedBytes(f, vs, j)|..]
  }

  lemma TaggedTailStep(f: Field, vs: seq<Item>, j: nat)
    requires j < |vs|
    ensures TaggedTail(f, vs, j) == Tagged(f, ValueBytes(f.ltype, vs[j])) + TaggedTail(f, vs, j + 1)
  {
    hide ValueBytes, TagBytes, Tagged;
    TaggedSplits(f, vs, j + 1, |vs|);
    var all, before := TaggedBytes(f, vs, |vs|), TaggedBytes(f, vs, j);
    assert TaggedBytes(f, vs, j + 1) == before + Tagged(f, ValueBytes(f.ltype, vs[j]));
    TailAfter(all, before, Tagged(f, ValueBytes(f.ltype, vs[j])));
  }

  /** The bytes of a packed array from element `j` on. */
  ghost function ValuesTail(t: LType, vs: seq<Item>, j: nat): seq<byte>
    requires j <= |vs|
  {
    ValuesSplit(t, vs, j, |vs|);
    ValuesBytes(t, vs, |vs|)[|ValuesBytes(t, vs, j)|..]
  }

  lemma ValuesTailStep(t: LType, vs: seq<Item>, j: nat)
    requires j < |vs|
    ensures ValuesTail(t, vs, j) == ValueBytes(t, vs[j]) + ValuesTail(t, vs, j + 1)
  {
    hide ValueBytes;
    ValuesSplit(t, vs, j + 1, |vs|);
    var all, before := ValuesBytes(t, vs, |vs|), ValuesBytes(t, vs, j);
    assert ValuesBytes(t, vs, j + 1) == before + ValueBytes(t, vs[j]);
    TailAfter(all, before, ValueBytes(t, vs[j]));
  }

  /** An implicit field that is left out comes back exactly if the decoder's default is left out, too. */
  lemma {:induction false} DefaultComesBack(f: Field, v: Item)
    requires f.htype.HImplicit? && ValueHas(f.ltype, v) && IsDefault(f.ltype, v)
    ensures Initial(f) == Normal(f.ltype, v) <==> IsDefault(f.ltype, Initial(f))
    decreases v
  {
    match f.ltype
    case LSubmessage(fields) =>
      AllDefaultAt(fields, v.slots, |fields|);
      forall i | 0 <= i < |fields| ensures DefaultSlot(fields[i]) == NormalSlot(fields[i], v.slots[i]) <==> SlotDefault(fields[i], DefaultSlot(fields[i])) {
        if fields[i].htype.HImplicit? {
          assert SlotHas(fields[i], v.slots[i]);
          DefaultComesBack(fields[i], v.slots[i].value);
        }
      }
      AllDefaultAt(fields, DefaultSlots(fields), |fields|);
    case _ =>
  }

  lemma {:induction false} AllDefaultAt(fields: seq<Field>, slots: seq<Slot>, n: nat)
    requires n <= |slots| == |fields|
    ensures AllDefault(fields, slots, n) <==> forall i :: 0 <= i < n ==> SlotDefault(fields[i], slots[i])
  {
    hide SlotDefault;
    if n > 0 {
      AllDefaultAt(fields, slots, n - 1);
    }
  }

  /** A field that is not written is at its default. */
  lemma NotWritten(f: Field, s: Slot)
    requires SlotHas(f, s) && SlotDecodes(f, s) && SlotBytes(f, s) == []
    ensures NormalSlot(f, s) == (if f.htype.HFixedCount? || f.htype.HRepeated? then Many([]) else DefaultSlot(f)) == DefaultSlot(f)
    ensures !f.htype.HRequired?
  {
    hide ValueBytes, IsDefault, ValuesBytes, Normal, Default;
    match s
    case One(v) =>
      TagNotEmpty(f.tag, WireType(f.ltype));
      if f.htype.HImplicit? && IsDefault(f.ltype, v) {
        DefaultComesBack(f, v);
      }
    case Opt(has, v) => TagNotEmpty(f.tag, WireType(f.ltype));
    case Many(vs) =>
      TagNotEmpty(f.tag, WT_STRING);
      if vs != [] {
        TaggedNotEmpty(f, vs);
      }
  }

  lemma TaggedNotEmpty(f: Field, vs: seq<Item>)
    requires vs != []
    ensures TaggedBytes(f, vs, |vs|) != []
  {
    hide ValueBytes;
    TagNotEmpty(f.tag, WireType(f.ltype));
    TaggedTailStep(f, vs, 0);
  }

  lemma TagNotEmpty(tag: nat, wireType: nat)
    ensures TagBytes(tag, wireType) != []
  {
  }

  // ----- integers

  lemma PowersOf256()
    ensures Pow256(1) == 0x100 && Pow256(2) == 0x1_0000 && Pow256(4) == TWO_TO_32 && Pow256(8) == TWO_TO_64
  {
    assert Pow256(2) == 256 * Pow256(1) && Pow256(3) == 256 * Pow256(2) && Pow256(4) == 256 * Pow256(3);
    assert Pow256(6) == 256 * 256 * Pow256(4) && Pow256(8) == 256 * 256 * Pow256(6);
  }

  /** The value a two's complement number of that many values stands for. */
  function Signed(n: nat, modulus: nat): int
    requires modulus > 0
  {
    if n % modulus * 2 < modulus then n % modulus else n % modulus - modulus
  }

  /** pb_dec_varint: what a 64-bit number becomes in a signed field, if it fits. */
  function DecodeSigned(n: nat, size: nat): Option<int> {
    var i := if size == 8 then Signed(n, TWO_TO_64) else Signed(n, TWO_TO_32);
    if IntSize(size) && SignedFits(i, size) then Some(i) else None
  }

  /** pb_dec_uvarint. */
  function DecodeUnsigned(n: nat, size: nat): Option<int> {
    if IntSize(size) && n < Pow256(size) then Some(n) else None
  }

  /** pb_decode_svarint and pb_dec_svarint. */
  function DecodeZigZag(n: nat, size: nat): Option<int> {
    var i := if n % 2 == 1 then -(n / 2) - 1 else n / 2;
    if IntSize(size) && SignedFits(i, size) then Some(i) else None
  }

  lemma SignedOf64(n: nat, i: int)
    requires 0 <= 2 * i + TWO_TO_64 < 2 * TWO_TO_64
    ensures (n - i) % TWO_TO_64 == 0 <==> Signed(n, TWO_TO_64) == i
  {
    var r, q := n % TWO_TO_64, n / TWO_TO_64;
    assert n - i == q * TWO_TO_64 + (r - i);
  }

  lemma SignedOf32(n: nat, i: int)
    requires 0 <= 2 * i + TWO_TO_32 < 2 * TWO_TO_32
    ensures (n - i) % TWO_TO_32 == 0 <==> Signed(n, TWO_TO_32) == i
  {
    var r, q := n % TWO_TO_32, n / TWO_TO_32;
    assert n - i == q * TWO_TO_32 + (r - i);
  }

  lemma SignedRoundTrip(i: int, size: nat)
    requires IntSize(size) && SignedFits(i, size)
    ensures Unsigned(i) < TWO_TO_64 && DecodeSigned(Unsigned(i), size) == Some(i)
  {
    PowersOf256();
    hide Pow256, Signed;
    var n := Unsigned(i);
    assert n == i || n == i + TWO_TO_64;
    if size == 8 {
      SignedOf64(n, i);
    } else {
      SignedOf32(n, i);
    }
  }

  /** Zigzag is undone, and it counts 0, -1, 1, -2, 2 and so on without a gap. */
  lemma ZigZagRoundTrip(i: int, size: nat)
    requires IntSize(size) && SignedFits(i, size)
    ensures ZigZag(i) < TWO_TO_64 && DecodeZigZag(ZigZag(i), size) == Some(i)
    ensures if i < 0 then ZigZag(i) + 1 == ZigZag(-i) else ZigZag(i) + 1 == ZigZag(-i - 1)
  {
    PowersOf256();
    hide Pow256;
  }

  lemma UnsignedRoundTrip(i: int, size: nat)
    requires IntSize(size) && 0 <= i < Pow256(size)
    ensures i < TWO_TO_64 && DecodeUnsigned(i, size) == Some(i)
  {
    PowersOf256();
    hide Pow256;
  }

  function FromLittleEndian(bytes: seq<byte>): nat {
    if bytes == [] then 0 else bytes[0] as nat + 256 * FromLittleEndian(bytes[1..])
  }

  lemma {:induction false} LittleEndianRoundTrip(n: nat, size: nat)
    requires n < Pow256(size)
    ensures FromLittleEndian(LittleEndian(n, size)) == n
    decreases size
  {
    if size > 0 {
      LittleEndianRoundTrip(n / 256, size - 1);
    }
  }
}
