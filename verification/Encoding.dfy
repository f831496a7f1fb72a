/** The encoder (nanopb/pb_encode.c): one pass that only counts, one that writes, and they agree. */
module Encoding {
  import opened Format
  import opened Coding
  import opened Messages

  lemma {:induction false} FixedSize(t: LType, vs: seq<Item>, n: nat)
    requires n <= |vs| && (t.LFixed32? || t.LFixed64?) && forall i :: 0 <= i < |vs| ==> vs[i].VFixed?
    ensures |ValuesBytes(t, vs, n)| == n * (if t.LFixed32? then 4 else 8)
  {
    if n > 0 {
      FixedSize(t, vs, n - 1);
    }
  }

  /** pb_ostream_t.  Without a callback a stream only counts; with one it appends to a buffer. */
  class OStream {
    const sizing: bool
    const maxSize: nat
    var bytesWritten: nat
    var out: seq<byte>

    ghost predicate Valid()
      reads this
    {
      !sizing ==> |out| == bytesWritten
    }

    /** There is room for `n` more bytes. */
    ghost predicate Room(n: nat)
      reads this
    {
      sizing || n == 0 || bytesWritten + n <= maxSize
    }

    twostate predicate Wrote(bytes: seq<byte>)
      reads this
    {
      bytesWritten == old(bytesWritten) + |bytes| && (!sizing ==> out == old(out) + bytes)
    }

    constructor Sizing()
      ensures Valid() && sizing && bytesWritten == 0
    {
      sizing, maxSize, bytesWritten, out := true, 0, 0, [];
    }

    constructor Buffer(maxSize: nat)
      ensures Valid() && !sizing && this.maxSize == maxSize && bytesWritten == 0 && out == []
    {
      this.sizing, this.maxSize := false, maxSize;
      bytesWritten, out := 0, [];
    }

    /** pb_write. */
    method Write(bytes: seq<byte>) returns (ok: bool)
      requires Valid()
      modifies this
      ensures Valid() && (ok <==> old(Room(|bytes|))) && (ok ==> Wrote(bytes))
    {
      if |bytes| > 0 && !sizing {
        if bytesWritten + |bytes| > maxSize {
          return false;
        }
        out := out + bytes;
      }
      bytesWritten := bytesWritten + |bytes|;
      return true;
    }

    /** pb_write without a buffer, when only counting. */
    method Skip(size: nat)
      requires Valid() && sizing
      modifies this
      ensures Valid() && bytesWritten == old(bytesWritten) + size
    {
      bytesWritten := bytesWritten + size;
    }

    /** pb_encode_varint: groups of seven bits in a buffer, then one write. */
    method EncodeVarint(n: nat) returns (ok: bool)
      requires Valid()
      modifies this
      ensures Valid() && (ok <==> old(Room(|Varint(n)|))) && (ok ==> Wrote(Varint(n)))
    {
      var buffer: seq<byte> := [];
      var value: nat := n;
      if value <= 0x7F {
        ok := Write([value as byte]);
        return;
      }
      while value > 0
        invariant value > 0 ==> VarintFrom(buffer, value, n)
        invariant value == 0 ==> buffer != [] && buffer[|buffer| - 1] >= 128 && buffer[|buffer| - 1 := buffer[|buffer| - 1] - 128] == Varint(n)
      {
        buffer := buffer + [(value % 128 + 128) as byte];
        value := value / 128;
      }
      buffer := buffer[|buffer| - 1 := buffer[|buffer| - 1] - 128];
      ok := Write(buffer);
    }

    /** pb_encode_string. */
    method EncodeString(bytes: seq<byte>) returns (ok: bool)
      requires Valid()
      modifies this
      ensures Valid() && (ok <==> old(Room(|LengthPrefixed(bytes)|))) && (ok ==> Wrote(LengthPrefixed(bytes)))
    {
      hide Varint;
      ok := EncodeVarint(|bytes|);
      if ok {
        ok := Write(bytes);
      }
    }

    /** pb_encode_tag. */
    method EncodeTag(tag: nat, wireType: nat) returns (ok: bool)
      requires Valid()
      modifies this
      ensures Valid() && (ok <==> old(Room(|TagBytes(tag, wireType)|))) && (ok ==> Wrote(TagBytes(tag, wireType)))
    {
      ok := EncodeVarint(tag * 8 + wireType);
    }

    /** The field encoders. */
    method EncodeValue(t: LType, v: Item) returns (ok: bool)
      requires Valid() && ValueHas(t, v)
      modifies this
      ensures Valid() && (ok <==> ValueEncodes(t, v) && old(Room(|ValueBytes(t, v)|))) && (ok ==> Wrote(ValueBytes(t, v)))
      decreases v, 0
    {
      hide Varint, LittleEndian, LengthPrefixed;
      match t
      case LBool => ok := EncodeVarint(if v.b then 1 else 0);
      case LVarint(_) => ok := EncodeVarint(Unsigned(v.i));
      case LUVarint(_) => ok := EncodeVarint(v.i);
      case LSVarint(_) => ok := EncodeVarint(ZigZag(v.i));
      case LFixed32 => ok := Write(LittleEndian(v.n, 4));
      case LFixed64 => ok := Write(LittleEndian(v.n, 8));
      case LBytes(max) =>
        if |v.bytes| > max {
          return false;
        }
        ok := EncodeString(v.bytes);
      case LString(_) => ok := EncodeString(v.bytes);
      case LFixedBytes(_) => ok := EncodeString(v.bytes);
      case LSubmessage(fields) => ok := EncodeSubmessage(fields, v.slots);
    }

    /** pb_encode_submessage: count, write the count, and write into a substream of that size. */
    method EncodeSubmessage(fields: seq<Field>, slots: seq<Slot>) returns (ok: bool)
      requires Valid() && SlotsHave(fields, slots)
      modifies this
      ensures Valid() && (ok <==> MessageEncodes(fields, slots, |slots|) && old(Room(|LengthPrefixed(MessageBytes(fields, slots, |slots|))|)))
      ensures ok ==> Wrote(LengthPrefixed(MessageBytes(fields, slots, |slots|)))
      decreases slots, 2
    {
      hide Varint, MessageBytes, MessageEncodes, SlotsHave;
      ghost var bytes := MessageBytes(fields, slots, |slots|);
      var substream := new OStream.Sizing();
      ok := substream.EncodeMessage(fields, slots);
      if !ok {
        return false;
      }
      var size := substream.bytesWritten;
      ok := EncodeVarint(size);
      if !ok {
        return false;
      }
      if sizing {
        Skip(size);
        return true;
      }
      if bytesWritten + size > maxSize {
        return false;
      }
      substream := new OStream.Buffer(size);
      var status := substream.EncodeMessage(fields, slots);
      bytesWritten := bytesWritten + substream.bytesWritten;
      out := out + substream.out;
      if substream.bytesWritten != size {
        assert false;
      }
      return status;
    }

    /** pb_encode: field after field. */
    method EncodeMessage(fields: seq<Field>, slots: seq<Slot>) returns (ok: bool)
      requires Valid() && SlotsHave(fields, slots)
      modifies this
      ensures Valid() && (ok <==> MessageEncodes(fields, slots, |slots|) && old(Room(|MessageBytes(fields, slots, |slots|)|)))
      ensures ok ==> Wrote(MessageBytes(fields, slots, |slots|))
      decreases slots, 1
    {
      hide Varint, SlotHas, SlotBytes, SlotEncodes;
      for i := 0 to |slots|
        invariant Valid() && MessageEncodes(fields, slots, i) && Wrote(MessageBytes(fields, slots, i))
        invariant old(Room(|MessageBytes(fields, slots, i)|))
      {
        SlotTyped(fields, slots, i);
        MessagePrefix(fields, slots, i + 1, |slots|);
        ok := EncodeField(fields[i], slots[i]);
        if !ok {
          return false;
        }
      }
      return true;
    }

    /** encode_basic_field. */
    method EncodeField(f: Field, s: Slot) returns (ok: bool)
      requires Valid() && SlotHas(f, s)
      modifies this
      ensures Valid() && (ok <==> SlotEncodes(f, s) && old(Room(|SlotBytes(f, s)|))) && (ok ==> Wrote(SlotBytes(f, s)))
      decreases s, 0
    {
      hide Varint, ValueHas, ValueBytes, ValueEncodes, IsDefault, TagBytes, ValuesEncode, ValuesBytes, TaggedBytes;
      match s
      case One(v) =>
        if f.htype.HImplicit? && IsDefault(f.ltype, v) {
          return true;
        }
        ok := EncodeTag(f.tag, WireType(f.ltype));
        if ok {
          ok := EncodeValue(f.ltype, v);
        }
      case Opt(has, v) =>
        if !has {
          return true;
        }
        ok := EncodeTag(f.tag, WireType(f.ltype));
        if ok {
          ok := EncodeValue(f.ltype, v);
        }
      case Many(vs) =>
        ok := EncodeArray(f, vs);
    }

    /** encode_array: packed when the type allows it, else one tag an element. */
    method EncodeArray(f: Field, vs: seq<Item>) returns (ok: bool)
      requires Valid() && SlotHas(f, Many(vs))
      modifies this
      ensures Valid() && (ok <==> SlotEncodes(f, Many(vs)) && old(Room(|SlotBytes(f, Many(vs))|))) && (ok ==> Wrote(SlotBytes(f, Many(vs))))
      decreases vs, 3
    {
      if vs == [] {
        assert ValuesEncode(f.ltype, vs, 0) && SlotBytes(f, Many(vs)) == [];
        return true;
      }
      if f.htype.HRepeated? && |vs| > f.htype.max {
        return false;
      }
      if Packable(f.ltype) {
        PackedEncode(f.ltype, vs, |vs|);
        ok := EncodePacked(f, vs);
      } else {
        ok := EncodeTagged(f, vs);
      }
    }

    /** The bytes of all elements behind one tag and their total size. */
    method EncodePacked(f: Field, vs: seq<Item>) returns (ok: bool)
      requires Valid() && Packable(f.ltype) && forall i :: 0 <= i < |vs| ==> ValueHas(f.ltype, vs[i])
      modifies this
      ensures Valid() && (ok <==> old(Room(|PackedBytes(f, vs)|))) && (ok ==> Wrote(PackedBytes(f, vs)))
      decreases vs, 2
    {
      hide Varint, ValueHas, ValueBytes, ValueEncodes, TagBytes, ValuesBytes;
      ghost var n := |ValuesBytes(f.ltype, vs, |vs|)|;
      ok := EncodeTag(f.tag, WT_STRING);
      if !ok {
        return false;
      }
      var size: nat;
      if f.ltype.LFixed32? {
        size := 4 * |vs|;
        PackedSize(f.ltype, vs);
      } else if f.ltype.LFixed64? {
        size := 8 * |vs|;
        PackedSize(f.ltype, vs);
      } else {
        var sizeStream := new OStream.Sizing();
        var done := sizeStream.EncodeValues(f.ltype, vs);
        size := sizeStream.bytesWritten;
      }
      ok := EncodeVarint(size);
      if !ok {
        return false;
      }
      if sizing {
        Skip(size);
        return true;
      }
      ok := EncodeValues(f.ltype, vs);
    }

    /** The elements of a packed array, one after another. */
    method EncodeValues(t: LType, vs: seq<Item>) returns (ok: bool)
      requires Valid() && Packable(t) && forall i :: 0 <= i < |vs| ==> ValueHas(t, vs[i])
      modifies this
      ensures Valid() && (ok <==> old(Room(|ValuesBytes(t, vs, |vs|)|))) && (ok ==> Wrote(ValuesBytes(t, vs, |vs|)))
      decreases vs, 1
    {
      hide Varint, ValueHas, ValueBytes, ValueEncodes;
      for i := 0 to |vs|
        invariant Valid() && Wrote(ValuesBytes(t, vs, i)) && old(Room(|ValuesBytes(t, vs, i)|))
      {
        ValuesPrefix(t, vs, i + 1, |vs|);
        PackableEncodes(t, vs[i]);
        ok := EncodeValue(t, vs[i]);
        if !ok {
          return false;
        }
      }
      return true;
    }

    method EncodeTagged(f: Field, vs: seq<Item>) returns (ok: bool)
      requires Valid() && forall i :: 0 <= i < |vs| ==> ValueHas(f.ltype, vs[i])
      modifies this
      ensures Valid() && (ok <==> ValuesEncode(f.ltype, vs, |vs|) && old(Room(|TaggedBytes(f, vs, |vs|)|))) && (ok ==> Wrote(TaggedBytes(f, vs, |vs|)))
      decreases vs, 2
    {
      hide Varint, ValueHas, ValueBytes, ValueEncodes, TagBytes;
      for i := 0 to |vs|
        invariant Valid() && ValuesEncode(f.ltype, vs, i) && Wrote(TaggedBytes(f, vs, i)) && old(Room(|TaggedBytes(f, vs, i)|))
      {
        TaggedPrefix(f, vs, i + 1, |vs|);
        ok := EncodeTag(f.tag, WireType(f.ltype));
        if !ok {
          return false;
        }
        ok := EncodeValue(f.ltype, vs[i]);
        if !ok {
          return false;
        }
      }
      return true;
    }
  }

  /** Half way through a number: what the bytes so far leave to write. */
  ghost predicate VarintFrom(buffer: seq<byte>, value: nat, n: nat) {
    buffer + Varint(value) == Varint(n)
  }

  /** pb_get_encoded_size. */
  method GetEncodedSize(fields: seq<Field>, slots: seq<Slot>) returns (size: Option<nat>)
    requires SlotsHave(fields, slots)
    ensures size == if MessageEncodes(fields, slots, |slots|) then Some(|MessageBytes(fields, slots, |slots|)|) else None
  {
    hide MessageBytes, MessageEncodes;
    var stream := new OStream.Sizing();
    var ok := stream.EncodeMessage(fields, slots);
    size := if ok then Some(stream.bytesWritten) else None;
  }

  /** pb_encode to a buffer: it succeeds exactly when the counted size fits. */
  method EncodeToBuffer(fields: seq<Field>, slots: seq<Slot>, bufferSize: nat) returns (bytes: Option<seq<byte>>)
    requires SlotsHave(fields, slots)
    ensures bytes.Some? <==> MessageEncodes(fields, slots, |slots|) && |MessageBytes(fields, slots, |slots|)| <= bufferSize
    ensures bytes.Some? ==> bytes.value == MessageBytes(fields, slots, |slots|)
  {
    hide MessageBytes, MessageEncodes;
    var stream := new OStream.Buffer(bufferSize);
    var ok := stream.EncodeMessage(fields, slots);
    bytes := if ok then Some(stream.out) else None;
  }

  function PackedBytes(f: Field, vs: seq<Item>): seq<byte> {
    TagBytes(f.tag, WT_STRING) + LengthPrefixed(ValuesBytes(f.ltype, vs, |vs|))
  }

  lemma SlotTyped(fields: seq<Field>, slots: seq<Slot>, i: nat)
    requires SlotsHave(fields, slots) && i < |slots|
    ensures |fields| == |slots| && SlotHas(fields[i], slots[i])
  {
  }

  lemma {:induction false} MessagePrefix(fields: seq<Field>, slots: seq<Slot>, i: nat, n: nat)
    requires i <= n <= |slots| == |fields|
    ensures MessageEncodes(fields, slots, n) ==> MessageEncodes(fields, slots, i)
    ensures |MessageBytes(fields, slots, i)| <= |MessageBytes(fields, slots, n)|
    decreases n
  {
    hide SlotBytes, SlotEncodes;
    if i < n {
      MessagePrefix(fields, slots, i, n - 1);
    }
  }

  lemma {:induction false} ValuesPrefix(t: LType, vs: seq<Item>, i: nat, n: nat)
    requires i <= n <= |vs|
    ensures |ValuesBytes(t, vs, i)| <= |ValuesBytes(t, vs, n)|
    decreases n
  {
    hide ValueBytes;
    if i < n {
      ValuesPrefix(t, vs, i, n - 1);
    }
  }

  lemma {:induction false} TaggedPrefix(f: Field, vs: seq<Item>, i: nat, n: nat)
    requires i <= n <= |vs|
    ensures ValuesEncode(f.ltype, vs, n) ==> ValuesEncode(f.ltype, vs, i)
    ensures |TaggedBytes(f, vs, i)| <= |TaggedBytes(f, vs, n)|
    decreases n
  {
    hide ValueBytes, ValueEncodes, TagBytes;
    if i < n {
      TaggedPrefix(f, vs, i, n - 1);
    }
  }

  lemma PackableEncodes(t: LType, v: Item)
    requires Packable(t)
    ensures ValueEncodes(t, v)
  {
  }

  lemma PackedSize(t: LType, vs: seq<Item>)
    requires (t.LFixed32? || t.LFixed64?) && forall i :: 0 <= i < |vs| ==> ValueHas(t, vs[i])
    ensures |ValuesBytes(t, vs, |vs|)| == (if t.LFixed32? then 4 else 8) * |vs|
  {
    forall i | 0 <= i < |vs| ensures vs[i].VFixed? {
      assert ValueHas(t, vs[i]);
    }
    FixedSize(t, vs, |vs|);
  }

  lemma {:induction false} PackedEncode(t: LType, vs: seq<Item>, n: nat)
    requires Packable(t) && n <= |vs|
    ensures ValuesEncode(t, vs, n)
    decreases n
  {
    if n > 0 {
      PackedEncode(t, vs, n - 1);
    }
  }
}
