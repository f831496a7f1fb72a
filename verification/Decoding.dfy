/** The decoder (nanopb/pb_decode.c, pb_common.c), which undoes the encoder. */
module Decoding {
  import opened Format
  import opened Coding
  import opened Messages
  import opened Encoding
  import opened Decodables
  import opened Scanning

  /** How many required fields there are before the one at `i`. */
  function RequiredBefore(fields: seq<Field>, i: nat): nat
    requires i <= |fields|
  {
    if i == 0 then 0 else RequiredBefore(fields, i - 1) + if fields[i - 1].htype.HRequired? then 1 else 0
  }

  /** pb_field_iter_t: a cursor over the fields that wraps around at the end. */
  class FieldIter {
    const fields: seq<Field>
    var pos: nat
    var requiredIndex: nat

    ghost predicate Valid()
      reads this
    {
      if fields == [] then pos == 0 && requiredIndex == 0 else pos < |fields| && requiredIndex == RequiredBefore(fields, pos)
    }

    /** pb_field_iter_begin. */
    constructor (fields: seq<Field>)
      ensures Valid() && this.fields == fields && pos == 0
    {
      this.fields := fields;
      pos, requiredIndex := 0, 0;
    }

    /** pb_field_iter_next: false when it came round to the beginning. */
    method Next() returns (more: bool)
      requires Valid()
      modifies this
      ensures Valid() && (more <==> old(pos) + 1 < |fields|) && pos == if more then old(pos) + 1 else 0
    {
      if fields == [] {
        return false;
      }
      if pos + 1 == |fields| {
        pos, requiredIndex := 0, 0;
        return false;
      }
      if fields[pos].htype.HRequired? {
        requiredIndex := requiredIndex + 1;
      }
      pos := pos + 1;
      return true;
    }

    /** pb_field_iter_find: searches from where it is, all the way round. */
    method Find(tag: nat) returns (found: bool)
      requires Valid()
      modifies this
      ensures Valid() && (found <==> exists i :: 0 <= i < |fields| && fields[i].tag == tag)
      ensures found ==> pos < |fields| && fields[pos].tag == tag
    {
      var start := pos;
      if fields == [] {
        return false;
      }
      if fields[pos].tag == tag {
        return true;
      }
      var _ := Next();
      while pos != start
        invariant Valid() && fields[start].tag != tag
        invariant forall i :: 0 <= i < |fields| && (if pos > start then start <= i < pos else i < pos || start <= i) && pos != start ==> fields[i].tag != tag
        invariant pos == start ==> forall i :: 0 <= i < |fields| ==> fields[i].tag != tag
        decreases if pos > start then |fields| - pos + start else start - pos
      {
        if fields[pos].tag == tag {
          return true;
        }
        var _ := Next();
      }
      return false;
    }
  }

  /** pb_istream_t over a buffer: the bytes that are left. */
  class IStream {
    var rest: seq<byte>

    constructor (bytes: seq<byte>)
      ensures rest == bytes
    {
      rest := bytes;
    }

    /** pb_readbyte. */
    method ReadByte() returns (b: Option<byte>)
      modifies this
      ensures old(rest) == [] ==> b == None && rest == []
      ensures old(rest) != [] ==> b == Some(old(rest)[0]) && rest == old(rest)[1..]
    {
      if rest == [] {
        return None;
      }
      b := Some(rest[0]);
      rest := rest[1..];
    }

    /** pb_read. */
    method Read(count: nat) returns (bytes: Option<seq<byte>>)
      modifies this
      ensures |old(rest)| < count ==> bytes == None && rest == old(rest)
      ensures |old(rest)| >= count ==> bytes == Some(old(rest)[..count]) && rest == old(rest)[count..]
    {
      if |rest| < count {
        return None;
      }
      bytes := Some(rest[..count]);
      rest := rest[count..];
    }

    /** pb_decode_varint. */
    method DecodeVarint64() returns (value: Option<nat>)
      modifies this
      ensures value.Some? ==> |rest| < |old(rest)| && GetVarint(old(rest), true) == Some((value.value, rest))
      ensures value == None ==> GetVarint(old(rest), true) == None
      ensures forall n: nat, tail: seq<byte> :: n < TWO_TO_64 && old(rest) == Varint(n) + tail ==> value == Some(n) && rest == tail
    {
      forall n: nat, tail: seq<byte> | n < TWO_TO_64 && rest == Varint(n) + tail ensures GetVarint(rest, true) == Some((n, tail)) {
        VarintRoundTrip(n, tail, true);
      }
      var r := DecodeVarint(rest, true);
      if r == None {
        return None;
      }
      rest := r.value.1;
      return Some(r.value.0);
    }

    /** pb_decode_varint32_eof: a number that must fit in 32 bits, though it may be written longer. */
    method DecodeVarint32(ghost n: nat, ghost tail: seq<byte>) returns (value: Option<nat>, eof: bool)
      modifies this
      ensures |rest| <= |old(rest)| && (value.Some? ==> |rest| < |old(rest)| && value.value < TWO_TO_32)
      ensures GetVarint32(old(rest)) == if value.Some? then Some((value.value, rest)) else None
      ensures eof <==> old(rest) == []
      ensures n < TWO_TO_32 && old(rest) == Varint(n) + tail ==> value == Some(n) && rest == tail
    {
      hide Varint, Accumulate, Read32;
      ghost var start := rest;
      if n < TWO_TO_32 && rest == Varint(n) + tail {
        Varint32Reads(n, tail);
      }
      eof := false;
      var b := ReadByte();
      if b == None {
        NothingRead();
        return None, true;
      }
      Read32Step(start, 0, 0);
      var byte: nat := b.value as nat;
      FirstSeptet(byte % 128);
      if byte < 128 {
        return Some(byte), eof;
      }
      var bitpos: nat, result: nat := 7, byte - 128;
      while byte >= 128
        invariant |rest| < |start| && result < TWO_TO_32 && bitpos < 256
        invariant byte >= 128 ==> GetVarint32(start) == Read32(rest, bitpos, result)
        invariant byte < 128 ==> GetVarint32(start) == if bitpos == 35 && byte / 16 % 8 != 0 then None else Some((result, rest))
        decreases |rest|
      {
        ghost var here := rest;
        b := ReadByte();
        if b == None {
          NothingRead();
          return None, eof;
        }
        Read32Step(here, bitpos, result);
        byte := b.value as nat;
        if bitpos >= 32 {
          var signExtension := if bitpos < 63 then 0xFF else 0x01;
          if byte % 128 != 0 && (result / 0x8000_0000 == 0 || byte != signExtension) {
            return None, eof;
          }
        } else {
          AccumulateFits(result, byte % 128, bitpos);
          result := Accumulate(result, byte % 128, bitpos);
        }
        bitpos := (bitpos + 7) % 256;
      }
      if bitpos == 35 && byte / 16 % 8 != 0 {
        return None, eof;
      }
      return Some(result), eof;
    }

    /** pb_make_string_substream: a stream over the next bytes, as many as a length says. */
    method MakeSubstream(ghost bytes: seq<byte>, ghost tail: seq<byte>) returns (substream: Option<IStream>)
      modifies this
      ensures substream.Some? ==> fresh(substream.value) && |substream.value.rest| < |old(rest)| && |rest| < |old(rest)|
      ensures substream.Some? ==> GetPrefixed(old(rest)) == Some((substream.value.rest, rest))
      ensures substream == None ==> GetPrefixed(old(rest)) == None
      ensures |bytes| < TWO_TO_32 && old(rest) == LengthPrefixed(bytes) + tail ==> substream.Some? && substream.value.rest == bytes && rest == tail
    {
      assert LengthPrefixed(bytes) + tail == Varint(|bytes|) + (bytes + tail);
      hide Varint;
      var size, _ := DecodeVarint32(|bytes|, bytes + tail);
      if size == None || |rest| < size.value {
        return None;
      }
      var s := new IStream(rest[..size.value]);
      rest := rest[size.value..];
      return Some(s);
    }

    /** A length and that many bytes. */
    method DecodeBytes(max: nat, ghost bytes: seq<byte>, ghost tail: seq<byte>) returns (r: Option<seq<byte>>)
      modifies this
      ensures r.Some? ==> |rest| < |old(rest)| && |r.value| <= max && GetPrefixed(old(rest)) == Some((r.value, rest))
      ensures r == None ==> GetPrefixed(old(rest)) == None || |GetPrefixed(old(rest)).value.0| > max
      ensures |bytes| < TWO_TO_32 && |bytes| <= max && old(rest) == LengthPrefixed(bytes) + tail ==> r == Some(bytes) && rest == tail
    {
      assert LengthPrefixed(bytes) + tail == Varint(|bytes|) + (bytes + tail);
      hide Varint;
      var size, _ := DecodeVarint32(|bytes|, bytes + tail);
      if size == None || size.value > max {
        return None;
      }
      r := Read(size.value);
    }

    /** pb_dec_varint, pb_dec_uvarint and pb_dec_svarint. */
    method DecodeNumber(t: LType, ghost v: Item, ghost tail: seq<byte>) returns (r: Option<Item>)
      requires t.LVarint? || t.LUVarint? || t.LSVarint?
      modifies this
      ensures r.Some? ==> |rest| < |old(rest)| && AfterValue(old(rest), t) == Some(rest) && Shaped(t, r.value)
      ensures r.Some? ==> ReadsAs(t, old(rest), r.value)
      ensures r == None ==> Unreadable(t, old(rest))
      ensures ValueDecodes(t, v) && old(rest) == ValueBytes(t, v) + tail ==> r == Some(v) && rest == tail
    {
      hide ReadsAs, SignedFits, IntSize, Varint, LittleEndian, LengthPrefixed, FromLittleEndian, DecodeSigned;
      hide DecodeUnsigned, DecodeZigZag, Pow256, Unsigned, ZigZag, GetVarint32, GetVarint, GetPrefixed, AfterVarint;
      ScalarMeans(t, rest);
      if ValueDecodes(t, v) && rest == ValueBytes(t, v) + tail {
        ScalarReads(t, v);
      }
      var n := DecodeVarint64();
      if n == None {
        return None;
      }
      SignedInRange(n.value, t.size);
      UnsignedInRange(n.value, t.size);
      ZigZagInRange(n.value, t.size);
      var i := match t
        case LVarint(size) => DecodeSigned(n.value, size)
        case LUVarint(size) => DecodeUnsigned(n.value, size)
        case LSVarint(size) => DecodeZigZag(n.value, size);
      r := if i.Some? then Some(VInt(i.value)) else None;
    }

    /** pb_dec_fixed32 and pb_dec_fixed64. */
    method DecodeFixed(t: LType, ghost v: Item, ghost tail: seq<byte>) returns (r: Option<Item>)
      requires t.LFixed32? || t.LFixed64?
      modifies this
      ensures r.Some? ==> |rest| < |old(rest)| && AfterValue(old(rest), t) == Some(rest) && Shaped(t, r.value)
      ensures r.Some? ==> ReadsAs(t, old(rest), r.value)
      ensures r == None ==> Unreadable(t, old(rest))
      ensures ValueDecodes(t, v) && old(rest) == ValueBytes(t, v) + tail ==> r == Some(v) && rest == tail
    {
      hide ReadsAs, Varint, LittleEndian, LengthPrefixed, FromLittleEndian, DecodeSigned, DecodeUnsigned;
      hide DecodeZigZag, Pow256, Unsigned, ZigZag, GetVarint32, GetVarint, GetPrefixed;
      ScalarMeans(t, rest);
      if ValueDecodes(t, v) && rest == ValueBytes(t, v) + tail {
        ScalarReads(t, v);
      }
      var bytes := Read(if t.LFixed32? then 4 else 8);
      FixedInRange(if bytes.Some? then bytes.value else []);
      r := if bytes.Some? then Some(VFixed(FromLittleEndian(bytes.value))) else None;
    }

    /** pb_dec_bytes, pb_dec_string and pb_dec_fixed_length_bytes. */
    method DecodeBuffer(t: LType, ghost v: Item, ghost tail: seq<byte>) returns (r: Option<Item>)
      requires t.LBytes? || t.LString? || t.LFixedBytes?
      modifies this
      ensures r.Some? ==> |rest| < |old(rest)| && AfterValue(old(rest), t) == Some(rest) && Shaped(t, r.value)
      ensures r.Some? ==> ReadsAs(t, old(rest), r.value)
      ensures r == None ==> Unreadable(t, old(rest))
      ensures ValueDecodes(t, v) && old(rest) == ValueBytes(t, v) + tail ==> r == Some(v) && rest == tail
    {
      hide Varint, LittleEndian, LengthPrefixed, FromLittleEndian, DecodeSigned, DecodeUnsigned;
      hide DecodeZigZag, Pow256, Unsigned, ZigZag, GetVarint32, GetVarint, GetPrefixed;
      ScalarMeans(t, rest);
      if ValueDecodes(t, v) && rest == ValueBytes(t, v) + tail {
        ScalarReads(t, v);
      }
      ghost var expected := if v.VBytes? then v.bytes else [];
      match t
      case LBytes(max) =>
        var bytes := DecodeBytes(max, expected, tail);
        r := if bytes.Some? then Some(VBytes(bytes.value)) else None;
      case LString(max) =>
        if max == 0 {
          return None;
        }
        var bytes := DecodeBytes(max - 1, expected, tail);
        r := if bytes.Some? then Some(VBytes(bytes.value)) else None;
      case LFixedBytes(size) =>
        var bytes := DecodeBytes(size, expected, tail);
        if bytes.Some? && bytes.value == [] {
          assert size == 0 ==> Default(t).bytes == [];
          r := Some(Default(t));
        } else {
          r := if bytes.Some? && |bytes.value| == size then Some(VBytes(bytes.value)) else None;
        }
    }

    /** The field decoders of all but messages. */
    method DecodeScalar(t: LType, ghost v: Item, ghost tail: seq<byte>) returns (r: Option<Item>)
      requires !t.LSubmessage?
      modifies this
      ensures r.Some? ==> |rest| < |old(rest)| && AfterValue(old(rest), t) == Some(rest) && Shaped(t, r.value)
      ensures r.Some? ==> ReadsAs(t, old(rest), r.value)
      ensures r == None ==> Unreadable(t, old(rest))
      ensures ValueDecodes(t, v) && old(rest) == ValueBytes(t, v) + tail ==> r == Some(v) && rest == tail
    {
      match t
      case LBool =>
        var n, _ := DecodeVarint32(if v == VBool(true) then 1 else 0, tail);
        hide Varint, GetVarint32;
        r := if n.Some? then Some(VBool(n.value != 0)) else None;
      case LVarint(_) => r := DecodeNumber(t, v, tail);
      case LUVarint(_) => r := DecodeNumber(t, v, tail);
      case LSVarint(_) => r := DecodeNumber(t, v, tail);
      case LFixed32 => r := DecodeFixed(t, v, tail);
      case LFixed64 => r := DecodeFixed(t, v, tail);
      case LBytes(_) => r := DecodeBuffer(t, v, tail);
      case LString(_) => r := DecodeBuffer(t, v, tail);
      case LFixedBytes(_) => r := DecodeBuffer(t, v, tail);
    }

    /** pb_decode_tag: the wire type and the field number, unless the message ends here. */
    method DecodeTag(ghost tag: nat, ghost wire: nat, ghost tail: seq<byte>) returns (r: Option<(nat, nat)>, eof: bool)
      modifies this
      ensures r.Some? ==> |rest| < |old(rest)| && GetVarint32(old(rest)) == Some((8 * r.value.1 + r.value.0, rest)) && r.value.0 < 8 && 8 * r.value.1 + r.value.0 != 0
      ensures r == None ==> (eof <==> old(rest) == [] || (GetVarint32(old(rest)).Some? && GetVarint32(old(rest)).value.0 == 0))
      ensures 0 < tag && wire < 8 && tag * 8 + wire < TWO_TO_32 && old(rest) == TagBytes(tag, wire) + tail ==> r == Some((wire, tag)) && rest == tail
    {
      hide Varint, GetVarint32;
      var n, ended := DecodeVarint32(tag * 8 + wire, tail);
      if n == None {
        return None, ended;
      }
      if n.value == 0 {
        return None, true;
      }
      return Some((n.value % 8, n.value / 8)), false;
    }

    /** pb_skip_varint. */
    method SkipVarint() returns (ok: bool)
      modifies this
      ensures |rest| <= |old(rest)| && (ok ==> AfterVarint(old(rest)) == Some(rest)) && (!ok ==> AfterVarint(old(rest)) == None)
    {
      var more := true;
      while more
        invariant |rest| <= |old(rest)|
        invariant AfterVarint(old(rest)) == if more then AfterVarint(rest) else Some(rest)
        decreases more, |rest|
      {
        var b := ReadByte();
        if b == None {
          return false;
        }
        more := b.value >= 128;
      }
      return true;
    }

    /** pb_skip_string. */
    method SkipString() returns (ok: bool)
      modifies this
      ensures |rest| <= |old(rest)| && (ok ==> AfterPrefixed(old(rest)) == Some(rest)) && (!ok ==> AfterPrefixed(old(rest)) == None)
    {
      hide GetVarint32, Varint;
      var size, _ := DecodeVarint32(0, []);
      if size == None {
        return false;
      }
      var bytes := Read(size.value);
      ok := bytes.Some?;
    }

    /** pb_skip_field. */
    method SkipField(wire: nat) returns (ok: bool)
      modifies this
      ensures |rest| <= |old(rest)| && (ok ==> AfterSkipped(old(rest), wire) == Some(rest)) && (!ok ==> AfterSkipped(old(rest), wire) == None)
    {
      hide AfterVarint, AfterPrefixed;
      if wire == WT_VARINT {
        ok := SkipVarint();
      } else if wire == WT_64BIT {
        var bytes := Read(8);
        ok := bytes.Some?;
      } else if wire == WT_STRING {
        ok := SkipString();
      } else if wire == WT_32BIT {
        var bytes := Read(4);
        ok := bytes.Some?;
      } else {
        ok := false;
      }
    }

    /** The field decoders; a submessage lacks none of its required fields. */
    method DecodeValue(t: LType, repeated: bool, dest: Item, ghost v: Item, ghost tail: seq<byte>) returns (r: Option<Item>)
      requires TypeOk(t) && Shaped(t, dest)
      modifies this
      ensures r.Some? ==> |rest| < |old(rest)| && Shaped(t, r.value) && AfterValue(old(rest), t) == Some(rest)
      ensures r.Some? && !t.LSubmessage? ==> ReadsAs(t, old(rest), r.value)
      ensures r == None && !t.LSubmessage? ==> Unreadable(t, old(rest))
      ensures r.Some? && t.LSubmessage? ==> RequiredWithin(t.fields, old(rest))
      ensures ValueDecodes(t, v) && old(rest) == ValueBytes(t, v) + tail && (repeated || !t.LSubmessage? || dest == Default(t)) ==> r == Some(Normal(t, v)) && rest == tail
      decreases |rest|, 0
    {
      hide ValueBytes, LengthPrefixed, DefaultSlots, NormalSlots, MessageDecodes;
      hide MessageBytes, ReadsAs, Unreadable, RequiredThere, TopTags, GetPrefixed;
      match t
      case LSubmessage(fields) =>
        ghost var good := ValueDecodes(t, v) && rest == ValueBytes(t, v) + tail && (repeated || dest == Default(t));
        ghost var slots := if v.VMessage? then v.slots else [];
        if good {
          SubmessageBytes(fields, v);
        }
        DefaultsShaped(fields);
        var substream := MakeSubstream(MessageBytes(fields, slots, |slots|), tail);
        if substream == None {
          return None;
        }
        var decoded := substream.value.DecodeMessage(fields, if repeated then DefaultSlots(fields) else dest.slots, slots);
        r := if decoded.Some? then Some(VMessage(decoded.value)) else None;
      case _ =>
        r := DecodeScalar(t, v, tail);
    }

    /** decode_static_field, for all but the oneof bookkeeping. */
    method DecodeField(f: Field, wire: nat, slot: Slot, ghost occurrence: Occurrence, ghost tail: seq<byte>) returns (r: Option<Slot>)
      requires FieldOk(f) && SlotShaped(f, slot)
      modifies this
      ensures r.Some? ==> |rest| < |old(rest)| && SlotShaped(f, r.value) && AfterField(old(rest), f, wire) == Some(rest)
      ensures r.Some? && r.value.Opt? ==> r.value.has
      ensures r.Some? && !f.ltype.LSubmessage? ==> Lands(f, wire, slot, old(rest), r.value)
      ensures r == None && !f.ltype.LSubmessage? && !InPackedForm(f, wire, slot) ==> Unreadable(f.ltype, old(rest)) || (slot.Many? && |slot.values| >= Limit(f))
      ensures r.Some? && f.ltype.LSubmessage? ==> RequiredWithin(f.ltype.fields, old(rest))
      ensures Occurs(f, wire, slot, occurrence) && old(rest) == OccurrenceBytes(f, occurrence) + tail ==> r == Some(AfterOccurrence(f, occurrence)) && rest == tail
      decreases |rest|, 1
    {
      hide ValueBytes, LengthPrefixed, ValueDecodes, Normal, Default, ValuesBytes, Shaped;
      hide NormalAll, GetPrefixed, AfterValue, TypeOk, ReadsAs, Unreadable, RequiredWithin, ReadOff;
      ghost var good := Occurs(f, wire, slot, occurrence) && rest == OccurrenceBytes(f, occurrence) + tail;
      match slot
      case One(dest) =>
        var v := DecodeValue(f.ltype, false, dest, if occurrence.Whole? then occurrence.v else VInt(0), tail);
        r := if v.Some? then Some(One(v.value)) else None;
      case Opt(has, dest) =>
        var v := DecodeValue(f.ltype, false, dest, if occurrence.Whole? then occurrence.v else VInt(0), tail);
        r := if v.Some? then Some(Opt(true, v.value)) else None;
      case Many(values) =>
        var max := if f.htype.HRepeated? then f.htype.max else f.htype.count;
        if wire == WT_STRING && Packable(f.ltype) {
          ghost var vs := if occurrence.Packed? then occurrence.vs else [];
          var substream := MakeSubstream(ValuesBytes(f.ltype, vs, |vs|), tail);
          if substream == None {
            return None;
          }
          r := substream.value.DecodePacked(f, max, values, vs);
        } else {
          if |values| >= max {
            return None;
          }
          DefaultShaped(f.ltype);
          ghost var v := if occurrence.Element? && occurrence.j < |occurrence.vs| then occurrence.vs[occurrence.j] else VInt(0);
          var decoded := DecodeValue(f.ltype, true, Default(f.ltype), v, tail);
          if decoded == None {
            return None;
          }
          if good {
            NormalNext(f.ltype, occurrence.vs, occurrence.j);
          }
          r := Some(Many(values + [decoded.value]));
        }
    }

    /** The elements of a packed array; the stream is theirs alone. */
    method DecodePacked(f: Field, max: nat, before: seq<Item>, ghost vs: seq<Item>) returns (r: Option<Slot>)
      requires Packable(f.ltype) && (f.htype.HRepeated? || f.htype.HFixedCount?)
      requires max == (if f.htype.HRepeated? then f.htype.max else f.htype.count)
      requires |before| <= max && forall i :: 0 <= i < |before| ==> Shaped(f.ltype, before[i])
      modifies this
      ensures r.Some? ==> SlotShaped(f, r.value)
      ensures r.Some? ==> before <= r.value.values && ReadOff(f.ltype, old(rest), r.value.values[|before|..], [])
      ensures |vs| <= max && before == [] && old(rest) == ValuesBytes(f.ltype, vs, |vs|) && (forall i :: 0 <= i < |vs| ==> ValueDecodes(f.ltype, vs[i])) ==> r == Some(Many(vs))
      decreases |rest|, 0
    {
      hide ValueBytes, ValueDecodes, Shaped, AfterValue, ReadsAs, Unreadable, ReadOff;
      ghost var good := |vs| <= max && before == [] && rest == ValuesBytes(f.ltype, vs, |vs|) && forall i :: 0 <= i < |vs| ==> ValueDecodes(f.ltype, vs[i]);
      var values := before;
      assert values[|before|..] == [];
      ReadOffNone(f.ltype, rest);
      while rest != [] && |values| < max
        invariant |values| <= max && forall i :: 0 <= i < |values| ==> Shaped(f.ltype, values[i])
        invariant before <= values && ReadOff(f.ltype, old(rest), values[|before|..], rest)
        invariant good ==> |values| <= |vs| && values == vs[..|values|] && rest == ValuesTail(f.ltype, vs, |values|)
        decreases |rest|
      {
        ghost var j := |values|;
        ghost var v, tail := VInt(0), [];
        if good {
          PackedNext(f.ltype, vs, j);
          v, tail := vs[j], ValuesTail(f.ltype, vs, j + 1);
        }
        ghost var at := rest;
        var decoded := DecodeScalar(f.ltype, v, tail);
        if decoded == None {
          return None;
        }
        ReadOffMore(f.ltype, old(rest), values[|before|..], at, decoded.value, rest);
        assert (values + [decoded.value])[|before|..] == values[|before|..] + [decoded.value];
        values := values + [decoded.value];
      }
      if good {
        PackedDone(f.ltype, vs, |values|);
      }
      if rest != [] {
        return None;
      }
      assert vs[..|vs|] == vs;
      return Some(Many(values));
    }

    /** One field that the message has: it is made ready, and its value is read. */
    method DecodeKnown(fields: seq<Field>, pos: nat, wire: nat, requiredIndex: nat, slots: seq<Slot>, fixedField: Option<nat>, seen: set<nat>, ghost o: Occurrence, ghost tail: seq<byte>)
      returns (ok: bool, slots': seq<Slot>, fixedField': Option<nat>, seen': set<nat>, ghost prepared: seq<Slot>, ghost slot: Slot)
      requires FieldsOk(fields) && |slots| == |fields| && pos < |fields| && forall k :: 0 <= k < |fields| ==> SlotShaped(fields[k], slots[k])
      modifies this
      ensures ok ==> Prepared(fields, pos, requiredIndex, slots, fixedField, seen, prepared, fixedField', seen') && |prepared| == |fields| && slots' == prepared[pos := slot]
      ensures ok ==> |slots'| == |fields| && forall k :: 0 <= k < |fields| ==> SlotShaped(fields[k], slots'[k])
      ensures ok ==> |rest| < |old(rest)| && AfterField(old(rest), fields[pos], wire) == Some(rest)
      ensures Ready(fields, pos, slots, fixedField) && Occurs(fields[pos], wire, slots[pos], o) && old(rest) == OccurrenceBytes(fields[pos], o) + tail ==>
        ok && prepared == slots && slot == AfterOccurrence(fields[pos], o) && rest == tail
      decreases |rest|, 2
    {
      hide Occurs, OccurrenceBytes, AfterOccurrence, SlotShaped, SetOneof, WrongCount, AfterField;
      ok, slots', fixedField', seen' := PrepareField(fields, pos, requiredIndex, slots, fixedField, seen);
      prepared, slot := slots', slots'[pos];
      if ok {
        var value := DecodeField(fields[pos], wire, slots'[pos], o, tail);
        if value == None {
          ok := false;
        } else {
          slot := value.value;
          slots' := slots'[pos := value.value];
        }
      }
    }

    /** One tag and what comes after it: a field of the message, or one to skip. */
    method DecodeNext(fields: seq<Field>, iter: FieldIter, slots: seq<Slot>, fixedField: Option<nat>, seen: set<nat>,
                      ghost dest: seq<Slot>, ghost start: seq<byte>, ghost good: bool, ghost msg: seq<Slot>, ghost i: nat, ghost j: nat)
      returns (progress: Progress, slots': seq<Slot>, fixedField': Option<nat>, seen': set<nat>, ghost i': nat, ghost j': nat)
      requires rest != [] && FieldsOk(fields) && iter.Valid() && iter.fields == fields
      requires Underway(fields, dest, start, rest, slots, fixedField, seen)
      requires good ==> At(fields, msg, i, j, rest, slots, fixedField, seen)
      modifies this, iter
      ensures iter.Valid() && (progress.Going? ==> |rest| < |old(rest)| && Underway(fields, dest, start, rest, slots', fixedField', seen'))
      ensures progress.Ended? ==> slots' == slots && fixedField' == fixedField && seen' == seen
      ensures good ==> progress.Going? && At(fields, msg, i', j', rest, slots', fixedField', seen')
      decreases |rest|, 3
    {
      hide At, Occurs, OccurrenceBytes, AfterOccurrence, TagBytes, SlotShaped, Pending, Leads, RequiredBefore, Prepared, Ready, Underway;
      hide AfterField, AfterSkipped, GetVarint32, FieldsOk;
      UnderwayFacts(fields, dest, start, rest, slots, fixedField, seen);
      progress, slots', fixedField', seen', i', j' := Failed, slots, fixedField, seen, i, j;
      ghost var rest0 := rest;
      ghost var o, wire, tail, tag := Packed([]), 0, [], 0;
      if good {
        i', j' := Advance(fields, msg, i, j, rest, slots, fixedField, seen);
        o, wire, tail := Announced(fields, msg, i', j', rest, slots, fixedField, seen);
        tag := fields[i'].tag;
      }
      var t, eof := DecodeTag(tag, wire, if good then OccurrenceBytes(fields[i'], o) + tail else []);
      if t == None {
        progress := if eof then Ended else Failed;
        return;
      }
      ghost var after := rest;
      var found := iter.Find(t.value.1);
      if !found {
        var ok := SkipField(t.value.0);
        if ok {
          UnderwaySkipping(fields, dest, start, rest0, slots, fixedField, seen, t.value.1, t.value.0, after, rest);
          progress := Going;
        }
        return;
      }
      var pos := iter.pos;
      if good {
        Located(fields, msg, i', j', slots, rest0, fixedField, seen, pos);
      }
      var decoded;
      ghost var prepared, slot;
      decoded, slots', fixedField', seen', prepared, slot := DecodeKnown(fields, pos, t.value.0, iter.requiredIndex, slots, fixedField, seen, o, tail);
      if decoded {
        progress := Going;
        UnderwayStoring(fields, dest, start, rest0, slots, fixedField, seen, pos, t.value.0, after, rest, prepared, fixedField', seen', slot);
        if good {
          PreparedFacts(fields, pos, slots, fixedField, seen, prepared, fixedField', seen');
          Arrived(fields, msg, i', j', o, rest0, tail, slots, slots', fixedField, seen, fixedField', seen');
          i', j' := if o.Element? then i' else i' + 1, if o.Element? then j' + 1 else 0;
        }
      }
    }

    /** pb_decode_noinit: field by field as they come, into what is there already. */
    method DecodeMessage(fields: seq<Field>, dest: seq<Slot>, ghost msg: seq<Slot>) returns (r: Option<seq<Slot>>)
      requires FieldsOk(fields) && SlotsShaped(fields, dest)
      modifies this
      ensures r.Some? ==> SlotsShaped(fields, r.value)
      ensures r.Some? && Distinct(fields) ==> RequiredThere(fields, TopTags(old(rest), fields))
      ensures r.Some? && OneSet(fields, dest) ==> OneSet(fields, r.value)
      ensures r.Some? && CountsWhole(fields, dest, None) ==> CountsWhole(fields, r.value, None)
      ensures MessageDecodes(fields, msg) && old(rest) == MessageBytes(fields, msg, |msg|) && dest == DefaultSlots(fields) ==> r == Some(NormalSlots(fields, msg))
      decreases |rest|, 4
    {
      hide MessageDecodes, SlotsHave, At, SlotShaped, RequiredSeen, NormalSlots, DefaultSlots, MessageBytes;
      hide WrongCount, TopTags, OneSet, CountsWhole, RequiredThere, Distinct, FieldsOk, Underway;
      ghost var good := MessageDecodes(fields, msg) && rest == MessageBytes(fields, msg, |msg|) && dest == DefaultSlots(fields);
      var slots := dest;
      var iter := new FieldIter(fields);
      var seen: set<nat> := {};
      var fixedField: Option<nat> := None;
      ghost var i: nat, j: nat := 0, 0;
      ghost var start, left := rest, rest;
      UnderwayAtStart(fields, dest, start);
      if good {
        StartsAt(fields, msg);
      }
      while rest != []
        invariant iter.Valid() && iter.fields == fields && fresh(iter)
        invariant left == rest && Underway(fields, dest, start, left, slots, fixedField, seen)
        invariant good ==> At(fields, msg, i, j, rest, slots, fixedField, seen)
        decreases |rest|
      {
        var progress;
        progress, slots, fixedField, seen, i, j := DecodeNext(fields, iter, slots, fixedField, seen, dest, start, good, msg, i, j);
        if progress.Failed? {
          return None;
        }
        if progress.Ended? {
          break;
        }
        left := rest;
      }
      UnderwayFacts(fields, dest, start, left, slots, fixedField, seen);
      if good {
        Finish(fields, msg, i, j, rest, slots, fixedField, seen);
      }
      if WrongCount(fields, slots, fixedField) {
        return None;
      }
      var ok := RequiredSeen(fields, seen);
      if ok {
        UnderwayEnds(fields, dest, start, left, slots, fixedField, seen);
      }
      r := if ok then Some(slots) else None;
    }
  }

  datatype Progress = Going | Ended | Failed

  lemma NothingRead()
    ensures GetVarint32([]) == None && forall bitpos, result :: Read32([], bitpos, result) == None
  {
  }

  lemma FirstSeptet(septet: nat)
    requires septet < 128
    ensures Accumulate(0, septet, 0) == septet
  {
    OrZero(septet);
  }

  /** Each scalar is what its bytes are read as. */
  lemma ScalarReads(t: LType, v: Item)
    requires ValueHas(t, v) && !t.LSubmessage?
    ensures t.LVarint? ==> Unsigned(v.i) < TWO_TO_64 && DecodeSigned(Unsigned(v.i), t.size) == Some(v.i)
    ensures t.LUVarint? ==> v.i < TWO_TO_64 && DecodeUnsigned(v.i, t.size) == Some(v.i)
    ensures t.LSVarint? ==> ZigZag(v.i) < TWO_TO_64 && DecodeZigZag(ZigZag(v.i), t.size) == Some(v.i)
    ensures t.LFixed32? ==> FromLittleEndian(LittleEndian(v.n, 4)) == v.n
    ensures t.LFixed64? ==> FromLittleEndian(LittleEndian(v.n, 8)) == v.n
    ensures t.LBytes? || t.LString? || t.LFixedBytes? ==> |v.bytes| < |ValueBytes(t, v)|
  {
    PowersOf256();
    hide Pow256, LittleEndian, FromLittleEndian, DecodeSigned, DecodeUnsigned, DecodeZigZag, Unsigned, ZigZag;
    match t
    case LVarint(size) => SignedRoundTrip(v.i, size);
    case LUVarint(size) => UnsignedRoundTrip(v.i, size);
    case LSVarint(size) => ZigZagRoundTrip(v.i, size);
    case LFixed32 => LittleEndianRoundTrip(v.n, 4);
    case LFixed64 => LittleEndianRoundTrip(v.n, 8);
    case _ =>
  }

  // ----- what any bytes are read as

  /** The value that bytes stand for in a field of that type, if it fits there: numbers are cut to
      32 bits where they come as such, and bytes of no length are zeros in a field of fixed size. */
  ghost predicate ReadsAs(t: LType, input: seq<byte>, v: Item) {
    match t
    case LBool => GetVarint32(input).Some? && v == VBool(GetVarint32(input).value.0 != 0)
    case LVarint(size) => GetVarint(input, true).Some? && v.VInt? && SignedCut(GetVarint(input, true).value.0, size, v.i)
    case LUVarint(size) => GetVarint(input, true).Some? && v == VInt(GetVarint(input, true).value.0) && IntSize(size) && v.i < Pow256(size)
    case LSVarint(size) => GetVarint(input, true).Some? && v.VInt? && IntSize(size) && SignedFits(v.i, size) && ZigZag(v.i) == GetVarint(input, true).value.0
    case LFixed32 => |input| >= 4 && v.VFixed? && v.n < TWO_TO_32 && LittleEndian(v.n, 4) == input[..4]
    case LFixed64 => |input| >= 8 && v.VFixed? && v.n < TWO_TO_64 && LittleEndian(v.n, 8) == input[..8]
    case LBytes(max) => GetPrefixed(input).Some? && v == VBytes(GetPrefixed(input).value.0) && |v.bytes| <= max
    case LString(max) => GetPrefixed(input).Some? && v == VBytes(GetPrefixed(input).value.0) && |v.bytes| < max
    case LFixedBytes(size) => GetPrefixed(input).Some? && v.VBytes? && |v.bytes| == size && (v.bytes == GetPrefixed(input).value.0 || (GetPrefixed(input).value.0 == [] && AllZero(v.bytes)))
    case LSubmessage(_) => false
  }

  /** The number in two's complement, of 64 bits for a field of 8 bytes and else of 32. */
  ghost predicate SignedCut(n: nat, size: nat, i: int) {
    IntSize(size) && SignedFits(i, size) && (n - i) % (if size == 8 then TWO_TO_64 else TWO_TO_32) == 0
  }

  ghost predicate AllZero(bytes: seq<byte>) {
    forall k :: 0 <= k < |bytes| ==> bytes[k] == 0
  }

  /** The submessage at the front of the bytes has its required fields. */
  ghost predicate RequiredWithin(fields: seq<Field>, input: seq<byte>) {
    GetPrefixed(input).Some? && (Distinct(fields) ==> RequiredThere(fields, TopTags(GetPrefixed(input).value.0, fields)))
  }

  /** The values stand one after another in the bytes, as far as to `end`. */
  ghost predicate ReadOff(t: LType, start: seq<byte>, vs: seq<Item>, end: seq<byte>)
    decreases |vs|
  {
    if vs == [] then start == end
    else
      var front, last := vs[..|vs| - 1], vs[|vs| - 1];
      exists at :: ReadOff(t, start, front, at) && ReadsNext(t, at, last, end)
  }

  ghost predicate ReadsNext(t: LType, at: seq<byte>, v: Item, end: seq<byte>) {
    ReadsAs(t, at, v) && AfterValue(at, t) == Some(end)
  }

  lemma ReadOffNone(t: LType, start: seq<byte>)
    ensures ReadOff(t, start, [], start)
  {
  }

  lemma ReadOffMore(t: LType, start: seq<byte>, vs: seq<Item>, at: seq<byte>, v: Item, end: seq<byte>)
    requires ReadOff(t, start, vs, at) && ReadsAs(t, at, v) && AfterValue(at, t) == Some(end)
    ensures ReadOff(t, start, vs + [v], end)
  {
    assert (vs + [v])[..|vs|] == vs;
    assert ReadsNext(t, at, v, end);
  }

  ghost predicate InPackedForm(f: Field, wire: nat, slot: Slot) {
    slot.Many? && wire == WT_STRING && Packable(f.ltype)
  }

  /** What an occurrence of a field leaves in its place: the value read, behind those that are
      there already in an array, and all the values of a packed array. */
  ghost predicate Lands(f: Field, wire: nat, slot: Slot, input: seq<byte>, after: Slot) {
    match slot
    case One(_) => after.One? && ReadsAs(f.ltype, input, after.value)
    case Opt(_, _) => after.Opt? && after.has && ReadsAs(f.ltype, input, after.value)
    case Many(values) =>
      && after.Many? && values <= after.values
      && if InPackedForm(f, wire, slot) then GetPrefixed(input).Some? && ReadOff(f.ltype, GetPrefixed(input).value.0, after.values[|values|..], [])
         else |after.values| == |values| + 1 && ReadsAs(f.ltype, input, after.values[|values|])
  }

  ghost predicate Unreadable(t: LType, input: seq<byte>) {
    forall v :: !ReadsAs(t, input, v)
  }

  lemma SignedCutIs(n: nat, size: nat, i: int)
    ensures SignedCut(n, size, i) <==> DecodeSigned(n, size) == Some(i)
  {
    PowersOf256();
    hide Pow256, Signed;
    if IntSize(size) && SignedFits(i, size) {
      if size == 8 {
        SignedOf64(n, i);
      } else {
        SignedOf32(n, i);
      }
    }
  }

  lemma ZigZagIs(n: nat, size: nat, i: int)
    ensures IntSize(size) && SignedFits(i, size) && ZigZag(i) == n <==> DecodeZigZag(n, size) == Some(i)
  {
    hide Pow256;
  }

  lemma {:induction false} LittleEndianIs(bytes: seq<byte>)
    ensures LittleEndian(FromLittleEndian(bytes), |bytes|) == bytes
    decreases |bytes|
  {
    if bytes != [] {
      var n, rest := FromLittleEndian(bytes), FromLittleEndian(bytes[1..]);
      assert n == bytes[0] as nat + 256 * rest;
      assert n % 256 == bytes[0] as nat && n / 256 == rest;
      LittleEndianIs(bytes[1..]);
    }
  }

  /** How the decoder comes by the value. */
  ghost predicate Computed(t: LType, input: seq<byte>, v: Item) {
    match t
    case LVarint(size) => GetVarint(input, true).Some? && v.VInt? && DecodeSigned(GetVarint(input, true).value.0, size) == Some(v.i)
    case LUVarint(size) => GetVarint(input, true).Some? && v.VInt? && DecodeUnsigned(GetVarint(input, true).value.0, size) == Some(v.i)
    case LSVarint(size) => GetVarint(input, true).Some? && v.VInt? && DecodeZigZag(GetVarint(input, true).value.0, size) == Some(v.i)
    case LFixed32 => |input| >= 4 && v == VFixed(FromLittleEndian(input[..4]))
    case LFixed64 => |input| >= 8 && v == VFixed(FromLittleEndian(input[..8]))
    case LFixedBytes(size) => GetPrefixed(input).Some? && v.VBytes? && |v.bytes| == size && v == if GetPrefixed(input).value.0 == [] then Default(t) else VBytes(GetPrefixed(input).value.0)
    case _ => ReadsAs(t, input, v)
  }

  lemma ComputedIs(t: LType, input: seq<byte>, v: Item)
    requires !t.LSubmessage?
    ensures ReadsAs(t, input, v) <==> Computed(t, input, v)
  {
    hide Varint, LittleEndian, FromLittleEndian, DecodeSigned, DecodeZigZag, Pow256, ZigZag, GetVarint32, GetVarint, GetPrefixed, SignedCut;
    match t
    case LVarint(size) =>
      if GetVarint(input, true).Some? && v.VInt? {
        SignedCutIs(GetVarint(input, true).value.0, size, v.i);
      }
    case LSVarint(size) =>
      if GetVarint(input, true).Some? && v.VInt? {
        ZigZagIs(GetVarint(input, true).value.0, size, v.i);
      }
    case LFixed32 => FixedIs(input, 4, if v.VFixed? then v.n else 0);
    case LFixed64 => FixedIs(input, 8, if v.VFixed? then v.n else 0);
    case _ =>
  }

  lemma FixedIs(input: seq<byte>, size: nat, n: nat)
    requires size == 4 || size == 8
    ensures |input| >= size ==> (n < Pow256(size) && LittleEndian(n, size) == input[..size] <==> n == FromLittleEndian(input[..size]))
    ensures Pow256(4) == TWO_TO_32 && Pow256(8) == TWO_TO_64
  {
    PowersOf256();
    hide LittleEndian, FromLittleEndian, Pow256;
    if |input| >= size {
      LittleEndianIs(input[..size]);
      FixedInRange(input[..size]);
      if n < Pow256(size) {
        LittleEndianRoundTrip(n, size);
      }
    }
  }

  lemma ScalarMeans(t: LType, input: seq<byte>)
    requires !t.LSubmessage?
    ensures forall v :: ReadsAs(t, input, v) <==> Computed(t, input, v)
  {
    hide ReadsAs, Computed;
    forall v ensures ReadsAs(t, input, v) <==> Computed(t, input, v) {
      ComputedIs(t, input, v);
    }
  }

  // ----- shapes: a struct has the members its descriptor says

  ghost predicate Shaped(t: LType, v: Item)
    decreases v
  {
    match t
    case LBool => v.VBool?
    case LVarint(size) => v.VInt? && SignedFits(v.i, size)
    case LUVarint(size) => v.VInt? && 0 <= v.i < Pow256(size)
    case LSVarint(size) => v.VInt? && SignedFits(v.i, size)
    case LFixed32 => v.VFixed? && v.n < TWO_TO_32
    case LFixed64 => v.VFixed? && v.n < TWO_TO_64
    case LBytes(max) => v.VBytes? && |v.bytes| <= max
    case LString(max) => v.VBytes? && (|v.bytes| < max || v.bytes == [])
    case LFixedBytes(size) => v.VBytes? && |v.bytes| == size
    case LSubmessage(fields) => v.VMessage? && SlotsShaped(fields, v.slots)
  }

  ghost predicate SlotShaped(f: Field, s: Slot)
    decreases s
  {
    match f.htype
    case HRequired => s.One? && Shaped(f.ltype, s.value)
    case HImplicit => s.One? && Shaped(f.ltype, s.value)
    case HOptional => s.Opt? && Shaped(f.ltype, s.value)
    case HOneof(_) => s.Opt? && Shaped(f.ltype, s.value)
    case HRepeated(max) => s.Many? && |s.values| <= max && forall i :: 0 <= i < |s.values| ==> Shaped(f.ltype, s.values[i])
    case HFixedCount(count) => s.Many? && |s.values| <= count && forall i :: 0 <= i < |s.values| ==> Shaped(f.ltype, s.values[i])
  }

  ghost predicate SlotsShaped(fields: seq<Field>, slots: seq<Slot>)
    decreases slots
  {
    |slots| == |fields| && forall i :: 0 <= i < |slots| ==> SlotShaped(fields[i], slots[i])
  }

  /** The default a field points to, here and in submessages, is one of its type. */
  ghost predicate TypeOk(t: LType)
    decreases t
  {
    match t
    case LSubmessage(fields) => FieldsOk(fields)
    case _ => true
  }

  ghost predicate FieldOk(f: Field)
    decreases f
  {
    TypeOk(f.ltype) && (f.init.Some? ==> Shaped(f.ltype, f.init.value))
  }

  ghost predicate FieldsOk(fields: seq<Field>)
    decreases fields
  {
    forall i :: 0 <= i < |fields| ==> FieldOk(fields[i])
  }

  lemma {:induction false} DefaultShaped(t: LType)
    requires TypeOk(t)
    ensures Shaped(t, Default(t))
    decreases t
  {
    match t
    case LSubmessage(fields) => DefaultsShaped(fields);
    case _ => PowerPositive(t);
  }

  lemma PowerPositive(t: LType)
    ensures t.LVarint? || t.LUVarint? || t.LSVarint? ==> Pow256(t.size) > 0
  {
    if t.LVarint? || t.LUVarint? || t.LSVarint? {
      PowerAbove(t.size);
    }
  }

  lemma {:induction false} PowerAbove(n: nat)
    ensures Pow256(n) > 0
  {
    if n > 0 {
      PowerAbove(n - 1);
    }
  }

  lemma {:induction false} DefaultsShaped(fields: seq<Field>)
    requires FieldsOk(fields)
    ensures SlotsShaped(fields, DefaultSlots(fields))
    decreases fields
  {
    forall i | 0 <= i < |fields| ensures SlotShaped(fields[i], DefaultSlot(fields[i])) {
      DefaultSlotShaped(fields[i]);
    }
  }

  lemma {:induction false} DefaultSlotShaped(f: Field)
    requires FieldOk(f)
    ensures SlotShaped(f, DefaultSlot(f))
    decreases f
  {
    DefaultShaped(f.ltype);
  }

  lemma SignedInRange(n: nat, size: nat)
    ensures DecodeSigned(n, size).Some? ==> SignedFits(DecodeSigned(n, size).value, size)
  {
  }

  lemma UnsignedInRange(n: nat, size: nat)
    ensures DecodeUnsigned(n, size).Some? ==> 0 <= DecodeUnsigned(n, size).value < Pow256(size)
  {
  }

  lemma ZigZagInRange(n: nat, size: nat)
    ensures DecodeZigZag(n, size).Some? ==> SignedFits(DecodeZigZag(n, size).value, size)
  {
  }

  lemma {:induction false} FixedBelow(bytes: seq<byte>)
    ensures FromLittleEndian(bytes) < Pow256(|bytes|)
    decreases |bytes|
  {
    if bytes != [] {
      FixedBelow(bytes[1..]);
    }
  }

  lemma FixedInRange(bytes: seq<byte>)
    ensures |bytes| == 4 ==> FromLittleEndian(bytes) < TWO_TO_32
    ensures |bytes| == 8 ==> FromLittleEndian(bytes) < TWO_TO_64
  {
    FixedBelow(bytes);
    PowersOf256();
  }

  lemma SubmessageBytes(fields: seq<Field>, v: Item)
    requires ValueDecodes(LSubmessage(fields), v)
    ensures v.VMessage? && MessageDecodes(fields, v.slots)
    ensures ValueBytes(LSubmessage(fields), v) == LengthPrefixed(MessageBytes(fields, v.slots, |v.slots|))
    ensures |MessageBytes(fields, v.slots, |v.slots|)| < TWO_TO_32
  {
    hide MessageDecodes, MessageBytes;
  }

  // ----- one occurrence of a field

  /** What a field's tag announces: its value, all elements packed, or one element. */
  datatype Occurrence = Whole(v: Item) | Packed(vs: seq<Item>) | Element(vs: seq<Item>, j: nat)

  ghost function OccurrenceBytes(f: Field, o: Occurrence): seq<byte> {
    match o
    case Whole(v) => ValueBytes(f.ltype, v)
    case Packed(vs) => LengthPrefixed(ValuesBytes(f.ltype, vs, |vs|))
    case Element(vs, j) => if j < |vs| then ValueBytes(f.ltype, vs[j]) else []
  }

  ghost function Limit(f: Field): nat {
    if f.htype.HRepeated? then f.htype.max else if f.htype.HFixedCount? then f.htype.count else 1
  }

  /** The occurrence finds the field as the occurrences before left it. */
  ghost predicate Occurs(f: Field, wire: nat, slot: Slot, o: Occurrence) {
    match o
    case Whole(v) => !slot.Many? && (f.ltype.LSubmessage? ==> slot.value == Default(f.ltype)) && ValueDecodes(f.ltype, v)
    case Packed(vs) =>
      slot == Many([]) && wire == WT_STRING && Packable(f.ltype) && |vs| <= Limit(f) && |ValuesBytes(f.ltype, vs, |vs|)| < TWO_TO_32
      && forall i :: 0 <= i < |vs| ==> ValueDecodes(f.ltype, vs[i])
    case Element(vs, j) =>
      !Packable(f.ltype) && j < |vs| <= Limit(f) && slot == Many(NormalAll(f.ltype, vs[..j])) && ValueDecodes(f.ltype, vs[j])
  }

  ghost function AfterOccurrence(f: Field, o: Occurrence): Slot {
    match o
    case Whole(v) => if f.htype.HRequired? || f.htype.HImplicit? then One(Normal(f.ltype, v)) else Opt(true, Normal(f.ltype, v))
    case Packed(vs) => Many(vs)
    case Element(vs, j) => if j < |vs| then Many(NormalAll(f.ltype, vs[..j + 1])) else Many([])
  }

  lemma NormalNext(t: LType, vs: seq<Item>, j: nat)
    requires j < |vs|
    ensures NormalAll(t, vs[..j + 1]) == NormalAll(t, vs[..j]) + [Normal(t, vs[j])]
  {
    assert vs[..j + 1] == vs[..j] + [vs[j]];
  }

  /** While bytes are left, so is an element. */
  lemma PackedNext(t: LType, vs: seq<Item>, j: nat)
    requires j <= |vs| && ValuesTail(t, vs, j) != []
    ensures j < |vs| && ValuesTail(t, vs, j) == ValueBytes(t, vs[j]) + ValuesTail(t, vs, j + 1)
  {
    hide ValueBytes;
    if j < |vs| {
      ValuesTailStep(t, vs, j);
    }
  }

  /** Bytes are left exactly while an element is. */
  lemma PackedDone(t: LType, vs: seq<Item>, j: nat)
    requires j <= |vs| && Packable(t) && forall i :: 0 <= i < |vs| ==> ValueDecodes(t, vs[i])
    ensures ValuesTail(t, vs, j) == [] <==> j == |vs|
  {
    if j < |vs| {
      ValuesTailStep(t, vs, j);
      PackableNotEmpty(t, vs[j]);
    }
  }

  lemma PackableNotEmpty(t: LType, v: Item)
    requires Packable(t) && ValueDecodes(t, v)
    ensures ValueBytes(t, v) != []
  {
  }

  const MAX_REQUIRED: nat := 64

  predicate RequiredSeen(fields: seq<Field>, seen: set<nat>) {
    forall k: nat :: k < RequiredBefore(fields, |fields|) && k < MAX_REQUIRED ==> k in seen
  }

  /** A fixed-count array that did not get all its elements. */
  predicate WrongCount(fields: seq<Field>, slots: seq<Slot>, fixedField: Option<nat>)
    requires |slots| == |fields|
  {
    && fixedField.Some? && fixedField.value < |fields| && fields[fixedField.value].htype.HFixedCount?
    && slots[fixedField.value].Many? && |slots[fixedField.value].values| != fields[fixedField.value].htype.count
  }

  /** Setting one field of a oneof unsets the others; a field that was not set starts afresh. */
  function SetOneof(fields: seq<Field>, slots: seq<Slot>, pos: nat): (r: seq<Slot>)
    requires |slots| == |fields| && pos < |fields| && fields[pos].htype.HOneof?
    ensures |r| == |slots|
  {
    seq(|slots|, k requires 0 <= k < |slots| =>
      if k == pos then (if slots[pos].Opt? && slots[pos].has then slots[pos] else Opt(false, Default(fields[pos].ltype)))
      else if fields[k].htype == fields[pos].htype then Opt(false, Default(fields[k].ltype))
      else slots[k])
  }

  /** The state after PrepareField. */
  ghost predicate Prepared(fields: seq<Field>, pos: nat, requiredIndex: nat, slots: seq<Slot>, fixedField: Option<nat>, seen: set<nat>,
      slots': seq<Slot>, fixedField': Option<nat>, seen': set<nat>)
    requires |slots| == |fields| && pos < |fields|
  {
    && |slots'| == |fields|
    && !(fields[pos].htype.HFixedCount? && fixedField != Some(pos) && WrongCount(fields, slots, fixedField))
    && fixedField' == (if fields[pos].htype.HFixedCount? then Some(pos) else fixedField)
    && seen' == (if fields[pos].htype.HRequired? && requiredIndex < MAX_REQUIRED then seen + {requiredIndex} else seen)
    && (fields[pos].htype.HFixedCount? ==> slots' == if fixedField != Some(pos) then slots[pos := Many([])] else slots)
    && (!fields[pos].htype.HFixedCount? ==> slots' == if fields[pos].htype.HOneof? then SetOneof(fields, slots, pos) else slots)
  }

  lemma PreparedFacts(fields: seq<Field>, pos: nat, slots: seq<Slot>, fixedField: Option<nat>, seen: set<nat>,
      slots': seq<Slot>, fixedField': Option<nat>, seen': set<nat>)
    requires |slots| == |fields| && pos < |fields| && Prepared(fields, pos, RequiredBefore(fields, pos), slots, fixedField, seen, slots', fixedField', seen')
    ensures fixedField' == if fields[pos].htype.HFixedCount? then Some(pos) else fixedField
    ensures seen <= seen' && (fields[pos].htype.HRequired? && RequiredBefore(fields, pos) < MAX_REQUIRED ==> RequiredBefore(fields, pos) in seen')
  {
    hide RequiredBefore;
  }

  /** The field can be made ready without a change. */
  ghost predicate Ready(fields: seq<Field>, pos: nat, slots: seq<Slot>, fixedField: Option<nat>)
    requires |slots| == |fields| && pos < |fields|
  {
    && (fixedField != Some(pos) ==> !WrongCount(fields, slots, fixedField))
    && (fields[pos].htype.HFixedCount? && fixedField != Some(pos) ==> slots[pos := Many([])] == slots)
    && (fields[pos].htype.HOneof? ==> SetOneof(fields, slots, pos) == slots)
  }

  // ----- what holds whatever the input is

  /** At most one field of a oneof is set. */
  ghost predicate OneSet(fields: seq<Field>, slots: seq<Slot>) {
    |slots| == |fields| && OneofsOk(fields, slots)
  }

  /** A fixed-count array is empty or has all its elements, but for the one in progress. */
  ghost predicate CountsWhole(fields: seq<Field>, slots: seq<Slot>, inProgress: Option<nat>) {
    |slots| == |fields| && forall k: nat :: k < |fields| && fields[k].htype.HFixedCount? && inProgress != Some(k) && slots[k].Many? ==>
      slots[k].values == [] || |slots[k].values| == fields[k].htype.count
  }

  /** Of the first 64 required fields, each tag is among the tags. */
  ghost predicate RequiredThere(fields: seq<Field>, tags: set<nat>) {
    forall i :: 0 <= i < |fields| && fields[i].htype.HRequired? && |set j | 0 <= j < i && fields[j].htype.HRequired?| < MAX_REQUIRED ==> fields[i].tag in tags
  }

  /** Each required field ticked off has its tag among the tags. */
  ghost predicate Ticked(fields: seq<Field>, seen: set<nat>, tags: set<nat>) {
    forall q :: q in seen ==> exists i :: 0 <= i < |fields| && fields[i].htype.HRequired? && RequiredBefore(fields, i) == q && fields[i].tag in tags
  }

  lemma NothingTicked(fields: seq<Field>, tags: set<nat>)
    ensures Ticked(fields, {}, tags)
  {
  }

  lemma TickedMore(fields: seq<Field>, before: set<nat>, seen: set<nat>, pos: nat, tags: set<nat>)
    requires Ticked(fields, before, tags) && pos < |fields| && fields[pos].tag in tags
    requires seen == if fields[pos].htype.HRequired? && RequiredBefore(fields, pos) < MAX_REQUIRED then before + {RequiredBefore(fields, pos)} else before
    ensures Ticked(fields, seen, tags)
  {
    hide RequiredBefore;
  }

  lemma {:induction false} RequiredCounts(fields: seq<Field>, i: nat)
    requires i <= |fields|
    ensures |set j | 0 <= j < i && fields[j].htype.HRequired?| == RequiredBefore(fields, i)
    decreases i
  {
    if i > 0 {
      RequiredCounts(fields, i - 1);
      var before := set j | 0 <= j < i - 1 && fields[j].htype.HRequired?;
      var all := set j | 0 <= j < i && fields[j].htype.HRequired?;
      assert all == if fields[i - 1].htype.HRequired? then before + {i - 1} else before;
    }
  }

  lemma {:induction false} RequiredGrows(fields: seq<Field>, i: nat, j: nat)
    requires i < j <= |fields| && fields[i].htype.HRequired?
    ensures RequiredBefore(fields, i) < RequiredBefore(fields, j)
    decreases j
  {
    if i < j - 1 {
      RequiredGrows(fields, i, j - 1);
    }
  }

  lemma AllRequiredThere(fields: seq<Field>, seen: set<nat>, tags: set<nat>)
    requires RequiredSeen(fields, seen) && Ticked(fields, seen, tags)
    ensures RequiredThere(fields, tags)
  {
    hide RequiredBefore;
    forall i: nat | i < |fields| && fields[i].htype.HRequired? && |set j | 0 <= j < i && fields[j].htype.HRequired?| < MAX_REQUIRED
      ensures fields[i].tag in tags
    {
      RequiredCounts(fields, i);
      RequiredGrows(fields, i, |fields|);
      assert RequiredBefore(fields, i) in seen;
      var k :| 0 <= k < |fields| && fields[k].htype.HRequired? && RequiredBefore(fields, k) == RequiredBefore(fields, i) && fields[k].tag in tags;
      if k < i {
        RequiredGrows(fields, k, i);
      } else if i < k {
        RequiredGrows(fields, i, k);
      }
    }
  }

  lemma TagScanned(input: seq<byte>, fields: seq<Field>, tag: nat, wire: nat, rest: seq<byte>)
    requires GetVarint32(input) == Some((8 * tag + wire, rest)) && wire < 8 && 8 * tag + wire != 0
    ensures tag in TopTags(input, fields)
    ensures AfterTagged(rest, fields, tag, wire).Some? ==> TopTags(AfterTagged(rest, fields, tag, wire).value, fields) <= TopTags(input, fields)
  {
    hide TopTags, GetVarint32, AfterTagged;
    TopTagsStep(input, fields, 8 * tag + wire, rest);
  }

  lemma NotKnown(fields: seq<Field>, tag: nat, wire: nat, rest: seq<byte>)
    requires !exists i :: 0 <= i < |fields| && fields[i].tag == tag
    ensures AfterTagged(rest, fields, tag, wire) == AfterSkipped(rest, wire)
  {
  }

  /** Storing what was decoded keeps oneofs single and the other arrays whole. */
  lemma FieldStored(fields: seq<Field>, pos: nat, before: seq<Slot>, fixedBefore: Option<nat>, slots: seq<Slot>, fixedField: Option<nat>, slot: Slot)
    requires |before| == |slots| == |fields| && pos < |fields|
    requires !(fields[pos].htype.HFixedCount? && fixedBefore != Some(pos) && WrongCount(fields, before, fixedBefore))
    requires fixedField == if fields[pos].htype.HFixedCount? then Some(pos) else fixedBefore
    requires fields[pos].htype.HFixedCount? ==> slots == if fixedBefore != Some(pos) then before[pos := Many([])] else before
    requires !fields[pos].htype.HFixedCount? ==> slots == if fields[pos].htype.HOneof? then SetOneof(fields, before, pos) else before
    requires fixedBefore.Some? ==> fixedBefore.value < |fields| && fields[fixedBefore.value].htype.HFixedCount?
    requires forall k :: 0 <= k < |fields| ==> SlotShaped(fields[k], before[k])
    ensures OneSet(fields, before) ==> OneSet(fields, slots[pos := slot])
    ensures CountsWhole(fields, before, fixedBefore) ==> CountsWhole(fields, slots[pos := slot], fixedField)
  {
    hide Shaped;
    if OneSet(fields, before) {
      OneStored(fields, pos, before, slots, slot);
    }
    if CountsWhole(fields, before, fixedBefore) {
      forall k: nat | k < |fields| && fields[k].htype.HFixedCount? && fixedField != Some(k) && slots[pos := slot][k].Many?
        ensures slots[pos := slot][k].values == [] || |slots[pos := slot][k].values| == fields[k].htype.count
      {
        assert SlotShaped(fields[k], before[k]);
        assert k != pos && slots[k] == before[k];
      }
    }
  }

  lemma OneStored(fields: seq<Field>, pos: nat, before: seq<Slot>, slots: seq<Slot>, slot: Slot)
    requires |slots| == |fields| && pos < |fields| && OneSet(fields, before)
    requires if fields[pos].htype.HOneof? then slots == SetOneof(fields, before, pos) else slots == before || slots == before[pos := Many([])]
    ensures OneSet(fields, slots[pos := slot])
  {
    hide Default;
    var after := slots[pos := slot];
    forall i, j | 0 <= i < |fields| && 0 <= j < |fields| && i != j && SameOneof(fields[i], fields[j]) ensures IsSet(after[i]) ==> !IsSet(after[j]) {
      assert IsSet(before[i]) ==> !IsSet(before[j]);
    }
  }

  lemma CountsDone(fields: seq<Field>, slots: seq<Slot>, fixedField: Option<nat>)
    requires |slots| == |fields| && CountsWhole(fields, slots, fixedField) && !WrongCount(fields, slots, fixedField)
    requires fixedField.Some? ==> fixedField.value < |fields| && fields[fixedField.value].htype.HFixedCount?
    ensures CountsWhole(fields, slots, None)
  {
  }

  /** What is kept while decoding `start`, of which `rest` is left. */
  ghost predicate Kept(fields: seq<Field>, dest: seq<Slot>, start: seq<byte>, rest: seq<byte>, slots: seq<Slot>, fixedField: Option<nat>, seen: set<nat>) {
    && (Distinct(fields) ==> Ticked(fields, seen, TopTags(start, fields)) && TopTags(rest, fields) <= TopTags(start, fields))
    && (OneSet(fields, dest) ==> OneSet(fields, slots))
    && (CountsWhole(fields, dest, None) ==> CountsWhole(fields, slots, fixedField))
  }

  lemma KeptAtStart(fields: seq<Field>, dest: seq<Slot>, start: seq<byte>)
    ensures Kept(fields, dest, start, start, dest, None, {})
  {
    hide TopTags, OneSet, CountsWhole;
    NothingTicked(fields, TopTags(start, fields));
  }

  lemma KeptSkipping(fields: seq<Field>, dest: seq<Slot>, start: seq<byte>, rest0: seq<byte>, slots: seq<Slot>, fixedField: Option<nat>, seen: set<nat>,
      tag: nat, wire: nat, after: seq<byte>, rest: seq<byte>)
    requires Kept(fields, dest, start, rest0, slots, fixedField, seen)
    requires GetVarint32(rest0) == Some((8 * tag + wire, after)) && wire < 8 && 8 * tag + wire != 0
    requires AfterSkipped(after, wire) == Some(rest) && !exists i :: 0 <= i < |fields| && fields[i].tag == tag
    ensures Kept(fields, dest, start, rest, slots, fixedField, seen)
  {
    hide TopTags, OneSet, CountsWhole, Ticked, AfterTagged, AfterSkipped, GetVarint32;
    TagScanned(rest0, fields, tag, wire, after);
    NotKnown(fields, tag, wire, after);
  }

  lemma KeptStoring(fields: seq<Field>, dest: seq<Slot>, start: seq<byte>, rest0: seq<byte>, before: seq<Slot>, fixedBefore: Option<nat>, seenBefore: set<nat>,
      pos: nat, wire: nat, after: seq<byte>, rest: seq<byte>, slots: seq<Slot>, fixedField: Option<nat>, seen: set<nat>, slot: Slot)
    requires Kept(fields, dest, start, rest0, before, fixedBefore, seenBefore)
    requires |before| == |fields| && pos < |fields|
    requires GetVarint32(rest0) == Some((8 * fields[pos].tag + wire, after)) && wire < 8 && 8 * fields[pos].tag + wire != 0
    requires AfterField(after, fields[pos], wire) == Some(rest)
    requires Prepared(fields, pos, RequiredBefore(fields, pos), before, fixedBefore, seenBefore, slots, fixedField, seen)
    requires fixedBefore.Some? ==> fixedBefore.value < |fields| && fields[fixedBefore.value].htype.HFixedCount?
    requires forall k :: 0 <= k < |fields| ==> SlotShaped(fields[k], before[k])
    ensures |slots| == |fields| && Kept(fields, dest, start, rest, slots[pos := slot], fixedField, seen)
  {
    hide TopTags, OneSet, CountsWhole, Ticked, AfterTagged, AfterField, GetVarint32, WrongCount, SetOneof, SlotShaped, RequiredBefore, Distinct;
    FieldStored(fields, pos, before, fixedBefore, slots, fixedField, slot);
    if Distinct(fields) {
      TagScanned(rest0, fields, fields[pos].tag, wire, after);
      AfterKnown(after, fields, pos, wire);
      TickedMore(fields, seenBefore, seen, pos, TopTags(start, fields));
    }
  }

  lemma KeptInTheEnd(fields: seq<Field>, dest: seq<Slot>, start: seq<byte>, rest: seq<byte>, slots: seq<Slot>, fixedField: Option<nat>, seen: set<nat>)
    requires Kept(fields, dest, start, rest, slots, fixedField, seen) && |slots| == |fields|
    requires !WrongCount(fields, slots, fixedField) && RequiredSeen(fields, seen)
    requires fixedField.Some? ==> fixedField.value < |fields| && fields[fixedField.value].htype.HFixedCount?
    ensures Distinct(fields) ==> RequiredThere(fields, TopTags(start, fields))
    ensures OneSet(fields, dest) ==> OneSet(fields, slots)
    ensures CountsWhole(fields, dest, None) ==> CountsWhole(fields, slots, None)
  {
    hide TopTags, OneSet, CountsWhole, Ticked, RequiredThere, RequiredSeen, WrongCount, Distinct;
    if Distinct(fields) {
      AllRequiredThere(fields, seen, TopTags(start, fields));
    }
    if CountsWhole(fields, dest, None) {
      CountsDone(fields, slots, fixedField);
    }
  }

  /** The decoder is in the middle of `start`. */
  ghost predicate Underway(fields: seq<Field>, dest: seq<Slot>, start: seq<byte>, rest: seq<byte>, slots: seq<Slot>, fixedField: Option<nat>, seen: set<nat>) {
    && |slots| == |fields| && (forall k :: 0 <= k < |fields| ==> SlotShaped(fields[k], slots[k]))
    && (fixedField.Some? ==> fixedField.value < |fields| && fields[fixedField.value].htype.HFixedCount?)
    && Kept(fields, dest, start, rest, slots, fixedField, seen)
  }

  lemma UnderwayAtStart(fields: seq<Field>, dest: seq<Slot>, start: seq<byte>)
    requires SlotsShaped(fields, dest)
    ensures Underway(fields, dest, start, start, dest, None, {})
  {
    hide SlotShaped, Kept;
    KeptAtStart(fields, dest, start);
  }

  lemma UnderwayFacts(fields: seq<Field>, dest: seq<Slot>, start: seq<byte>, rest: seq<byte>, slots: seq<Slot>, fixedField: Option<nat>, seen: set<nat>)
    requires Underway(fields, dest, start, rest, slots, fixedField, seen)
    ensures |slots| == |fields| && forall k :: 0 <= k < |fields| ==> SlotShaped(fields[k], slots[k])
    ensures SlotsShaped(fields, slots)
  {
    hide SlotShaped, Kept;
  }

  lemma UnderwaySkipping(fields: seq<Field>, dest: seq<Slot>, start: seq<byte>, rest0: seq<byte>, slots: seq<Slot>, fixedField: Option<nat>, seen: set<nat>,
      tag: nat, wire: nat, after: seq<byte>, rest: seq<byte>)
    requires Underway(fields, dest, start, rest0, slots, fixedField, seen)
    requires GetVarint32(rest0) == Some((8 * tag + wire, after)) && wire < 8 && 8 * tag + wire != 0
    requires AfterSkipped(after, wire) == Some(rest) && !exists i :: 0 <= i < |fields| && fields[i].tag == tag
    ensures Underway(fields, dest, start, rest, slots, fixedField, seen)
  {
    hide SlotShaped, Kept, GetVarint32, AfterSkipped;
    KeptSkipping(fields, dest, start, rest0, slots, fixedField, seen, tag, wire, after, rest);
  }

  lemma UnderwayStoring(fields: seq<Field>, dest: seq<Slot>, start: seq<byte>, rest0: seq<byte>, before: seq<Slot>, fixedBefore: Option<nat>, seenBefore: set<nat>,
      pos: nat, wire: nat, after: seq<byte>, rest: seq<byte>, prepared: seq<Slot>, fixedField: Option<nat>, seen: set<nat>, slot: Slot)
    requires Underway(fields, dest, start, rest0, before, fixedBefore, seenBefore) && pos < |fields| == |before|
    requires GetVarint32(rest0) == Some((8 * fields[pos].tag + wire, after)) && wire < 8 && 8 * fields[pos].tag + wire != 0
    requires AfterField(after, fields[pos], wire) == Some(rest)
    requires Prepared(fields, pos, RequiredBefore(fields, pos), before, fixedBefore, seenBefore, prepared, fixedField, seen)
    requires |prepared| == |fields| && forall k :: 0 <= k < |fields| ==> SlotShaped(fields[k], prepared[pos := slot][k])
    ensures Underway(fields, dest, start, rest, prepared[pos := slot], fixedField, seen)
  {
    hide SlotShaped, Kept, GetVarint32, AfterField, Prepared, RequiredBefore;
    KeptStoring(fields, dest, start, rest0, before, fixedBefore, seenBefore, pos, wire, after, rest, prepared, fixedField, seen, slot);
    PreparedFacts(fields, pos, before, fixedBefore, seenBefore, prepared, fixedField, seen);
  }

  lemma UnderwayEnds(fields: seq<Field>, dest: seq<Slot>, start: seq<byte>, rest: seq<byte>, slots: seq<Slot>, fixedField: Option<nat>, seen: set<nat>)
    requires Underway(fields, dest, start, rest, slots, fixedField, seen) && |slots| == |fields|
    requires !WrongCount(fields, slots, fixedField) && RequiredSeen(fields, seen)
    ensures Distinct(fields) ==> RequiredThere(fields, TopTags(start, fields))
    ensures OneSet(fields, dest) ==> OneSet(fields, slots)
    ensures CountsWhole(fields, dest, None) ==> CountsWhole(fields, slots, None)
  {
    hide SlotShaped, Kept, WrongCount, RequiredSeen;
    KeptInTheEnd(fields, dest, start, rest, slots, fixedField, seen);
  }

  lemma SetOneofShaped(fields: seq<Field>, slots: seq<Slot>, pos: nat)
    requires FieldsOk(fields)
    requires |slots| == |fields| && pos < |fields| && fields[pos].htype.HOneof?
    requires forall k :: 0 <= k < |fields| ==> SlotShaped(fields[k], slots[k])
    ensures forall k :: 0 <= k < |fields| ==> SlotShaped(fields[k], SetOneof(fields, slots, pos)[k])
  {
    hide Shaped, Default;
    forall k | 0 <= k < |fields| ensures SlotShaped(fields[k], SetOneof(fields, slots, pos)[k]) {
      assert FieldOk(fields[k]);
      DefaultShaped(fields[k].ltype);
    }
  }

  /** What happens to a field that was found before its value is read: a fixed-count array starts
      anew, a required field is ticked off, and a oneof is switched over. */
  method PrepareField(fields: seq<Field>, pos: nat, requiredIndex: nat, slots: seq<Slot>, fixedField: Option<nat>, seen: set<nat>)
    returns (ok: bool, slots': seq<Slot>, fixedField': Option<nat>, seen': set<nat>)
    requires FieldsOk(fields) && |slots| == |fields| && pos < |fields| && forall k :: 0 <= k < |fields| ==> SlotShaped(fields[k], slots[k])
    ensures |slots'| == |fields| && forall k :: 0 <= k < |fields| ==> SlotShaped(fields[k], slots'[k])
    ensures ok <==> !(fields[pos].htype.HFixedCount? && fixedField != Some(pos) && WrongCount(fields, slots, fixedField))
    ensures ok ==> fixedField' == if fields[pos].htype.HFixedCount? then Some(pos) else fixedField
    ensures ok ==> seen' == if fields[pos].htype.HRequired? && requiredIndex < MAX_REQUIRED then seen + {requiredIndex} else seen
    ensures ok && fields[pos].htype.HFixedCount? ==> slots' == if fixedField != Some(pos) then slots[pos := Many([])] else slots
    ensures ok && !fields[pos].htype.HFixedCount? ==> slots' == if fields[pos].htype.HOneof? then SetOneof(fields, slots, pos) else slots
  {
    hide SlotShaped, WrongCount, SetOneof;
    slots', fixedField', seen' := slots, fixedField, seen;
    if fields[pos].htype.HFixedCount? && fixedField != Some(pos) {
      if WrongCount(fields, slots, fixedField) {
        return false, slots', fixedField', seen';
      }
      fixedField' := Some(pos);
      ResetShaped(fields[pos]);
      slots' := slots[pos := Many([])];
    }
    if fields[pos].htype.HRequired? && requiredIndex < MAX_REQUIRED {
      seen' := seen + {requiredIndex};
    }
    if fields[pos].htype.HOneof? {
      SetOneofShaped(fields, slots', pos);
      slots' := SetOneof(fields, slots', pos);
    }
    ok := true;
  }

  lemma ResetShaped(f: Field)
    requires f.htype.HFixedCount?
    ensures SlotShaped(f, Many([]))
  {
  }

  // ----- where the decoder is in the encoding of `msg`: field `i`, element `j`

  ghost function Remaining(fields: seq<Field>, msg: seq<Slot>, i: nat, j: nat): seq<byte>
    requires |msg| == |fields| && i <= |fields|
    requires j > 0 ==> i < |fields| && msg[i].Many? && j <= |msg[i].values|
  {
    if j == 0 then MessageTail(fields, msg, i) else TaggedTail(fields[i], msg[i].values, j) + MessageTail(fields, msg, i + 1)
  }

  ghost function Expected(fields: seq<Field>, msg: seq<Slot>, i: nat, j: nat, m: nat): Slot
    requires |msg| == |fields| && m < |fields|
    requires j > 0 ==> i < |fields| && msg[i].Many? && j <= |msg[i].values|
  {
    if m < i then NormalSlot(fields[m], msg[m])
    else if m == i && j > 0 then Many(NormalAll(fields[i].ltype, msg[i].values[..j]))
    else DefaultSlot(fields[m])
  }

  ghost predicate FixedOk(fields: seq<Field>, i: nat, j: nat, fixedField: Option<nat>) {
    && (fixedField.Some? ==> fixedField.value < |fields| && fields[fixedField.value].htype.HFixedCount? && (fixedField.value < i || (fixedField.value == i && j > 0)))
    && (j > 0 && i < |fields| && fields[i].htype.HFixedCount? ==> fixedField == Some(i))
  }

  ghost predicate SeenOk(fields: seq<Field>, i: nat, seen: set<nat>)
    requires i <= |fields|
  {
    forall m :: 0 <= m < i && fields[m].htype.HRequired? && RequiredBefore(fields, m) < MAX_REQUIRED ==> RequiredBefore(fields, m) in seen
  }

  ghost predicate Within(fields: seq<Field>, msg: seq<Slot>, i: nat, j: nat) {
    && MessageDecodes(fields, msg) && |msg| == |fields| && i <= |fields|
    && (j > 0 ==> i < |fields| && msg[i].Many? && !Packable(fields[i].ltype) && j <= |msg[i].values|)
  }

  ghost predicate At(fields: seq<Field>, msg: seq<Slot>, i: nat, j: nat, rest: seq<byte>, slots: seq<Slot>, fixedField: Option<nat>, seen: set<nat>) {
    && Within(fields, msg, i, j) && rest == Remaining(fields, msg, i, j)
    && |slots| == |fields| && (forall m: nat :: m < |fields| ==> slots[m] == Expected(fields, msg, i, j, m))
    && FixedOk(fields, i, j, fixedField) && SeenOk(fields, i, seen)
  }

  lemma StartsAt(fields: seq<Field>, msg: seq<Slot>)
    requires MessageDecodes(fields, msg)
    ensures At(fields, msg, 0, 0, MessageBytes(fields, msg, |msg|), DefaultSlots(fields), None, {})
  {
    hide SlotDecodes, SlotBytes, SlotHas, GoodFields, OneofsOk;
  }

  /** Field `i` is still to be decoded, or its element `j` is. */
  ghost predicate Pending(fields: seq<Field>, msg: seq<Slot>, i: nat, j: nat)
    requires |msg| == |fields|
  {
    i < |fields| && if j == 0 then SlotBytes(fields[i], msg[i]) != [] else msg[i].Many? && j < |msg[i].values|
  }

  lemma TaggedTailEnds(f: Field, vs: seq<Item>)
    ensures TaggedTail(f, vs, |vs|) == []
  {
  }

  lemma MessageTailEnds(fields: seq<Field>, msg: seq<Slot>)
    ensures MessageTail(fields, msg, |msg|) == []
  {
  }

  lemma ManyIsRepeated(f: Field, s: Slot)
    requires SlotHas(f, s)
    ensures s.Many? <==> f.htype.HRepeated? || f.htype.HFixedCount?
    ensures s.One? <==> f.htype.HRequired? || f.htype.HImplicit?
    ensures f.htype.HFixedCount? ==> |s.values| == f.htype.count
  {
  }

  lemma MessageParts(fields: seq<Field>, msg: seq<Slot>, i: nat)
    requires MessageDecodes(fields, msg) && i < |fields|
    ensures |msg| == |fields| && SlotHas(fields[i], msg[i]) && SlotDecodes(fields[i], msg[i])
    ensures fields[i].tag > 0 && fields[i].tag * 8 + 7 < TWO_TO_32
  {
  }

  /** A field that is done, or was never written, can be passed. */
  lemma PassField(fields: seq<Field>, msg: seq<Slot>, i: nat, j: nat, rest: seq<byte>, slots: seq<Slot>, fixedField: Option<nat>, seen: set<nat>)
    requires At(fields, msg, i, j, rest, slots, fixedField, seen) && i < |fields| && !Pending(fields, msg, i, j)
    ensures At(fields, msg, i + 1, 0, rest, slots, fixedField, seen)
  {
    hide MessageDecodes, SlotHas, SlotBytes, MessageTail, TaggedTail, DefaultSlot, NormalSlot, NormalAll;
    MessageParts(fields, msg, i);
    ManyIsRepeated(fields[i], msg[i]);
    if j == 0 {
      NotWritten(fields[i], msg[i]);
      MessageTailStep(fields, msg, i);
    } else {
      TaggedTailEnds(fields[i], msg[i].values);
      assert msg[i].values[..j] == msg[i].values;
      NormalOfMany(fields[i], msg[i].values);
    }
  }

  lemma NormalOfMany(f: Field, vs: seq<Item>)
    ensures NormalSlot(f, Many(vs)) == Many(NormalAll(f.ltype, vs))
  {
  }

  /** Passes what is done or was not written, up to the next field that is there. */
  lemma {:induction false} Advance(fields: seq<Field>, msg: seq<Slot>, i: nat, j: nat, rest: seq<byte>, slots: seq<Slot>, fixedField: Option<nat>, seen: set<nat>)
      returns (i': nat, j': nat)
    requires At(fields, msg, i, j, rest, slots, fixedField, seen) && rest != []
    ensures |msg| == |fields| && At(fields, msg, i', j', rest, slots, fixedField, seen) && Pending(fields, msg, i', j')
    decreases |fields| - i
  {
    hide At, Pending, MessageDecodes;
    AtBounds(fields, msg, i, j, rest, slots, fixedField, seen);
    if i < |fields| && !Pending(fields, msg, i, j) {
      PassField(fields, msg, i, j, rest, slots, fixedField, seen);
      i', j' := Advance(fields, msg, i + 1, 0, rest, slots, fixedField, seen);
    } else {
      i', j' := i, j;
    }
  }

  lemma AtBounds(fields: seq<Field>, msg: seq<Slot>, i: nat, j: nat, rest: seq<byte>, slots: seq<Slot>, fixedField: Option<nat>, seen: set<nat>)
    requires At(fields, msg, i, j, rest, slots, fixedField, seen)
    ensures |msg| == |slots| == |fields| && i <= |fields|
    ensures rest == [] ==> !Pending(fields, msg, i, j)
    ensures i == |fields| ==> rest == []
  {
    MessageTailEnds(fields, msg);
    if Pending(fields, msg, i, j) {
      PendingHasBytes(fields, msg, i, j);
    }
  }

  /** At the end of the input everything was decoded. */
  lemma {:induction false} Finish(fields: seq<Field>, msg: seq<Slot>, i: nat, j: nat, rest: seq<byte>, slots: seq<Slot>, fixedField: Option<nat>, seen: set<nat>)
    requires At(fields, msg, i, j, rest, slots, fixedField, seen) && rest == []
    ensures |msg| == |fields| && slots == NormalSlots(fields, msg) && RequiredSeen(fields, seen)
    ensures |slots| == |fields| && !WrongCount(fields, slots, fixedField)
    decreases |fields| - i
  {
    hide At, Pending, MessageDecodes, NormalSlots, WrongCount, RequiredSeen;
    AtBounds(fields, msg, i, j, rest, slots, fixedField, seen);
    if i < |fields| {
      PassField(fields, msg, i, j, rest, slots, fixedField, seen);
      Finish(fields, msg, i + 1, 0, rest, slots, fixedField, seen);
    } else {
      Finished(fields, msg, j, rest, slots, fixedField, seen);
    }
  }

  lemma Finished(fields: seq<Field>, msg: seq<Slot>, j: nat, rest: seq<byte>, slots: seq<Slot>, fixedField: Option<nat>, seen: set<nat>)
    requires At(fields, msg, |fields|, j, rest, slots, fixedField, seen)
    ensures |msg| == |slots| == |fields| && slots == NormalSlots(fields, msg) && RequiredSeen(fields, seen)
    ensures !WrongCount(fields, slots, fixedField)
  {
    hide MessageDecodes, NormalSlot, MessageTail, SlotHas;
    forall m: nat | m < |fields| ensures slots[m] == NormalSlot(fields[m], msg[m]) {
      assert slots[m] == Expected(fields, msg, |fields|, j, m);
    }
    AllRequiredSeen(fields, |fields|, seen);
    if fixedField.Some? {
      var k := fixedField.value;
      MessageParts(fields, msg, k);
      ManyIsRepeated(fields[k], msg[k]);
      NormalOfMany(fields[k], msg[k].values);
    }
  }

  lemma PendingHasBytes(fields: seq<Field>, msg: seq<Slot>, i: nat, j: nat)
    requires Within(fields, msg, i, j) && Pending(fields, msg, i, j)
    ensures Remaining(fields, msg, i, j) != []
  {
    hide MessageDecodes, SlotBytes, MessageTail, TaggedTail, TagBytes, ValueBytes;
    if j == 0 {
      MessageTailStep(fields, msg, i);
    } else {
      TaggedTailStep(fields[i], msg[i].values, j);
      TagNotEmpty(fields[i].tag, WireType(fields[i].ltype));
    }
  }

  lemma {:induction false} AllRequiredSeen(fields: seq<Field>, n: nat, seen: set<nat>)
    requires n <= |fields| && SeenOk(fields, |fields|, seen)
    ensures forall k: nat :: k < RequiredBefore(fields, n) && k < MAX_REQUIRED ==> k in seen
    decreases n
  {
    if n > 0 {
      AllRequiredSeen(fields, n - 1, seen);
      assert fields[n - 1].htype.HRequired? && RequiredBefore(fields, n - 1) < MAX_REQUIRED ==> RequiredBefore(fields, n - 1) in seen;
    }
  }

  /** What stands next in the input. */
  lemma Announced(fields: seq<Field>, msg: seq<Slot>, i: nat, j: nat, rest: seq<byte>, slots: seq<Slot>, fixedField: Option<nat>, seen: set<nat>)
      returns (o: Occurrence, wire: nat, tail: seq<byte>)
    requires |msg| == |fields| && At(fields, msg, i, j, rest, slots, fixedField, seen) && Pending(fields, msg, i, j)
    ensures i < |slots| && rest == TagBytes(fields[i].tag, wire) + (OccurrenceBytes(fields[i], o) + tail) && wire < 8
    ensures Occurs(fields[i], wire, slots[i], o) && Leads(fields, msg, i, j, o, tail)
    ensures 0 < fields[i].tag && fields[i].tag * 8 + wire < TWO_TO_32
  {
    hide MessageDecodes, MessageTail, TaggedTail, TagBytes, ValueBytes, ValueDecodes;
    hide LengthPrefixed, ValuesBytes, TaggedBytes, Default, Initial, Normal;
    var f, s := fields[i], msg[i];
    MessageParts(fields, msg, i);
    if f.ltype.LSubmessage? {
      InitialIsDefault(f);
    }
    ManyIsRepeated(f, s);
    MessageTailStep(fields, msg, i);
    assert slots[i] == Expected(fields, msg, i, j, i);
    match s
    case One(v) =>
      o, wire, tail := Whole(v), WireType(f.ltype), MessageTail(fields, msg, i + 1);
    case Opt(has, v) =>
      o, wire, tail := Whole(v), WireType(f.ltype), MessageTail(fields, msg, i + 1);
    case Many(vs) =>
      if Packable(f.ltype) {
        o, wire, tail := Packed(vs), WT_STRING, MessageTail(fields, msg, i + 1);
      } else {
        TaggedTailStart(f, vs);
        TaggedTailStep(f, vs, j);
        o, wire, tail := Element(vs, j), WireType(f.ltype), TaggedTail(f, vs, j + 1) + MessageTail(fields, msg, i + 1);
        assert vs[..0] == [] && NormalAll(f.ltype, []) == [];
      }
  }

  lemma TaggedTailStart(f: Field, vs: seq<Item>)
    ensures TaggedTail(f, vs, 0) == TaggedBytes(f, vs, |vs|)
  {
  }

  /** The occurrence, and the input after it, belong to this place. */
  ghost predicate Leads(fields: seq<Field>, msg: seq<Slot>, i: nat, j: nat, o: Occurrence, tail: seq<byte>)
    requires |msg| == |fields|
  {
    && i < |fields|
    && match o
      case Whole(v) => j == 0 && AfterOccurrence(fields[i], o) == NormalSlot(fields[i], msg[i]) && tail == MessageTail(fields, msg, i + 1)
      case Packed(vs) => j == 0 && msg[i] == Many(vs) && Packable(fields[i].ltype) && tail == MessageTail(fields, msg, i + 1)
      case Element(vs, k) => k == j && msg[i] == Many(vs) && j < |vs| && !Packable(fields[i].ltype) && tail == TaggedTail(fields[i], vs, j + 1) + MessageTail(fields, msg, i + 1)
  }

  /** The tag leads to field `i`, whose predecessors are complete; setting its oneof changes nothing. */
  lemma Located(fields: seq<Field>, msg: seq<Slot>, i: nat, j: nat, slots: seq<Slot>, rest: seq<byte>, fixedField: Option<nat>, seen: set<nat>, pos: nat)
    requires |msg| == |fields| && At(fields, msg, i, j, rest, slots, fixedField, seen) && Pending(fields, msg, i, j)
    requires pos < |fields| && fields[pos].tag == fields[i].tag
    ensures pos == i && |slots| == |fields|
    ensures Ready(fields, pos, slots, fixedField)
  {
    assert GoodFields(fields) && OneofsOk(fields, msg);
    assert pos == i;
    hide MessageDecodes, MessageTail, TaggedTail, SlotHas, SlotDecodes, NormalAll, Default, Normal;
    MessageParts(fields, msg, i);
    ManyIsRepeated(fields[i], msg[i]);
    assert slots[i] == Expected(fields, msg, i, j, i);
    if fixedField.Some? && fixedField != Some(i) {
      var k := fixedField.value;
      MessageParts(fields, msg, k);
      ManyIsRepeated(fields[k], msg[k]);
      NormalOfMany(fields[k], msg[k].values);
      assert slots[k] == Expected(fields, msg, i, j, k);
    }
    if fields[i].htype.HOneof? {
      OneofNoop(fields, msg, i, j, slots);
    }
  }

  lemma OneofNoop(fields: seq<Field>, msg: seq<Slot>, i: nat, j: nat, slots: seq<Slot>)
    requires Within(fields, msg, i, j) && |slots| == |fields| && Pending(fields, msg, i, j) && fields[i].htype.HOneof?
    requires forall m: nat :: m < |fields| ==> slots[m] == Expected(fields, msg, i, j, m)
    ensures SetOneof(fields, slots, i) == slots
  {
    assert OneofsOk(fields, msg);
    hide MessageDecodes, SlotHas, Default, Initial, Normal;
    MessageParts(fields, msg, i);
    ManyIsRepeated(fields[i], msg[i]);
    InitialIsDefault(fields[i]);
    forall k: nat | k < |fields| ensures SetOneof(fields, slots, i)[k] == slots[k] {
      MessageParts(fields, msg, k);
      ManyIsRepeated(fields[k], msg[k]);
      assert slots[k] == Expected(fields, msg, i, j, k);
      if k != i && fields[k].htype == fields[i].htype {
        InitialIsDefault(fields[k]);
        assert SameOneof(fields[i], fields[k]);
        assert IsSet(msg[i]) && !IsSet(msg[k]);
      }
    }
  }

  /** Decoding the occurrence leads to the next place. */
  lemma Arrived(fields: seq<Field>, msg: seq<Slot>, i: nat, j: nat, o: Occurrence, rest: seq<byte>, tail: seq<byte>,
      before: seq<Slot>, slots: seq<Slot>, fixedBefore: Option<nat>, seenBefore: set<nat>, fixedField: Option<nat>, seen: set<nat>)
    requires |msg| == |fields| && At(fields, msg, i, j, rest, before, fixedBefore, seenBefore) && Leads(fields, msg, i, j, o, tail)
    requires slots == before[i := AfterOccurrence(fields[i], o)]
    requires fixedField == if fields[i].htype.HFixedCount? then Some(i) else fixedBefore
    requires seenBefore <= seen && (fields[i].htype.HRequired? && RequiredBefore(fields, i) < MAX_REQUIRED ==> RequiredBefore(fields, i) in seen)
    ensures At(fields, msg, if o.Element? then i else i + 1, if o.Element? then j + 1 else 0, tail, slots, fixedField, seen)
  {
    hide MessageDecodes, MessageTail, TaggedTail, NormalSlot, DefaultSlot, NormalAll;
    hide Normal, AfterOccurrence, Expected, ValueBytes, SlotHas, SlotDecodes;
    MessageParts(fields, msg, i);
    ManyIsRepeated(fields[i], msg[i]);
    forall m: nat | m < |fields|
      ensures slots[m] == Expected(fields, msg, if o.Element? then i else i + 1, if o.Element? then j + 1 else 0, m)
    {
      ExpectedNext(fields, msg, i, j, o, tail, m);
    }
    hide Leads;
  }

  lemma ExpectedNext(fields: seq<Field>, msg: seq<Slot>, i: nat, j: nat, o: Occurrence, tail: seq<byte>, m: nat)
    requires |msg| == |fields| && Within(fields, msg, i, j) && Leads(fields, msg, i, j, o, tail) && m < |fields|
    ensures Expected(fields, msg, if o.Element? then i else i + 1, if o.Element? then j + 1 else 0, m)
      == if m == i then AfterOccurrence(fields[i], o) else Expected(fields, msg, i, j, m)
  {
    hide MessageDecodes, MessageTail, TaggedTail, DefaultSlot, NormalAll, Normal;
    if o.Packed? {
      NormalOfMany(fields[i], o.vs);
      NormalPackable(fields[i].ltype, o.vs);
    }
  }

  lemma NormalPackable(t: LType, vs: seq<Item>)
    requires Packable(t)
    ensures NormalAll(t, vs) == vs
  {
  }

  // ----- the round trip

  /** pb_decode of what pb_encode wrote gives the message back, up to fields that are not set. */
  method RoundTrip(fields: seq<Field>, msg: seq<Slot>) returns (decoded: Option<seq<Slot>>)
    requires MessageDecodes(fields, msg) && FieldsOk(fields)
    ensures decoded == Some(NormalSlots(fields, msg))
    ensures forall i :: 0 <= i < |fields| && msg[i].Opt? && !msg[i].has && fields[i].htype.HOptional? && !fields[i].ltype.LSubmessage? && fields[i].init.Some? ==>
      decoded.value[i] == Opt(false, fields[i].init.value)
  {
    hide MessageDecodes, MessageBytes, SlotsHave, MessageEncodes;
    MessageTyped(fields, msg);
    var size := GetEncodedSize(fields, msg);
    var bytes := EncodeToBuffer(fields, msg, size.value);
    var stream := new IStream(bytes.value);
    DefaultsShaped(fields);
    decoded := stream.DecodeMessage(fields, DefaultSlots(fields), msg);
  }

  lemma MessageTyped(fields: seq<Field>, msg: seq<Slot>)
    requires MessageDecodes(fields, msg)
    ensures SlotsHave(fields, msg) && |msg| == |fields| && MessageEncodes(fields, msg, |msg|)
  {
    MessageWillEncode(fields, msg, |msg|);
  }

  /** A message that can be decoded can be encoded. */
  lemma {:induction false} MessageWillEncode(fields: seq<Field>, msg: seq<Slot>, n: nat)
    requires MessageDecodes(fields, msg) && n <= |msg|
    ensures |msg| == |fields| && MessageEncodes(fields, msg, n)
    decreases msg, n, 0
  {
    if n > 0 {
      MessageWillEncode(fields, msg, n - 1);
      SlotWillEncode(fields[n - 1], msg[n - 1]);
    }
  }

  lemma {:induction false} SlotWillEncode(f: Field, s: Slot)
    requires SlotHas(f, s) && SlotDecodes(f, s)
    ensures SlotEncodes(f, s)
    decreases s, 0
  {
    match s
    case One(v) =>
      if !(f.htype.HImplicit? && IsDefault(f.ltype, v)) {
        ValueWillEncode(f.ltype, v);
      }
    case Opt(has, v) =>
      if has {
        ValueWillEncode(f.ltype, v);
      }
    case Many(vs) => ValuesWillEncode(f.ltype, vs, |vs|);
  }

  lemma {:induction false} ValuesWillEncode(t: LType, vs: seq<Item>, n: nat)
    requires n <= |vs| && forall i :: 0 <= i < |vs| ==> ValueDecodes(t, vs[i])
    ensures ValuesEncode(t, vs, n)
    decreases vs, n, 0
  {
    if n > 0 {
      ValuesWillEncode(t, vs, n - 1);
      ValueWillEncode(t, vs[n - 1]);
    }
  }

  lemma {:induction false} ValueWillEncode(t: LType, v: Item)
    requires ValueDecodes(t, v)
    ensures ValueEncodes(t, v)
    decreases v, 0
  {
    match t
    case LSubmessage(fields) => MessageWillEncode(fields, v.slots, |v.slots|);
    case _ =>
  }
}
