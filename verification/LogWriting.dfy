/** The log writer (db/log_writer.cc). */
module LogWriting {
  import opened Format
  import opened Coding
  import opened LogFormat

  /** The writer's offset in its block, for a log of `length` bytes. */
  ghost predicate SameOffset(offset: nat, length: nat) {
    offset <= BLOCK_SIZE && offset % BLOCK_SIZE == length % BLOCK_SIZE
  }

  lemma RoomLeft(pos: nat, offset: nat)
    requires SameOffset(offset, pos)
    ensures var leftover := BLOCK_SIZE - offset;
      if leftover < HEADER_SIZE then PadLength(pos) == leftover && Avail(pos) == BLOCK_SIZE - HEADER_SIZE
      else PadLength(pos) == 0 && Avail(pos) == leftover - HEADER_SIZE
  {
  }

  class Writer {
    var dest: seq<byte>
    var blockOffset: nat
    ghost var records: seq<seq<byte>>

    ghost predicate Valid()
      reads this
    {
      && dest == LogBytes(records)
      && SameOffset(blockOffset, |dest|)
    }

    /** A writer that goes on with an existing log. */
    constructor (existing: seq<byte>, ghost records: seq<seq<byte>>)
      requires existing == LogBytes(records)
      ensures Valid() && dest == existing && this.records == records
    {
      hide LogBytes;
      dest := existing;
      blockOffset := |existing| % BLOCK_SIZE;
      this.records := records;
    }

    method AddRecord(slice: seq<byte>)
      requires Valid()
      modifies this
      ensures Valid() && records == old(records) + [slice]
    {
      hide Header, Layout, LogBytes, Split, PadLength, Avail, FirstPiece, Place, SameOffset;
      ghost var target := dest + Layout(|dest|, Split(|dest|, slice, true));
      LogGrows(records, slice);
      var ptr, begin, more := 0, true, true;
      assert slice[0..] == slice;
      while more
        invariant ptr <= |slice| && SameOffset(blockOffset, |dest|) && records == old(records)
        invariant target == if more then dest + Layout(|dest|, Split(|dest|, slice[ptr..], begin)) else dest
        decreases more, |slice| - ptr, if more then Need(|dest|) else 0
      {
        ghost var pos, rest, before := |dest|, slice[ptr..], dest;
        SplitStep(pos, rest, begin);
        StartBlock();
        var avail := BLOCK_SIZE - blockOffset - HEADER_SIZE;
        var left := |slice| - ptr;
        var fragmentLength := if left < avail then left else avail;
        ghost var f := FirstPiece(pos, rest, begin);
        PieceAt(slice, ptr, f, fragmentLength);
        EmitPhysicalRecord(KindOf(begin, left == fragmentLength), slice[ptr..ptr + fragmentLength]);
        PlaceIs(pos, f);
        assert dest == before + Place(pos, f);
        if f.payload == [] && rest != [] {
          RoomAfter(pos, f);
        }
        ptr := ptr + fragmentLength;
        begin := false;
        more := ptr < |slice|;
      }
      records := records + [slice];
    }

    /** Fills the end of a block with zeros when no header fits there. */
    method StartBlock()
      requires SameOffset(blockOffset, |dest|)
      modifies this`dest, this`blockOffset
      ensures dest == old(dest) + Zeros(PadLength(|old(dest)|))
      ensures blockOffset + HEADER_SIZE + Avail(|old(dest)|) == BLOCK_SIZE && SameOffset(blockOffset, |dest|)
    {
      RoomLeft(|dest|, blockOffset);
      var leftover := BLOCK_SIZE - blockOffset;
      if leftover < HEADER_SIZE {
        dest := dest + Zeros(leftover);
        blockOffset := 0;
      }
    }

    /** Appends a header and its payload. */
    method EmitPhysicalRecord(t: RecordType, payload: seq<byte>)
      requires |payload| <= 0xffff && blockOffset + HEADER_SIZE + |payload| <= BLOCK_SIZE && SameOffset(blockOffset, |dest|)
      modifies this`dest, this`blockOffset
      ensures dest == old(dest) + Header(Piece(t, payload)) + payload && SameOffset(blockOffset, |dest|)
    {
      hide CrcRun, Complement, Mask, EncodeFixed32, CrcByte;
      var typeCrc := Crc([TypeCode(t)]);
      var crc := Mask(Extend(typeCrc, payload)) as nat;
      ExtendConcat(0, [TypeCode(t)], payload);
      dest := dest + (EncodeFixed32(crc) + [(|payload| % 256) as byte, (|payload| / 256) as byte, TypeCode(t)]);
      dest := dest + payload;
      blockOffset := blockOffset + HEADER_SIZE + |payload|;
    }
  }

  lemma PlaceIs(pos: nat, f: Fragment)
    ensures Place(pos, f) == Zeros(PadLength(pos)) + Header(f) + f.payload
  {
  }

  lemma PieceAt(slice: seq<byte>, ptr: nat, f: Fragment, length: nat)
    requires ptr + length <= |slice| && f.payload <= slice[ptr..] && |f.payload| == length
    ensures slice[ptr..ptr + length] == f.payload && slice[ptr..][length..] == slice[ptr + length..]
  {
  }
}
