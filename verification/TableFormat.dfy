/** The bytes of a table file: block handles, blocks with their trailers, and the footer (table/format.cc). */
module TableFormat {
  import opened Format
  import opened Coding
  import opened LogFormat
  import opened BlockFormat
  import opened KeyRanks
  import opened TwoLevel

  const BLOCK_TRAILER_SIZE: nat := 5
  const MAX_HANDLE: nat := 20
  const FOOTER_SIZE: nat := 48
  const MAGIC_LOW: nat := 0x8b80fb57
  const MAGIC_HIGH: nat := 0xdb477524

  // ----- handles

  predicate HandleFits(h: BlockHandle) {
    h.offset < TWO_TO_64 && h.size < TWO_TO_64
  }

  /** BlockHandle::EncodeTo. */
  function HandleBytes(h: BlockHandle): seq<byte> {
    Varint(h.offset) + Varint(h.size)
  }

  method EncodeHandle(h: BlockHandle) returns (bytes: seq<byte>)
    requires HandleFits(h)
    ensures bytes == HandleBytes(h)
  {
    hide Varint;
    bytes := PutVarint64([], h.offset);
    bytes := PutVarint64(bytes, h.size);
  }

  lemma HandleSize(h: BlockHandle)
    requires HandleFits(h)
    ensures |HandleBytes(h)| <= MAX_HANDLE
  {
    HandleReads(h, []);
    assert HandleBytes(h) + [] == HandleBytes(h);
  }

  /** BlockHandle::DecodeFrom. */
  function GetHandle(input: seq<byte>): Option<(BlockHandle, seq<byte>)> {
    match GetVarint(input, true)
    case None => None
    case Some((offset, rest)) =>
      match GetVarint(rest, true)
      case None => None
      case Some((size, rest')) => Some((BlockHandle(offset, size), rest'))
  }

  lemma HandleReads(h: BlockHandle, rest: seq<byte>)
    requires HandleFits(h)
    ensures GetHandle(HandleBytes(h) + rest) == Some((h, rest)) && |HandleBytes(h)| <= MAX_HANDLE
  {
    hide Varint, GetVarint;
    VarintRoundTrip(h.offset, Varint(h.size) + rest, true);
    VarintRoundTrip(h.size, rest, true);
    LongVarint(h.offset);
    LongVarint(h.size);
    assert HandleBytes(h) + rest == Varint(h.offset) + (Varint(h.size) + rest);
  }

  // ----- the footer

  /** The handles of the metaindex block and the index block, padded, and the magic number. */
  function FooterBytes(metaindex: BlockHandle, index: BlockHandle): (bytes: seq<byte>)
    requires HandleFits(metaindex) && HandleFits(index)
    ensures |bytes| == FOOTER_SIZE
  {
    HandleReads(metaindex, []);
    HandleReads(index, []);
    assert HandleBytes(metaindex) + [] == HandleBytes(metaindex) && HandleBytes(index) + [] == HandleBytes(index);
    var handles := HandleBytes(metaindex) + HandleBytes(index);
    handles + seq(2 * MAX_HANDLE - |handles|, _ => 0) + EncodeFixed32(MAGIC_LOW) + EncodeFixed32(MAGIC_HIGH)
  }

  /** Footer::DecodeFrom. */
  function ReadFooter(input: seq<byte>): Option<(BlockHandle, BlockHandle)>
    requires |input| == FOOTER_SIZE
  {
    if DecodeFixed32(input[40..44]) != MAGIC_LOW || DecodeFixed32(input[44..48]) != MAGIC_HIGH then None
    else match GetHandle(input)
      case None => None
      case Some((metaindex, rest)) =>
        match GetHandle(rest)
        case None => None
        case Some((index, _)) => Some((metaindex, index))
  }

  lemma FooterRoundTrip(metaindex: BlockHandle, index: BlockHandle)
    requires HandleFits(metaindex) && HandleFits(index)
    ensures ReadFooter(FooterBytes(metaindex, index)) == Some((metaindex, index))
  {
    hide GetHandle, HandleBytes, EncodeFixed32, DecodeFixed32;
    HandleReads(metaindex, []);
    HandleReads(index, []);
    assert HandleBytes(metaindex) + [] == HandleBytes(metaindex) && HandleBytes(index) + [] == HandleBytes(index);
    Fixed32RoundTrip(MAGIC_LOW);
    Fixed32RoundTrip(MAGIC_HIGH);
    var bytes := FooterBytes(metaindex, index);
    var a, b := HandleBytes(metaindex), HandleBytes(index);
    var rest := seq(40 - |a + b|, _ => 0 as byte) + EncodeFixed32(MAGIC_LOW) + EncodeFixed32(MAGIC_HIGH);
    assert bytes == a + (b + rest);
    assert bytes[40..44] == EncodeFixed32(MAGIC_LOW) && bytes[44..48] == EncodeFixed32(MAGIC_HIGH);
    HandleReads(metaindex, b + rest);
    HandleReads(index, rest);
  }

  /** A handle, and the end of every footer. */
  lemma FooterExample(metaindex: BlockHandle, index: BlockHandle)
    requires HandleFits(metaindex) && HandleFits(index)
    ensures HandleBytes(BlockHandle(300, 5)) == [172, 2, 5]
    ensures FooterBytes(metaindex, index)[40..] == [0x57, 0xfb, 0x80, 0x8b, 0x24, 0x75, 0x47, 0xdb]
  {
    assert Varint(300) == [172, 2] && Varint(5) == [5];
    assert EncodeFixed32(MAGIC_LOW) == [0x57, 0xfb, 0x80, 0x8b] && EncodeFixed32(MAGIC_HIGH) == [0x24, 0x75, 0x47, 0xdb];
    hide EncodeFixed32, HandleBytes;
    HandleReads(metaindex, []);
    HandleReads(index, []);
    assert HandleBytes(metaindex) + [] == HandleBytes(metaindex) && HandleBytes(index) + [] == HandleBytes(index);
    var front := HandleBytes(metaindex) + HandleBytes(index) + seq(40 - |HandleBytes(metaindex) + HandleBytes(index)|, _ => 0);
    assert FooterBytes(metaindex, index) == front + (EncodeFixed32(MAGIC_LOW) + EncodeFixed32(MAGIC_HIGH));
  }

  // ----- blocks in the file

  /** A block's contents, its type, which says not compressed, and the checksum of both. */
  function Sealed(block: seq<byte>): (bytes: seq<byte>)
    ensures |bytes| == |block| + BLOCK_TRAILER_SIZE
  {
    block + [0] + EncodeFixed32(StoredCrc(block + [0]))
  }

  /** A stored block of one byte: the byte, the type and the masked checksum of both. */
  lemma SealedExample()
    ensures Sealed([0x61]) == [0x61, 0, 151, 175, 201, 55]
  {
    assert CrcByte(0xffff_ffff, 0x61) == 0x3e2f_bccf && CrcByte(0x3e2f_bccf, 0) == 0x9da0_355c;
    CrcOfTwo(0x61, 0);
    hide CrcByte;
    assert Mask(0x625f_caa3) == 0x37c9_af97;
    assert 0x37c9_af97 as bv32 as nat == 935964567;
    assert [0x61] + [0] == [0x61, 0];
    assert EncodeFixed32(935964567) == [151, 175, 201, 55];
  }

  /** The handle leads to a block with those entries. */
  ghost predicate BlockAt(file: seq<byte>, h: BlockHandle, es: seq<Pair>, restartAt: seq<nat>) {
    && RestartsOk(es, restartAt) && Fits(es, restartAt) && Increasing(RANK, es)
    && h.size == |BlockBytes(es, restartAt)| && h.offset + h.size + BLOCK_TRAILER_SIZE <= |file|
    && file[h.offset..h.offset + h.size + BLOCK_TRAILER_SIZE] == Sealed(BlockBytes(es, restartAt))
  }

  ghost predicate HasBlock(file: seq<byte>, h: BlockHandle, es: seq<Pair>) {
    exists restartAt :: BlockAt(file, h, es, restartAt)
  }

  /** What is appended to a file leaves its blocks alone. */
  lemma BlockStays(file: seq<byte>, more: seq<byte>, h: BlockHandle, es: seq<Pair>)
    requires HasBlock(file, h, es)
    ensures HasBlock(file + more, h, es)
  {
    hide RestartsOk, Fits, Increasing, BlockBytes, Sealed;
    var restartAt :| BlockAt(file, h, es, restartAt);
    assert (file + more)[h.offset..h.offset + h.size + BLOCK_TRAILER_SIZE] == file[h.offset..h.offset + h.size + BLOCK_TRAILER_SIZE];
    assert BlockAt(file + more, h, es, restartAt);
  }

  // ----- rows and index entries as block entries

  function Pairs(rows: seq<Row>): (es: seq<Pair>)
    ensures |es| == |rows| && forall i :: 0 <= i < |rows| ==> es[i] == Pair(KeyBytes(rows[i].key), rows[i].value)
  {
    seq(|rows|, i requires 0 <= i < |rows| => Pair(KeyBytes(rows[i].key), rows[i].value))
  }

  function IndexPairs(index: seq<IndexEntry>): (es: seq<Pair>)
    ensures |es| == |index| && forall i :: 0 <= i < |index| ==> es[i] == Pair(KeyBytes(index[i].key), HandleBytes(index[i].handle))
  {
    seq(|index|, i requires 0 <= i < |index| => Pair(KeyBytes(index[i].key), HandleBytes(index[i].handle)))
  }

  lemma PairsMore(rows: seq<Row>, row: Row)
    ensures Pairs(rows + [row]) == Pairs(rows) + [Pair(KeyBytes(row.key), row.value)]
  {
  }

  lemma IndexPairsMore(index: seq<IndexEntry>, e: IndexEntry)
    ensures IndexPairs(index + [e]) == IndexPairs(index) + [Pair(KeyBytes(e.key), HandleBytes(e.handle))]
  {
  }

  /** The blocks of rows, one after another in the file. */
  ghost predicate Stored(file: seq<byte>, handles: seq<BlockHandle>, blocks: seq<seq<Row>>) {
    && |handles| == |blocks|
    && (forall i :: 0 <= i < |handles| ==> HandleFits(handles[i]) && handles[i].offset < |file| && HasBlock(file, handles[i], Pairs(blocks[i])))
    && (forall i, j :: 0 <= i < j < |handles| ==> handles[i].offset < handles[j].offset)
  }

  lemma StoredStays(file: seq<byte>, more: seq<byte>, handles: seq<BlockHandle>, blocks: seq<seq<Row>>)
    requires Stored(file, handles, blocks)
    ensures Stored(file + more, handles, blocks)
  {
    hide HasBlock;
    forall i | 0 <= i < |handles| ensures HasBlock(file + more, handles[i], Pairs(blocks[i])) {
      BlockStays(file, more, handles[i], Pairs(blocks[i]));
    }
  }

  /** One more block at the end of the file. */
  lemma StoredMore(file: seq<byte>, more: seq<byte>, handles: seq<BlockHandle>, blocks: seq<seq<Row>>, h: BlockHandle, rows: seq<Row>)
    requires Stored(file, handles, blocks) && h.offset == |file| && more != []
    requires HandleFits(h) && HasBlock(file + more, h, Pairs(rows))
    ensures Stored(file + more, handles + [h], blocks + [rows])
  {
    hide HasBlock;
    StoredStays(file, more, handles, blocks);
  }

  /** A finished table: the footer leads to the index, and the index to the blocks. */
  ghost predicate IsTable(file: seq<byte>, index: seq<IndexEntry>, blocks: seq<seq<Row>>) {
    && |index| == |blocks|
    && Stored(file, Handles(index), blocks)
    && exists metaindex, indexHandle :: Footed(file, metaindex, indexHandle) && HasBlock(file, indexHandle, IndexPairs(index))
  }

  ghost predicate Footed(file: seq<byte>, metaindex: BlockHandle, index: BlockHandle) {
    && HandleFits(metaindex) && HandleFits(index)
    && |file| >= FOOTER_SIZE && file[|file| - FOOTER_SIZE..] == FooterBytes(metaindex, index)
  }

  function Handles(index: seq<IndexEntry>): (handles: seq<BlockHandle>)
    ensures |handles| == |index| && forall i :: 0 <= i < |index| ==> handles[i] == index[i].handle
  {
    seq(|index|, i requires 0 <= i < |index| => index[i].handle)
  }
}
