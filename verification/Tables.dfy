/** Building a table file: data blocks, an index key between each block and the next, and a footer
    (table/table_builder.cc).  Blocks are not compressed, and there is no filter policy. */
module Tables {
  import opened Format
  import opened Coding
  import opened LogFormat
  import opened BlockFormat
  import opened Separators
  import opened KeyRanks
  import opened TwoLevel
  import opened TableFormat

  ghost function Concat(blocks: seq<seq<Row>>): seq<Row> {
    if blocks == [] then [] else Concat(blocks[..|blocks| - 1]) + blocks[|blocks| - 1]
  }

  /** The index so far stands between the blocks it covers, and before everything that follows. */
  ghost predicate Between(index: seq<IndexEntry>, blocks: seq<seq<Row>>, rest: seq<Row>) {
    && |index| <= |blocks|
    && (forall i, k :: 0 <= i < |index| && 0 <= k < |blocks[i]| ==> !KeyLess(index[i].key, blocks[i][k].key))
    && (forall i, j, k :: 0 <= i < |index| && i < j < |blocks| && 0 <= k < |blocks[j]| ==> KeyLess(index[i].key, blocks[j][k].key))
    && (forall i, k :: 0 <= i < |index| && 0 <= k < |rest| ==> KeyLess(index[i].key, rest[k].key))
    && (forall i, j :: 0 <= i < j < |index| ==> KeyLess(index[i].key, index[j].key))
  }

  /** What a row takes up in the index block at most, if its block ends with it. */
  ghost function RoomOf(rows: seq<Row>): nat {
    if rows == [] then 0 else RoomOf(rows[..|rows| - 1]) + |rows[|rows| - 1].key.user| + 47
  }

  lemma {:induction false} RoomCounts(rows: seq<Row>)
    ensures 47 * |rows| <= RoomOf(rows)
    decreases |rows|
  {
    if rows != [] {
      RoomCounts(rows[..|rows| - 1]);
    }
  }

  /** A block that this row ends stays below 4 GiB. */
  ghost predicate Small(row: Row, blockSize: nat) {
    row.key.tag < TWO_TO_64 && blockSize + |row.key.user| + |row.value| + 64 < TWO_TO_32
  }

  ghost predicate AllSmall(rows: seq<Row>, blockSize: nat) {
    forall i :: 0 <= i < |rows| ==> Small(rows[i], blockSize)
  }

  ghost predicate TagsFit(index: seq<IndexEntry>) {
    forall i :: 0 <= i < |index| ==> index[i].key.tag < TWO_TO_64
  }

  ghost predicate Filled(block: BlockBuilder, es: seq<Pair>)
    reads block
  {
    block.Valid() && !block.finished && block.entries == es && block.rank == RANK && block.interval >= 1
  }

  /** The bytes of a block builder, with its restart points. */
  ghost function Use(block: BlockBuilder): nat
    reads block
  {
    |block.buffer| + 4 * |block.restarts|
  }

  /** What the two block builders hold, and the blocks written. */
  datatype Parts = Parts(rows: seq<Row>, index: seq<IndexEntry>, blocks: seq<seq<Row>>, handles: seq<BlockHandle>) {
    /** Every row added so far. */
    ghost function Added(): seq<Row> {
      Concat(blocks) + rows
    }
  }

  ghost predicate Ordered(s: Parts, pending: bool, lastKey: InternalKey) {
    && Between(s.index, s.blocks, s.rows) && Named(s.index, s.handles) && NoneEmpty(s.blocks) && Ascends(s.Added())
    && |s.handles| == |s.blocks| == |s.index| + (if pending then 1 else 0)
    && (pending ==> s.rows == []) && (s.Added() != [] ==> lastKey == s.Added()[|s.Added()| - 1].key)
  }

  /** The data block is not over the limit, and the index block has room for what is to come. */
  ghost predicate Roomy(s: Parts, pending: bool, lastKey: InternalKey, dataUse: nat, indexUse: nat, limit: nat, blockSize: nat) {
    && dataUse <= limit && RoomOf(s.Added()) + 4 < TWO_TO_32
    && indexUse + (if pending || s.rows != [] then |lastKey.user| + 47 else 0) <= RoomOf(s.Added()) + 4
    && AllSmall(s.Added(), blockSize) && TagsFit(s.index)
  }

  class TableBuilder {
    const blockSize: nat
    const interval: nat
    const dataBlock: BlockBuilder
    const indexBlock: BlockBuilder

    var file: seq<byte>
    var offset: nat
    var lastKey: InternalKey
    var numEntries: nat
    var closed: bool
    var pendingIndexEntry: bool
    var pendingHandle: BlockHandle
    ghost var parts: Parts

    ghost predicate Held(limit: nat)
      reads this, dataBlock, indexBlock
    {
      && interval >= 1 && dataBlock != indexBlock && numEntries == |parts.Added()|
      && Ordered(parts, pendingIndexEntry, lastKey)
      && Roomy(parts, pendingIndexEntry, lastKey, Use(dataBlock), Use(indexBlock), limit, blockSize)
      && Filled(dataBlock, Pairs(parts.rows)) && Filled(indexBlock, IndexPairs(parts.index))
      && (pendingIndexEntry ==> parts.handles != [] && pendingHandle == parts.handles[|parts.handles| - 1])
    }

    ghost predicate Laid()
      reads this
    {
      Stored(file, parts.handles, parts.blocks) && offset == |file| <= |parts.blocks| * (TWO_TO_32 + BLOCK_TRAILER_SIZE)
    }

    ghost predicate Core(limit: nat)
      reads this, dataBlock, indexBlock
    {
      !closed && Held(limit) && Laid() && (!pendingIndexEntry && parts.blocks != [] ==> parts.rows != [])
    }

    /** A fresh index entry is followed by a row, and the data block is below its size. */
    ghost predicate Inv()
      reads this, dataBlock, indexBlock
    {
      Core(blockSize + 4)
    }

    constructor (blockSize: nat, interval: nat)
      requires interval >= 1
      ensures Inv() && parts.Added() == [] && this.blockSize == blockSize && fresh(dataBlock) && fresh(indexBlock)
    {
      hide BlockBuilder.Valid, Ordered, Roomy, Stored, Pairs, IndexPairs, RANK, Concat;
      StartsHeld(blockSize);
      this.blockSize, this.interval := blockSize, interval;
      dataBlock := new BlockBuilder(interval, RANK);
      indexBlock := new BlockBuilder(1, RANK);
      file, offset, numEntries, closed, pendingIndexEntry := [], 0, 0, false, false;
      lastKey, pendingHandle := InternalKey([], 0), BlockHandle(0, 0);
      parts := Parts([], [], [], []);
    }

    /** WriteRawBlock. */
    method WriteRawBlock(block: seq<byte>) returns (h: BlockHandle)
      requires offset == |file|
      modifies `file, `offset
      ensures h == BlockHandle(old(offset), |block|) && file == old(file) + Sealed(block) && offset == |file|
    {
      hide Extend, Mask, EncodeFixed32;
      h := BlockHandle(offset, |block|);
      file := file + block;
      var crc := Crc(block);
      crc := Extend(crc, [0]);
      ExtendConcat(0, block, [0]);
      file := file + [0] + EncodeFixed32(Mask(crc) as nat);
      offset := offset + |block| + BLOCK_TRAILER_SIZE;
    }

    /** WriteBlock: the block goes to the file, and its builder starts anew. */
    method WriteBlock(block: BlockBuilder, ghost es: seq<Pair>) returns (h: BlockHandle)
      requires Filled(block, es) && Use(block) < TWO_TO_32 && offset == |file|
      modifies `file, `offset, block
      ensures Filled(block, []) && Use(block) == 4
      ensures HasBlock(file, h, es) && h == BlockHandle(old(offset), old(Use(block)) + 4)
      ensures old(file) <= file && offset == |file| == |old(file)| + h.size + BLOCK_TRAILER_SIZE
    {
      hide RestartsOk, Fits, Increasing, BlockBytes, Sealed, BlockBuilder.Valid, RANK, BlockAt;
      ghost var restartAt := block.restartAt;
      BuilderFacts(block, es);
      var raw := block.Finish();
      h := WriteRawBlock(raw);
      block.Reset();
      AppendedBlock(old(file), raw, h, es, restartAt);
    }

    /** The index entry of the last block, under a key at or after it. */
    method AddIndexEntry(key: InternalKey)
      requires Held(blockSize + 4) && pendingIndexEntry && numEntries > 0 && HandleFits(pendingHandle)
      requires (key == lastKey || KeyLess(lastKey, key)) && |key.user| <= |lastKey.user| && (key.tag == lastKey.tag || key.tag == SEEK_TAG)
      modifies `parts, `pendingIndexEntry, indexBlock
      ensures Held(blockSize + 4) && !pendingIndexEntry && parts.index != [] && parts.index[|parts.index| - 1].key == key
      ensures parts.(index := []) == old(parts).(index := [])
    {
      hide Ordered, Roomy, KeyLess, KeyBytes, HandleBytes, IndexPairs, Pairs, Filled, Use, RANK, Parts.Added, HandleFits;
      ghost var e, before := IndexEntry(key, pendingHandle), Use(indexBlock);
      IndexEntryFits(parts, lastKey, e, Use(dataBlock), Use(indexBlock), blockSize);
      var encoding := EncodeHandle(pendingHandle);
      AddPair(indexBlock, IndexPairs(parts.index), KeyBytes(key), encoding);
      IndexEntryAdded(parts, lastKey, e, Use(dataBlock), before, Use(indexBlock), blockSize);
      parts := parts.(index := parts.index + [e]);
      pendingIndexEntry := false;
    }

    /** The row goes to the data block. */
    method PutRow(row: Row) returns (full: bool)
      requires Held(blockSize + 4) && Laid() && !closed && !pendingIndexEntry
      requires Small(row, blockSize) && RoomOf(parts.Added() + [row]) + 4 < TWO_TO_32
      requires Between(parts.index, parts.blocks, parts.rows + [row]) && (numEntries > 0 ==> KeyLess(lastKey, row.key))
      modifies `lastKey, `numEntries, `parts, dataBlock
      ensures Core(TWO_TO_32 - 5) && !pendingIndexEntry && parts == old(parts).(rows := old(parts).rows + [row])
      ensures parts.Added() == old(parts).Added() + [row]
      ensures full <==> Use(dataBlock) + 4 >= blockSize
    {
      hide Ordered, Roomy, KeyLess, KeyBytes, Stored, Between, Concat, RoomOf, Filled, Use, RANK, Pairs, IndexPairs, Parts.Added, BlockBuilder.Valid, BlockBuilder.CurrentSizeEstimate;
      RowFits(parts, lastKey, row, Use(dataBlock), Use(indexBlock), blockSize);
      ghost var before := Use(dataBlock);
      AddPair(dataBlock, Pairs(parts.rows), KeyBytes(row.key), row.value);
      RowPut(parts, lastKey, row, before, Use(dataBlock), Use(indexBlock), blockSize);
      lastKey := row.key;
      numEntries := numEntries + 1;
      parts := parts.(rows := parts.rows + [row]);
      EstimateIs(dataBlock, Pairs(parts.rows));
      full := dataBlock.CurrentSizeEstimate() >= blockSize;
    }

    method Add(row: Row)
      requires Inv() && (numEntries > 0 ==> KeyLess(lastKey, row.key))
      requires Small(row, blockSize) && RoomOf(parts.Added() + [row]) + 4 < TWO_TO_32
      modifies this, dataBlock, indexBlock
      ensures Inv() && parts.Added() == old(parts.Added()) + [row]
    {
      hide KeyLess, Ordered, Roomy, Stored, Between, Concat, RoomOf, Pairs, IndexPairs, Filled, Use, HandleFits;
      if pendingIndexEntry {
        PendingFacts(parts, lastKey, file);
        var sep := FindKeySeparator(lastKey, row.key);
        AddIndexEntry(sep);
        PutAfterIndex(parts, lastKey, row);
      } else {
        PutAfterRows(parts, lastKey, row);
      }
      var full := PutRow(row);
      if full {
        Flush(TWO_TO_32 - 5);
      } else {
        LimitIs(parts, pendingIndexEntry, lastKey, Use(dataBlock), Use(indexBlock), TWO_TO_32 - 5, blockSize);
      }
    }

    method Flush(ghost limit: nat)
      requires Core(limit) && (parts.rows != [] ==> limit + 4 < TWO_TO_32)
      modifies this, dataBlock
      ensures Inv() && parts.Added() == old(parts.Added()) && parts.rows == [] && lastKey == old(lastKey) && numEntries == old(numEntries)
      ensures !pendingIndexEntry ==> parts.blocks == []
    {
      hide KeyLess, Ordered, Roomy, Stored, Concat, HasBlock, Pairs, IndexPairs, Filled, Use, BlockBuilder.Empty, BlockBuilder.Valid, BlockBuilder.CurrentSizeEstimate, Parts.Added;
      EstimateIs(dataBlock, Pairs(parts.rows));
      if dataBlock.Empty() {
        LimitIs(parts, pendingIndexEntry, lastKey, Use(dataBlock), Use(indexBlock), limit, blockSize);
        return;
      }
      UseFits(parts, pendingIndexEntry, lastKey, Use(dataBlock), Use(indexBlock), limit, blockSize);
      ghost var before, dataUse := file, Use(dataBlock);
      pendingHandle := WriteBlock(dataBlock, Pairs(parts.rows));
      RowsFlushed(parts, lastKey, pendingHandle, before, file, dataUse, Use(indexBlock), limit, blockSize);
      parts := Parts([], parts.index, parts.blocks + [parts.rows], parts.handles + [pendingHandle]);
      pendingIndexEntry := true;
    }

    /** Finish: the file is a table of the rows added. */
    method Finish()
      requires Inv()
      modifies this, dataBlock, indexBlock
      ensures closed && IsTable(file, parts.index, parts.blocks) && Between(parts.index, parts.blocks, []) && TagsFit(parts.index)
      ensures Concat(parts.blocks) == old(parts.Added()) && Ascends(Concat(parts.blocks)) && AllSmall(Concat(parts.blocks), blockSize)
    {
      hide KeyLess, Filled, Use, Ordered, Roomy, Stored, Concat, Pairs, IndexPairs, IsTable, Between, Ascends, AllSmall, TagsFit, Named, Parts.Added;
      if parts.rows != [] {
        RowsLeaveRoom(parts, pendingIndexEntry, lastKey, Use(dataBlock), Use(indexBlock), blockSize + 4, blockSize);
      }
      Flush(blockSize + 4);
      RoomForOffsets(parts, pendingIndexEntry, lastKey, Use(dataBlock), Use(indexBlock), blockSize, |file|);
      closed := true;
      var metaindexHandle := WriteMetaindex();
      IndexLast();
      WriteIndex(metaindexHandle);
    }

    /** The metaindex block, which is empty. */
    method WriteMetaindex() returns (h: BlockHandle)
      requires offset == |file| && |file| + 100 < TWO_TO_64 && interval >= 1 && Stored(file, parts.handles, parts.blocks)
      modifies `file, `offset
      ensures offset == |file| < TWO_TO_64 && HandleFits(h) && Stored(file, parts.handles, parts.blocks)
    {
      hide Stored, HasBlock, BlockBuilder.Valid, RANK;
      ghost var before := file;
      var metaBlock := new BlockBuilder(interval, RANK);
      h := WriteBlock(metaBlock, []);
      StoredStays(before, file[|before|..], parts.handles, parts.blocks);
      assert before + file[|before|..] == file;
    }

    /** The index entry of the last block, if there is one. */
    method IndexLast()
      requires Held(blockSize + 4) && parts.rows == [] && Stored(file, parts.handles, parts.blocks)
      modifies `parts, `pendingIndexEntry, `lastKey, indexBlock
      ensures !pendingIndexEntry && parts.(index := []) == old(parts).(index := [])
      ensures Filled(indexBlock, IndexPairs(parts.index)) && Use(indexBlock) < TWO_TO_32
      ensures Named(parts.index, parts.handles) && |parts.index| == |parts.handles| && Between(parts.index, parts.blocks, []) && TagsFit(parts.index)
      ensures Concat(parts.blocks) == old(parts.Added()) && Ascends(Concat(parts.blocks)) && AllSmall(Concat(parts.blocks), blockSize)
    {
      hide KeyLess, Filled, Use, Ordered, Roomy, Stored, Concat, Pairs, IndexPairs, Between, Ascends, AllSmall, TagsFit, Named, HandleFits;
      if pendingIndexEntry {
        PendingFacts(parts, lastKey, file);
        var succ := FindKeySuccessor(lastKey);
        AddIndexEntry(succ);
        TableHolds(parts, lastKey, Use(dataBlock), Use(indexBlock), blockSize);
        lastKey := succ;
      } else {
        TableHolds(parts, lastKey, Use(dataBlock), Use(indexBlock), blockSize);
      }
    }

    /** The index block and the footer. */
    method WriteIndex(metaindexHandle: BlockHandle)
      requires Filled(indexBlock, IndexPairs(parts.index)) && Use(indexBlock) < TWO_TO_32
      requires Stored(file, parts.handles, parts.blocks) && Named(parts.index, parts.handles) && |parts.index| == |parts.handles|
      requires offset == |file| < TWO_TO_64 && HandleFits(metaindexHandle)
      modifies `file, `offset, indexBlock
      ensures IsTable(file, parts.index, parts.blocks)
    {
      hide Stored, HasBlock, IndexPairs, FooterBytes, Filled, Use, Named;
      ghost var before, es := file, IndexPairs(parts.index);
      var indexHandle := WriteBlock(indexBlock, es);
      StoredStays(before, file[|before|..], parts.handles, parts.blocks);
      assert before + file[|before|..] == file;
      before := file;
      file := file + FooterBytes(metaindexHandle, indexHandle);
      offset := offset + FOOTER_SIZE;
      FooterMakesTable(before, metaindexHandle, indexHandle, parts);
    }
  }

  // ----- the builder, step by step

  lemma StartsHeld(blockSize: nat)
    ensures var s := Parts([], [], [], []);
      && s.Added() == [] && Ordered(s, false, InternalKey([], 0)) && Roomy(s, false, InternalKey([], 0), 4, 4, blockSize + 4, blockSize)
    ensures Stored([], [], []) && Pairs([]) == [] && IndexPairs([]) == []
  {
    hide KeyLess, HasBlock, KeyBytes, HandleBytes;
  }

  lemma BuilderFacts(block: BlockBuilder, es: seq<Pair>)
    requires Filled(block, es) && Use(block) < TWO_TO_32
    ensures RestartsOk(es, block.restartAt) && Fits(es, block.restartAt) && Increasing(RANK, es)
    ensures |BlockBytes(es, block.restartAt)| == Use(block) + 4
  {
    hide Data, Increasing, Sized, RANK;
    assert Fits(es, block.restartAt);
    var size := block.CurrentSizeEstimate();
  }

  lemma EstimateIs(block: BlockBuilder, es: seq<Pair>)
    requires Filled(block, es)
    ensures block.Valid() && block.CurrentSizeEstimate() == Use(block) + 4
    ensures (block.Empty() <==> es == []) && (es == [] ==> Use(block) == 4)
  {
    hide Increasing, Sized, RANK;
    assert |block.restartAt| > 1 ==> block.restartAt[1] < |es|;
  }

  method AddPair(block: BlockBuilder, ghost es: seq<Pair>, key: seq<byte>, value: seq<byte>)
    requires Filled(block, es) && |key| < TWO_TO_32 && |value| < TWO_TO_32
    requires es != [] ==> RANK(es[|es| - 1].key) < RANK(key)
    modifies block
    ensures Filled(block, es + [Pair(key, value)]) && Use(block) <= old(Use(block)) + 19 + |key| + |value|
  {
    hide Data, Increasing, Sized, RANK, RestartsOk, Points;
    block.Add(key, value);
  }

  lemma AppendedBlock(file: seq<byte>, raw: seq<byte>, h: BlockHandle, es: seq<Pair>, restartAt: seq<nat>)
    requires RestartsOk(es, restartAt) && Fits(es, restartAt) && Increasing(RANK, es) && raw == BlockBytes(es, restartAt)
    requires h == BlockHandle(|file|, |raw|)
    ensures HasBlock(file + Sealed(raw), h, es)
  {
    hide RestartsOk, Fits, Increasing, BlockBytes, Sealed, RANK;
    assert BlockAt(file + Sealed(raw), h, es, restartAt);
  }

  /** The last key of the index, and of everything added. */
  lemma LastKeyFits(s: Parts, pending: bool, lastKey: InternalKey, dataUse: nat, indexUse: nat, limit: nat, blockSize: nat)
    requires Ordered(s, pending, lastKey) && Roomy(s, pending, lastKey, dataUse, indexUse, limit, blockSize) && s.Added() != []
    ensures lastKey.tag < TWO_TO_64 && |lastKey.user| + 64 < TWO_TO_32
  {
    hide Between, Ascends, Concat, KeyLess, Named, NoneEmpty, RoomOf;
    assert Small(s.Added()[|s.Added()| - 1], blockSize);
  }

  lemma IndexKeyOrder(s: Parts, lastKey: InternalKey, e: IndexEntry)
    requires Ordered(s, true, lastKey) && s.Added() != [] && (e.key == lastKey || KeyLess(lastKey, e.key))
    ensures s.index != [] ==> KeyLess(s.index[|s.index| - 1].key, e.key)
    ensures Between(s.index + [e], s.blocks, [])
  {
    hide KeyLess, Concat, NoneEmpty, Ascends;
    assert s.Added() == Concat(s.blocks);
    IndexGrows(s.index, s.blocks, lastKey, e);
    var n := |s.index|;
    assert (s.index + [e])[n] == e && (n > 0 ==> (s.index + [e])[n - 1] == s.index[n - 1]);
  }

  lemma IndexEntryFits(s: Parts, lastKey: InternalKey, e: IndexEntry, dataUse: nat, indexUse: nat, blockSize: nat)
    requires Ordered(s, true, lastKey) && Roomy(s, true, lastKey, dataUse, indexUse, blockSize + 4, blockSize) && s.Added() != []
    requires HandleFits(e.handle) && (e.key == lastKey || KeyLess(lastKey, e.key))
    requires |e.key.user| <= |lastKey.user| && (e.key.tag == lastKey.tag || e.key.tag == SEEK_TAG)
    ensures var es := IndexPairs(s.index); es != [] ==> RANK(es[|es| - 1].key) < RANK(KeyBytes(e.key))
    ensures |KeyBytes(e.key)| == |e.key.user| + 8 < TWO_TO_32 && |HandleBytes(e.handle)| <= MAX_HANDLE
  {
    hide *;
    LastKeyFits(s, true, lastKey, dataUse, indexUse, blockSize + 4, blockSize);
    IndexTags(s, lastKey, dataUse, indexUse, blockSize);
    KeyReads(e.key);
    HandleSize(e.handle);
    IndexKeyOrder(s, lastKey, e);
    if s.index != [] {
      BytesRank(s.index[|s.index| - 1].key, e.key);
    }
  }

  lemma IndexTags(s: Parts, lastKey: InternalKey, dataUse: nat, indexUse: nat, blockSize: nat)
    requires Roomy(s, true, lastKey, dataUse, indexUse, blockSize + 4, blockSize)
    ensures s.index != [] ==> s.index[|s.index| - 1].key.tag < TWO_TO_64
    ensures SEEK_TAG < TWO_TO_64
  {
  }

  lemma IndexEntryAdded(s: Parts, lastKey: InternalKey, e: IndexEntry, dataUse: nat, before: nat, after: nat, blockSize: nat)
    requires Ordered(s, true, lastKey) && Roomy(s, true, lastKey, dataUse, before, blockSize + 4, blockSize) && s.Added() != []
    requires (e.key == lastKey || KeyLess(lastKey, e.key)) && s.handles != [] && e.handle == s.handles[|s.handles| - 1]
    requires |e.key.user| <= |lastKey.user| && (e.key.tag == lastKey.tag || e.key.tag == SEEK_TAG)
    requires after <= before + |e.key.user| + 47
    ensures var s' := s.(index := s.index + [e]); s'.Added() == s.Added() && Ordered(s', false, lastKey) && Roomy(s', false, lastKey, dataUse, after, blockSize + 4, blockSize)
    ensures IndexPairs(s.index + [e]) == IndexPairs(s.index) + [Pair(KeyBytes(e.key), HandleBytes(e.handle))]
  {
    hide KeyLess, KeyBytes, HandleBytes, Concat, NoneEmpty, Ascends, AllSmall, RoomOf, Between;
    LastKeyFits(s, true, lastKey, dataUse, before, blockSize + 4, blockSize);
    IndexKeyOrder(s, lastKey, e);
    IndexPairsMore(s.index, e);
  }

  lemma RowFits(s: Parts, lastKey: InternalKey, row: Row, dataUse: nat, indexUse: nat, blockSize: nat)
    requires Ordered(s, false, lastKey) && Roomy(s, false, lastKey, dataUse, indexUse, blockSize + 4, blockSize) && Small(row, blockSize)
    requires s.Added() != [] ==> KeyLess(lastKey, row.key)
    ensures var es := Pairs(s.rows); es != [] ==> RANK(es[|es| - 1].key) < RANK(KeyBytes(row.key))
    ensures |KeyBytes(row.key)| == |row.key.user| + 8
  {
    hide KeyLess, KeyBytes, RankOf, RANK, Concat, NoneEmpty, Ascends, AllSmall, RoomOf, Between;
    KeyReads(row.key);
    if s.rows != [] {
      LastKeyFits(s, false, lastKey, dataUse, indexUse, blockSize + 4, blockSize);
      assert lastKey == s.rows[|s.rows| - 1].key;
      BytesRank(lastKey, row.key);
    }
  }

  lemma RowPut(s: Parts, lastKey: InternalKey, row: Row, before: nat, after: nat, indexUse: nat, blockSize: nat)
    requires Ordered(s, false, lastKey) && Roomy(s, false, lastKey, before, indexUse, blockSize + 4, blockSize)
    requires Small(row, blockSize) && RoomOf(s.Added() + [row]) + 4 < TWO_TO_32
    requires Between(s.index, s.blocks, s.rows + [row]) && (s.Added() != [] ==> KeyLess(lastKey, row.key))
    requires after <= before + |row.key.user| + |row.value| + 27
    ensures var s' := s.(rows := s.rows + [row]);
      s'.Added() == s.Added() + [row] && Ordered(s', false, row.key) && Roomy(s', false, row.key, after, indexUse, TWO_TO_32 - 5, blockSize)
    ensures Pairs(s.rows + [row]) == Pairs(s.rows) + [Pair(KeyBytes(row.key), row.value)]
  {
    hide KeyLess, KeyBytes, Concat, NoneEmpty, Ascends, Between, Named, RoomOf, TagsFit;
    RowAdded(Concat(s.blocks), s.rows, row);
    RoomMore(s.Added(), row);
    PairsMore(s.rows, row);
  }

  lemma RoomMore(rows: seq<Row>, row: Row)
    ensures RoomOf(rows + [row]) == RoomOf(rows) + |row.key.user| + 47
  {
    assert (rows + [row])[..|rows|] == rows;
  }

  lemma PendingFacts(s: Parts, lastKey: InternalKey, file: seq<byte>)
    requires Ordered(s, true, lastKey) && Stored(file, s.handles, s.blocks)
    ensures s.rows == [] && s.Added() != [] && s.handles != [] && HandleFits(s.handles[|s.handles| - 1])
  {
    hide Between, Ascends, KeyLess, Named, HasBlock;
    SomeAdded(s.blocks, s.rows);
  }

  lemma PutAfterIndex(s: Parts, lastKey: InternalKey, row: Row)
    requires Ordered(s, false, lastKey) && s.rows == [] && s.index != [] && KeyLess(s.index[|s.index| - 1].key, row.key)
    ensures Between(s.index, s.blocks, s.rows + [row])
  {
    hide Between, Ascends, KeyLess, Named, Concat;
    RowAfterIndex(s.index, s.blocks, row);
  }

  lemma PutAfterRows(s: Parts, lastKey: InternalKey, row: Row)
    requires Ordered(s, false, lastKey) && (s.blocks != [] ==> s.rows != []) && (s.Added() != [] ==> KeyLess(lastKey, row.key))
    ensures Between(s.index, s.blocks, s.rows + [row])
  {
    hide Between, Ascends, KeyLess, Named, Concat;
    RowAfterRows(s.index, s.blocks, s.rows, row);
  }

  lemma LimitIs(s: Parts, pending: bool, lastKey: InternalKey, dataUse: nat, indexUse: nat, limit: nat, blockSize: nat)
    requires Roomy(s, pending, lastKey, dataUse, indexUse, limit, blockSize) && dataUse <= blockSize + 4
    ensures Roomy(s, pending, lastKey, dataUse, indexUse, blockSize + 4, blockSize)
  {
  }

  lemma RowsLeaveRoom(s: Parts, pending: bool, lastKey: InternalKey, dataUse: nat, indexUse: nat, limit: nat, blockSize: nat)
    requires Roomy(s, pending, lastKey, dataUse, indexUse, limit, blockSize) && s.rows != []
    ensures blockSize + 64 < TWO_TO_32
  {
    assert Small(s.Added()[|s.Added()| - 1], blockSize);
  }

  lemma UseFits(s: Parts, pending: bool, lastKey: InternalKey, dataUse: nat, indexUse: nat, limit: nat, blockSize: nat)
    requires Roomy(s, pending, lastKey, dataUse, indexUse, limit, blockSize) && Ordered(s, pending, lastKey)
    ensures dataUse <= limit && indexUse < TWO_TO_32 && (s.rows != [] ==> !pending)
  {
  }

  lemma RowsFlushed(s: Parts, lastKey: InternalKey, h: BlockHandle, file: seq<byte>, file': seq<byte>, dataUse: nat, indexUse: nat, limit: nat, blockSize: nat)
    requires Ordered(s, false, lastKey) && s.rows != [] && Roomy(s, false, lastKey, dataUse, indexUse, limit, blockSize)
    requires Stored(file, s.handles, s.blocks) && |file| <= |s.blocks| * (TWO_TO_32 + BLOCK_TRAILER_SIZE)
    requires h.offset == |file| && h.size < TWO_TO_32 && file <= file' && |file'| > |file| && HasBlock(file', h, Pairs(s.rows))
    ensures var s' := Parts([], s.index, s.blocks + [s.rows], s.handles + [h]);
      && s'.Added() == s.Added() && Ordered(s', true, lastKey) && Roomy(s', true, lastKey, 4, indexUse, blockSize + 4, blockSize)
      && Stored(file', s'.handles, s'.blocks)
  {
    hide KeyLess, Stored, Concat, HasBlock, Pairs, Between, Named, NoneEmpty, Ascends, RoomOf, TagsFit, AllSmall;
    OffsetFits(s.blocks, s.rows);
    assert file' == file + file'[|file|..];
    StoredMore(file, file'[|file|..], s.handles, s.blocks, h, s.rows);
    BlockFollows(s.index, s.blocks, s.rows);
    StillNamed(s.index, s.handles, h, s.blocks, s.rows);
    assert Parts([], s.index, s.blocks + [s.rows], s.handles + [h]).Added() == Concat(s.blocks + [s.rows]);
  }

  /** No block is empty, so there are few. */
  lemma {:induction false} BlocksCount(blocks: seq<seq<Row>>)
    requires NoneEmpty(blocks)
    ensures |blocks| <= |Concat(blocks)|
    decreases |blocks|
  {
    if blocks != [] {
      BlocksCount(blocks[..|blocks| - 1]);
    }
  }

  lemma OffsetFits(blocks: seq<seq<Row>>, rows: seq<Row>)
    requires NoneEmpty(blocks) && RoomOf(Concat(blocks) + rows) < TWO_TO_32
    ensures (|blocks| + 3) * (TWO_TO_32 + BLOCK_TRAILER_SIZE) < TWO_TO_64
  {
    BlocksCount(blocks);
    RoomCounts(Concat(blocks) + rows);
  }

  lemma FooterMakesTable(file: seq<byte>, metaindex: BlockHandle, indexHandle: BlockHandle, s: Parts)
    requires Stored(file, s.handles, s.blocks) && Named(s.index, s.handles) && |s.index| == |s.handles|
    requires HandleFits(metaindex) && HandleFits(indexHandle) && HasBlock(file, indexHandle, IndexPairs(s.index))
    ensures IsTable(file + FooterBytes(metaindex, indexHandle), s.index, s.blocks)
  {
    hide Stored, HasBlock, FooterBytes, IndexPairs;
    var footer := FooterBytes(metaindex, indexHandle);
    assert s.handles == Handles(s.index);
    StoredStays(file, footer, s.handles, s.blocks);
    BlockStays(file, footer, indexHandle, IndexPairs(s.index));
    assert Footed(file + footer, metaindex, indexHandle);
    assert |s.handles| == |s.blocks| by {
      StoredLengths(file, s.handles, s.blocks);
    }
  }

  lemma StoredLengths(file: seq<byte>, handles: seq<BlockHandle>, blocks: seq<seq<Row>>)
    requires Stored(file, handles, blocks)
    ensures |handles| == |blocks|
  {
  }

  lemma RoomForOffsets(s: Parts, pending: bool, lastKey: InternalKey, dataUse: nat, indexUse: nat, blockSize: nat, size: nat)
    requires Ordered(s, pending, lastKey) && Roomy(s, pending, lastKey, dataUse, indexUse, blockSize + 4, blockSize)
    requires size <= |s.blocks| * (TWO_TO_32 + BLOCK_TRAILER_SIZE)
    ensures size + 100 < TWO_TO_64
  {
    hide Between, Ascends, Named, RoomOf, Concat, AllSmall, TagsFit;
    OffsetFits(s.blocks, s.rows);
  }

  lemma TableHolds(s: Parts, lastKey: InternalKey, dataUse: nat, indexUse: nat, blockSize: nat)
    requires Ordered(s, false, lastKey) && Roomy(s, false, lastKey, dataUse, indexUse, blockSize + 4, blockSize) && s.rows == []
    ensures Between(s.index, s.blocks, []) && TagsFit(s.index) && Named(s.index, s.handles) && |s.index| == |s.handles| && indexUse < TWO_TO_32
    ensures Concat(s.blocks) == s.Added() && Ascends(Concat(s.blocks)) && AllSmall(Concat(s.blocks), blockSize)
  {
    hide Between, Ascends, Named, RoomOf, Concat, AllSmall, TagsFit;
    assert s.Added() == Concat(s.blocks);
  }

  ghost predicate Named(index: seq<IndexEntry>, handles: seq<BlockHandle>) {
    |index| <= |handles| && forall i :: 0 <= i < |index| ==> index[i].handle == handles[i]
  }

  ghost predicate NoneEmpty(blocks: seq<seq<Row>>) {
    forall i :: 0 <= i < |blocks| ==> blocks[i] != []
  }

  lemma StillNamed(index: seq<IndexEntry>, handles: seq<BlockHandle>, h: BlockHandle, blocks: seq<seq<Row>>, rows: seq<Row>)
    requires Named(index, handles) && NoneEmpty(blocks) && rows != []
    ensures Named(index, handles + [h]) && NoneEmpty(blocks + [rows])
  {
  }

  lemma SomeAdded(blocks: seq<seq<Row>>, rest: seq<Row>)
    requires NoneEmpty(blocks)
    ensures blocks != [] || rest != [] <==> |Concat(blocks) + rest| > 0
  {
  }

  /** The rows of the last block are the last rows. */
  lemma LastRows(blocks: seq<seq<Row>>, k: nat)
    requires blocks != [] && k < |blocks[|blocks| - 1]|
    ensures var last := blocks[|blocks| - 1]; |last| <= |Concat(blocks)| && Concat(blocks)[|Concat(blocks)| - |last| + k] == last[k]
  {
  }

  lemma IndexGrows(index: seq<IndexEntry>, blocks: seq<seq<Row>>, last: InternalKey, entry: IndexEntry)
    requires Between(index, blocks, []) && NoneEmpty(blocks) && |blocks| == |index| + 1
    requires Ascends(Concat(blocks)) && Concat(blocks) != [] && last == Concat(blocks)[|Concat(blocks)| - 1].key
    requires entry.key == last || KeyLess(last, entry.key)
    ensures Between(index + [entry], blocks, [])
  {
    hide KeyLess, Concat;
    var n := |index|;
    forall k | 0 <= k < |blocks[n]| ensures blocks[n][k].key == last || KeyLess(blocks[n][k].key, last) {
      LastRows(blocks, k);
    }
    forall k | 0 <= k < |blocks[n]| ensures !KeyLess(entry.key, blocks[n][k].key) {
      KeyTotal(last, blocks[n][k].key);
      KeyTotal(last, entry.key);
      NotBefore(last, entry.key, blocks[n][k].key);
    }
    forall i | 0 <= i < n ensures KeyLess(index[i].key, entry.key) {
      var first := blocks[n][0].key;
      assert KeyLess(index[i].key, first);
      NotBefore(index[i].key, first, entry.key);
    }
  }

  lemma RowAfterIndex(index: seq<IndexEntry>, blocks: seq<seq<Row>>, row: Row)
    requires Between(index, blocks, []) && index != [] && KeyLess(index[|index| - 1].key, row.key)
    ensures Between(index, blocks, [] + [row])
  {
    hide KeyLess;
    forall i | 0 <= i < |index| ensures KeyLess(index[i].key, row.key) {
      if i < |index| - 1 {
        KeyTrans(index[i].key, index[|index| - 1].key, row.key);
      }
    }
  }

  lemma RowAfterRows(index: seq<IndexEntry>, blocks: seq<seq<Row>>, rest: seq<Row>, row: Row)
    requires Between(index, blocks, rest) && |index| == |blocks| && (blocks != [] ==> rest != [])
    requires Ascends(Concat(blocks) + rest) && (rest != [] ==> KeyLess(rest[|rest| - 1].key, row.key))
    ensures Between(index, blocks, rest + [row])
  {
    hide KeyLess;
    forall i | 0 <= i < |index| ensures KeyLess(index[i].key, row.key) {
      KeyTrans(index[i].key, rest[|rest| - 1].key, row.key);
    }
  }

  lemma RowAdded(before: seq<Row>, rest: seq<Row>, row: Row)
    requires Ascends(before + rest) && (before + rest != [] ==> KeyLess((before + rest)[|before + rest| - 1].key, row.key))
    ensures Ascends(before + (rest + [row])) && before + (rest + [row]) == before + rest + [row]
  {
    hide KeyLess;
    var all := before + rest;
    assert before + (rest + [row]) == all + [row];
    forall i | 0 <= i < |all| ensures KeyLess(all[i].key, row.key) {
      if i < |all| - 1 {
        KeyTrans(all[i].key, all[|all| - 1].key, row.key);
      }
    }
  }

  lemma BlockFollows(index: seq<IndexEntry>, blocks: seq<seq<Row>>, rows: seq<Row>)
    requires Between(index, blocks, rows) && |index| == |blocks|
    ensures Between(index, blocks + [rows], []) && Concat(blocks + [rows]) == Concat(blocks) + rows
  {
    hide KeyLess;
    assert Concat(blocks + [rows]) == Concat(blocks) + rows by {
      assert (blocks + [rows])[..|blocks|] == blocks;
    }
    hide Concat;
    var more: seq<seq<Row>> := blocks + [rows];
    forall i: nat, j: nat, k: nat | i < |index| && i < j < |more| && k < |more[j]| ensures KeyLess(index[i].key, more[j][k].key) {
      assert more[j] == if j < |blocks| then blocks[j] else rows;
    }
  }

  /** The place of a block's rows among all the rows. */
  lemma {:induction false} BlockAscends(blocks: seq<seq<Row>>, i: nat)
    requires Ascends(Concat(blocks)) && i < |blocks|
    ensures Ascends(blocks[i])
    decreases |blocks|
  {
    hide KeyLess;
    var n := |blocks| - 1;
    if i < n {
      assert Ascends(Concat(blocks[..n])) by {
        assert Concat(blocks)[..|Concat(blocks[..n])|] == Concat(blocks[..n]);
      }
      BlockAscends(blocks[..n], i);
    } else {
      assert Concat(blocks)[|Concat(blocks[..n])|..] == blocks[n];
    }
  }
}
