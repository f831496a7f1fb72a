/** Opening a table file and reading its blocks (table/table.cc, table/format.cc). */
module TableReading {
  import opened Format
  import opened Coding
  import opened LogFormat
  import opened BlockFormat
  import opened Separators
  import opened KeyRanks
  import opened TwoLevel
  import opened TableFormat
  import opened Tables
  import Blocks

  /** What the handles of an open table lead to. */
  type Loaded = map<BlockHandle, seq<Row>>

  /** The block function of an open table. */
  function Reader(loaded: Loaded): BlockFunction {
    (h: BlockHandle) => if h in loaded then loaded[h] else []
  }

  /** The file goes that far, and the block's type and, if it is to be verified, its checksum are good. */
  predicate Readable(file: seq<byte>, h: BlockHandle, verify: bool) {
    var end := h.offset + h.size;
    && end + BLOCK_TRAILER_SIZE <= |file| && file[end] == 0
    && (verify ==> CrcMatches(DecodeFixed32(file[end + 1..end + BLOCK_TRAILER_SIZE]), file[h.offset..end + 1]))
  }

  /** ReadBlock, for a library without Snappy. */
  method ReadRawBlock(file: seq<byte>, h: BlockHandle, verify: bool) returns (r: Option<seq<byte>>)
    ensures r == if Readable(file, h, verify) then Some(file[h.offset..h.offset + h.size]) else None
  {
    hide CrcMatches, DecodeFixed32;
    if h.offset + h.size + BLOCK_TRAILER_SIZE > |file| {
      return None;
    }
    var contents := file[h.offset..h.offset + h.size + BLOCK_TRAILER_SIZE];
    var n := h.size;
    assert contents[n + 1..] == file[h.offset + n + 1..h.offset + n + BLOCK_TRAILER_SIZE];
    assert contents[..n + 1] == file[h.offset..h.offset + n + 1];
    if verify && !CrcMatches(DecodeFixed32(contents[n + 1..]), contents[..n + 1]) {
      return None;
    }
    if contents[n] != 0 {
      return None;
    }
    assert contents[..n] == file[h.offset..h.offset + n];
    return Some(contents[..n]);
  }

  /** What was sealed can be read, with and without verification. */
  lemma SealedReadable(file: seq<byte>, h: BlockHandle, block: seq<byte>, verify: bool)
    requires |block| == h.size && h.offset + h.size + BLOCK_TRAILER_SIZE <= |file|
    requires file[h.offset..h.offset + h.size + BLOCK_TRAILER_SIZE] == Sealed(block)
    ensures Readable(file, h, verify) && file[h.offset..h.offset + h.size] == block
  {
    hide CrcMatches, DecodeFixed32, EncodeFixed32, StoredCrc;
    var n, crc := h.size, StoredCrc(block + [0]);
    var contents := file[h.offset..h.offset + n + BLOCK_TRAILER_SIZE];
    assert contents[n + 1..] == file[h.offset + n + 1..h.offset + n + BLOCK_TRAILER_SIZE] == EncodeFixed32(crc);
    assert contents[..n + 1] == file[h.offset..h.offset + n + 1] == block + [0];
    assert contents[..n] == file[h.offset..h.offset + n] == block;
    assert file[h.offset + n] == contents[n];
    Fixed32RoundTrip(crc);
    StoredMatches(block + [0]);
  }

  /** All entries of a block in the file. */
  method ReadPairs(file: seq<byte>, h: BlockHandle, verify: bool, ghost es: seq<Pair>) returns (r: Option<seq<Pair>>)
    requires HasBlock(file, h, es)
    ensures r == Some(es)
  {
    hide RestartsOk, Fits, Increasing, BlockBytes, Sealed, RANK, Readable;
    ghost var restartAt :| BlockAt(file, h, es, restartAt);
    SealedReadable(file, h, BlockBytes(es, restartAt), verify);
    var raw := ReadRawBlock(file, h, verify);
    if raw == None {
      return None;
    }
    var pairs := Blocks.ReadBlock(RANK, raw.value, es, restartAt);
    return Some(pairs);
  }

  ghost predicate RowTagsFit(rows: seq<Row>) {
    forall k :: 0 <= k < |rows| ==> rows[k].key.tag < TWO_TO_64
  }

  /** BlockReader: the rows the handle leads to. */
  method ReadRows(file: seq<byte>, h: BlockHandle, verify: bool, ghost rows: seq<Row>) returns (r: Option<seq<Row>>)
    requires HasBlock(file, h, Pairs(rows)) && RowTagsFit(rows)
    ensures r == Some(rows)
  {
    hide HasBlock, KeyBytes, KeyOf;
    var pairs := ReadPairs(file, h, verify, Pairs(rows));
    if pairs == None {
      return None;
    }
    var read := [];
    for k := 0 to |pairs.value|
      invariant read == rows[..k]
    {
      KeyReads(rows[k].key);
      read := read + [Row(KeyOf(pairs.value[k].key), pairs.value[k].value)];
    }
    assert rows[..|rows|] == rows;
    return Some(read);
  }

  /** Table::Open, and the entries of the index. */
  method Open(file: seq<byte>, verify: bool, ghost index: seq<IndexEntry>, ghost blocks: seq<seq<Row>>) returns (r: Option<seq<IndexEntry>>)
    requires IsTable(file, index, blocks) && TagsFit(index)
    ensures r == Some(index)
  {
    hide HasBlock, KeyBytes, KeyOf, GetHandle, HandleBytes, FooterBytes, ReadFooter, HandleFits;
    if |file| < FOOTER_SIZE {
      return None;
    }
    ghost var m, h :| Footed(file, m, h) && HasBlock(file, h, IndexPairs(index));
    FooterRoundTrip(m, h);
    var footer := ReadFooter(file[|file| - FOOTER_SIZE..]);
    if footer == None {
      return None;
    }
    var pairs := ReadPairs(file, footer.value.1, verify, IndexPairs(index));
    if pairs == None {
      return None;
    }
    var entries := [];
    for i := 0 to |pairs.value|
      invariant entries == index[..i]
    {
      EntryReads(file, index, blocks, i);
      var handle := GetHandle(pairs.value[i].value);
      if handle == None {
        return None;
      }
      entries := entries + [IndexEntry(KeyOf(pairs.value[i].key), handle.value.0)];
    }
    assert index[..|index|] == index;
    return Some(entries);
  }

  lemma EntryReads(file: seq<byte>, index: seq<IndexEntry>, blocks: seq<seq<Row>>, i: nat)
    requires IsTable(file, index, blocks) && TagsFit(index) && i < |index|
    ensures KeyOf(KeyBytes(index[i].key)) == index[i].key
    ensures GetHandle(HandleBytes(index[i].handle)) == Some((index[i].handle, []))
  {
    hide HasBlock, KeyBytes, KeyOf, GetHandle, HandleBytes;
    KeyReads(index[i].key);
    assert HandleFits(Handles(index)[i]);
    HandleReads(index[i].handle, []);
    assert HandleBytes(index[i].handle) + [] == HandleBytes(index[i].handle);
  }

  ghost predicate Holds(loaded: Loaded, index: seq<IndexEntry>, blocks: seq<seq<Row>>, n: nat) {
    && n <= |index| == |blocks|
    && forall i :: 0 <= i < n ==> index[i].handle in loaded && loaded[index[i].handle] == blocks[i]
  }

  /** An open table: its index, and what each handle in it leads to. */
  method Load(file: seq<byte>, verify: bool, ghost index: seq<IndexEntry>, ghost blocks: seq<seq<Row>>)
    returns (r: Option<(seq<IndexEntry>, Loaded)>)
    requires IsTable(file, index, blocks) && TagsFit(index) && forall i :: 0 <= i < |blocks| ==> RowTagsFit(blocks[i])
    ensures r.Some? && r.value.0 == index && Holds(r.value.1, index, blocks, |index|)
  {
    hide HasBlock, IsTable, RowTagsFit, TagsFit;
    var entries := Open(file, verify, index, blocks);
    if entries == None {
      return None;
    }
    TableFacts(file, index, blocks);
    var loaded: Loaded := map[];
    for i := 0 to |entries.value|
      invariant Holds(loaded, index, blocks, i)
    {
      TableBlock(file, index, blocks, i);
      var h := entries.value[i].handle;
      var rows := ReadRows(file, h, verify, blocks[i]);
      if rows == None {
        return None;
      }
      loaded := loaded[h := rows.value];
    }
    return Some((entries.value, loaded));
  }

  lemma TableFacts(file: seq<byte>, index: seq<IndexEntry>, blocks: seq<seq<Row>>)
    requires IsTable(file, index, blocks)
    ensures |index| == |blocks|
  {
  }

  lemma TableBlock(file: seq<byte>, index: seq<IndexEntry>, blocks: seq<seq<Row>>, i: nat)
    requires IsTable(file, index, blocks) && i < |index| == |blocks|
    ensures HasBlock(file, index[i].handle, Pairs(blocks[i]))
    ensures forall j :: 0 <= j < i ==> index[j].handle != index[i].handle
  {
    hide HasBlock;
    var handles := Handles(index);
    assert handles[i] == index[i].handle;
    forall j | 0 <= j < i ensures index[j].handle != index[i].handle {
      assert handles[j].offset < handles[i].offset;
    }
  }

  lemma {:induction false} FlatIs(index: seq<IndexEntry>, read: BlockFunction, blocks: seq<seq<Row>>, n: nat)
    requires n <= |index| == |blocks| && forall i :: 0 <= i < |index| ==> Rows(index, read, i) == blocks[i]
    ensures Flat(index, read, n) == Concat(blocks[..n])
  {
    if n > 0 {
      FlatIs(index, read, blocks, n - 1);
      assert blocks[..n][..n - 1] == blocks[..n - 1];
    }
  }

  lemma TableOk(index: seq<IndexEntry>, loaded: Loaded, blocks: seq<seq<Row>>)
    requires Holds(loaded, index, blocks, |index|) && Between(index, blocks, []) && Ascends(Concat(blocks))
    ensures Separated(index, Reader(loaded)) && Flat(index, Reader(loaded), |index|) == Concat(blocks)
  {
    hide KeyLess;
    var read := Reader(loaded);
    assert forall i :: 0 <= i < |index| ==> Rows(index, read, i) == blocks[i];
    FlatIs(index, read, blocks, |index|);
    assert blocks[..|index|] == blocks;
    forall i | 0 <= i < |index| ensures Ascends(Rows(index, read, i)) {
      BlockAscends(blocks, i);
    }
  }

  lemma {:induction false} SmallTags(blocks: seq<seq<Row>>, blockSize: nat, i: nat)
    requires AllSmall(Concat(blocks), blockSize) && i < |blocks|
    ensures RowTagsFit(blocks[i])
    decreases |blocks|
  {
    var n := |blocks| - 1;
    var before := Concat(blocks[..n]);
    if i < n {
      assert AllSmall(before, blockSize) by {
        assert Concat(blocks)[..|before|] == before;
      }
      SmallTags(blocks[..n], blockSize, i);
    } else {
      forall k | 0 <= k < |blocks[n]| ensures blocks[n][k].key.tag < TWO_TO_64 {
        assert Concat(blocks)[|before| + k] == blocks[n][k];
      }
    }
  }

  // ----- from rows to bytes and back

  /** Every row added to a new builder. */
  method Build(rows: seq<Row>, blockSize: nat, interval: nat) returns (builder: TableBuilder)
    requires Ascends(rows) && interval >= 1 && AllSmall(rows, blockSize) && RoomOf(rows) + 4 < TWO_TO_32
    ensures fresh(builder) && fresh(builder.dataBlock) && fresh(builder.indexBlock)
    ensures builder.Inv() && builder.parts.Added() == rows
  {
    hide Ordered, Roomy, Stored, KeyLess, Concat, Filled, Use, RoomOf, AllSmall;
    builder := new TableBuilder(blockSize, interval);
    var n := 0;
    while n < |rows|
      invariant n <= |rows| && builder.Inv() && builder.parts.Added() == rows[..n] && builder.blockSize == blockSize
      invariant fresh(builder) && fresh(builder.dataBlock) && fresh(builder.indexBlock)
    {
      NextRow(builder, rows, n);
      assert rows[..n + 1] == rows[..n] + [rows[n]];
      builder.Add(rows[n]);
      n := n + 1;
    }
    assert rows[..n] == rows;
  }

  lemma NextRow(builder: TableBuilder, rows: seq<Row>, n: nat)
    requires builder.Inv() && n < |rows| && builder.parts.Added() == rows[..n] && Ascends(rows)
    requires AllSmall(rows, builder.blockSize) && RoomOf(rows) + 4 < TWO_TO_32
    ensures builder.numEntries > 0 ==> KeyLess(builder.lastKey, rows[n].key)
    ensures Small(rows[n], builder.blockSize) && RoomOf(rows[..n] + [rows[n]]) + 4 < TWO_TO_32
  {
    hide KeyLess, Between, Named, NoneEmpty, RoomOf, Stored, Filled, Parts.Added, Use, Roomy, Pairs, IndexPairs;
    assert rows[..n + 1] == rows[..n] + [rows[n]];
    RoomGrows(rows, n + 1);
  }

  lemma {:induction false} RoomGrows(rows: seq<Row>, n: nat)
    requires n <= |rows|
    ensures RoomOf(rows[..n]) <= RoomOf(rows)
    decreases |rows|
  {
    if n < |rows| {
      RoomGrows(rows[..|rows| - 1], n);
      assert rows[..|rows| - 1][..n] == rows[..n];
    } else {
      assert rows[..n] == rows;
    }
  }

  /** Every row a two-level cursor passes. */
  method Walk(index: seq<IndexEntry>, read: BlockFunction) returns (rows: seq<Row>)
    ensures rows == Flat(index, read, |index|)
  {
    var iter := new TwoLevelIterator(index, read);
    ghost var all := Flat(index, read, |index|);
    iter.SeekToFirst();
    rows := [];
    iter.ValidAt();
    while iter.Valid()
      invariant iter.Inv() && iter.All() == all && iter.At() == |rows| <= |all| && rows == all[..|rows|]
      invariant iter.Valid() <==> |rows| < |all|
      decreases |all| - |rows|
    {
      var row := iter.Current();
      rows := rows + [row];
      iter.Next();
      iter.ValidAt();
    }
  }

  /** The bytes of a finished table, opened again. */
  method Reopen(builder: TableBuilder, verify: bool) returns (index: seq<IndexEntry>, read: BlockFunction)
    requires builder.Inv()
    modifies builder, builder.dataBlock, builder.indexBlock
    ensures Separated(index, read) && Flat(index, read, |index|) == old(builder.parts.Added())
  {
    hide Ordered, Roomy, Stored, KeyLess, Concat, Filled, Use, Between, Separated, Flat, TagsFit, Ascends, AllSmall, IsTable, RowTagsFit, Holds;
    builder.Finish();
    ghost var blocks := builder.parts.blocks;
    forall i | 0 <= i < |blocks| ensures RowTagsFit(blocks[i]) {
      SmallTags(blocks, builder.blockSize, i);
    }
    var table := Load(builder.file, verify, builder.parts.index, blocks);
    TableOk(table.value.0, table.value.1, blocks);
    index, read := table.value.0, Reader(table.value.1);
  }

  /** Write a table file and walk it: every row comes back, in order, whatever the block sizes. */
  method TableRoundTrip(rows: seq<Row>, blockSize: nat, interval: nat, verify: bool) returns (back: seq<Row>)
    requires Ascends(rows) && interval >= 1 && AllSmall(rows, blockSize) && RoomOf(rows) + 4 < TWO_TO_32
    ensures back == rows
  {
    hide Ascends, AllSmall, RoomOf, Flat, Separated, TableBuilder.Inv;
    var builder := Build(rows, blockSize, interval);
    var index, read := Reopen(builder, verify);
    back := Walk(index, read);
  }

  /** A lookup in a finished table lands where it would among the rows that were added. */
  method TableSeek(builder: TableBuilder, verify: bool, target: InternalKey) returns (found: Option<Row>)
    requires builder.Inv()
    modifies builder, builder.dataBlock, builder.indexBlock
    ensures var rows := old(builder.parts.Added()); var at := SeekRows(rows, target);
      found == if at < |rows| then Some(rows[at]) else None
  {
    hide TableBuilder.Inv;
    var index, read := Reopen(builder, verify);
    var iter := new TwoLevelIterator(index, read);
    iter.Seek(target);
    iter.ValidAt();
    found := None;
    if iter.Valid() {
      var row := iter.Current();
      found := Some(row);
    }
  }
}
