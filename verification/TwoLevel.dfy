/** A cursor over a sequence of blocks through an index of them (table/two_level_iterator.cc).

    The index cursor and the cursor in a block are places in sorted runs, which is what the block
    cursor's own contracts say it is. */
module TwoLevel {
  import opened Format
  import opened Separators

  datatype Row = Row(key: InternalKey, value: Value)
  datatype BlockHandle = BlockHandle(offset: nat, size: nat)
  datatype IndexEntry = IndexEntry(key: InternalKey, handle: BlockHandle)
  datatype Cursor = Cursor(rows: seq<Row>, pos: nat)

  type BlockFunction = BlockHandle -> seq<Row>

  function Rows(index: seq<IndexEntry>, read: BlockFunction, i: nat): seq<Row>
    requires i < |index|
  {
    read(index[i].handle)
  }

  /** The rows of the first `n` blocks, in order. */
  ghost function Flat(index: seq<IndexEntry>, read: BlockFunction, n: nat): seq<Row>
    requires n <= |index|
  {
    if n == 0 then [] else Flat(index, read, n - 1) + Rows(index, read, n - 1)
  }

  ghost predicate Ascends(rows: seq<Row>) {
    forall i, j :: 0 <= i < j < |rows| ==> KeyLess(rows[i].key, rows[j].key)
  }

  /** What the builder owes the index: each key is at or after its block and before the next. */
  ghost predicate Separated(index: seq<IndexEntry>, read: BlockFunction) {
    && (forall i, k :: 0 <= i < |index| && 0 <= k < |Rows(index, read, i)| ==> !KeyLess(index[i].key, Rows(index, read, i)[k].key))
    && (forall i, j, k :: 0 <= i < j < |index| && 0 <= k < |Rows(index, read, j)| ==> KeyLess(index[i].key, Rows(index, read, j)[k].key))
    && (forall i, j :: 0 <= i < j < |index| ==> KeyLess(index[i].key, index[j].key))
    && (forall i :: 0 <= i < |index| ==> Ascends(Rows(index, read, i)))
  }

  lemma {:induction false} FlatGrows(index: seq<IndexEntry>, read: BlockFunction, m: nat, n: nat)
    requires m <= n <= |index|
    ensures |Flat(index, read, m)| <= |Flat(index, read, n)|
    ensures Flat(index, read, m) == Flat(index, read, n)[..|Flat(index, read, m)|]
  {
    if m < n {
      FlatGrows(index, read, m, n - 1);
    }
  }

  /** Where row `k` of block `i` is among all rows. */
  lemma RowAt(index: seq<IndexEntry>, read: BlockFunction, i: nat, k: nat)
    requires i < |index| && k < |Rows(index, read, i)|
    ensures var all := Flat(index, read, |index|); var at := |Flat(index, read, i)| + k; at < |all| && all[at] == Rows(index, read, i)[k]
  {
    FlatGrows(index, read, i + 1, |index|);
    assert Flat(index, read, i + 1)[|Flat(index, read, i)| + k] == Rows(index, read, i)[k];
  }

  lemma {:induction false} BlockOf(index: seq<IndexEntry>, read: BlockFunction, n: nat, at: nat) returns (i: nat, k: nat)
    requires n <= |index| && at < |Flat(index, read, n)|
    ensures i < n && k < |Rows(index, read, i)| && at == |Flat(index, read, i)| + k
    ensures Flat(index, read, n)[at] == Rows(index, read, i)[k]
  {
    if at < |Flat(index, read, n - 1)| {
      i, k := BlockOf(index, read, n - 1, at);
    } else {
      i, k := n - 1, at - |Flat(index, read, n - 1)|;
    }
  }

  /** The rows of all the blocks are in key order. */
  lemma FlatAscends(index: seq<IndexEntry>, read: BlockFunction)
    requires Separated(index, read)
    ensures Ascends(Flat(index, read, |index|))
  {
    hide Separated, KeyLess, Rows;
    var all := Flat(index, read, |index|);
    forall a, b | 0 <= a < b < |all| ensures KeyLess(all[a].key, all[b].key) {
      var i, k := BlockOf(index, read, |index|, a);
      var j, m := BlockOf(index, read, |index|, b);
      PlaceOrder(index, read, j, m, i, k);
      BlocksAscend(index, read, i, k, j, m);
    }
  }

  lemma BlocksAscend(index: seq<IndexEntry>, read: BlockFunction, i: nat, k: nat, j: nat, m: nat)
    requires Separated(index, read) && i < |index| && j < |index| && k < |Rows(index, read, i)| && m < |Rows(index, read, j)|
    requires i < j || (i == j && k < m)
    ensures KeyLess(Rows(index, read, i)[k].key, Rows(index, read, j)[m].key)
  {
    if i < j {
      NotBefore(Rows(index, read, i)[k].key, index[i].key, Rows(index, read, j)[m].key);
    }
  }

  /** Where a seek among the index keys lands, and among the rows of a block. */
  function SeekEntries(index: seq<IndexEntry>, target: InternalKey): (i: nat)
    ensures i <= |index| && (i < |index| ==> !KeyLess(index[i].key, target))
    ensures forall j :: 0 <= j < i ==> KeyLess(index[j].key, target)
  {
    if index == [] || !KeyLess(index[0].key, target) then 0 else 1 + SeekEntries(index[1..], target)
  }

  function SeekRows(rows: seq<Row>, target: InternalKey): (i: nat)
    ensures i <= |rows| && (i < |rows| ==> !KeyLess(rows[i].key, target))
    ensures forall j :: 0 <= j < i ==> KeyLess(rows[j].key, target)
  {
    if rows == [] || !KeyLess(rows[0].key, target) then 0 else 1 + SeekRows(rows[1..], target)
  }

  /** At or after, then after: after. */
  lemma NotBefore(a: InternalKey, b: InternalKey, c: InternalKey)
    ensures !KeyLess(b, a) && KeyLess(b, c) ==> KeyLess(a, c)
    ensures KeyLess(a, b) && !KeyLess(c, b) ==> KeyLess(a, c)
  {
    KeyTotal(a, b);
    KeyTotal(b, c);
    if KeyLess(a, b) && KeyLess(b, c) {
      KeyTrans(a, b, c);
    }
  }

  /** Rows are ordered by block, then by place in the block. */
  lemma PlaceOrder(index: seq<IndexEntry>, read: BlockFunction, i: nat, within: nat, j: nat, k: nat)
    requires i <= |index| && (if i < |index| then within <= |Rows(index, read, i)| else within == 0)
    requires j < |index| && k < |Rows(index, read, j)|
    ensures |Flat(index, read, j)| + k < |Flat(index, read, i)| + within <==> j < i || (j == i && k < within)
  {
    if j < i {
      FlatGrows(index, read, j + 1, i);
    } else if i < j {
      FlatGrows(index, read, i + 1, j);
    }
  }

  lemma SeekRowsIs(rows: seq<Row>, target: InternalKey, at: nat)
    requires at <= |rows| && forall r :: 0 <= r < |rows| ==> (r < at <==> KeyLess(rows[r].key, target))
    ensures SeekRows(rows, target) == at
  {
    var s := SeekRows(rows, target);
    assert s < |rows| ==> !KeyLess(rows[s].key, target);
    assert at < |rows| ==> !KeyLess(rows[at].key, target);
  }

  /** The landing place in the right block is the landing place among all rows. */
  lemma TwoLevelLanding(index: seq<IndexEntry>, read: BlockFunction, target: InternalKey)
    requires Separated(index, read)
    ensures var i := SeekEntries(index, target);
      SeekRows(Flat(index, read, |index|), target) == |Flat(index, read, i)| + if i < |index| then SeekRows(Rows(index, read, i), target) else 0
  {
    hide Separated, KeyLess, Rows;
    var all := Flat(index, read, |index|);
    var i := SeekEntries(index, target);
    var within := if i < |index| then SeekRows(Rows(index, read, i), target) else 0;
    var at := |Flat(index, read, i)| + within;
    FlatGrows(index, read, if i < |index| then i + 1 else i, |index|);
    forall r | 0 <= r < |all| ensures r < at <==> KeyLess(all[r].key, target) {
      var j, k := BlockOf(index, read, |index|, r);
      SideOf(index, read, target, i, j, k);
      PlaceOrder(index, read, i, within, j, k);
    }
    SeekRowsIs(all, target, at);
  }

  lemma SideOf(index: seq<IndexEntry>, read: BlockFunction, target: InternalKey, i: nat, j: nat, k: nat)
    requires Separated(index, read) && i == SeekEntries(index, target) && j < |index| && k < |Rows(index, read, j)|
    ensures KeyLess(Rows(index, read, j)[k].key, target) <==> j < i || (j == i && k < SeekRows(Rows(index, read, i), target))
  {
    var x := Rows(index, read, j)[k].key;
    if j < i {
      NotBefore(x, index[j].key, target);
    } else if i < j {
      NotBefore(target, index[i].key, x);
      KeyTotal(target, x);
    } else {
      var rows := Rows(index, read, i);
      var within := SeekRows(rows, target);
      if within <= k {
        assert within < k ==> KeyLess(rows[within].key, x);
        NotBefore(target, rows[within].key, x);
        KeyTotal(target, x);
      }
    }
  }

  class TwoLevelIterator {
    const index: seq<IndexEntry>
    const read: BlockFunction
    var indexAt: nat
    var data: Option<Cursor>
    var dataHandle: BlockHandle

    ghost function All(): seq<Row> {
      Flat(index, read, |index|)
    }

    ghost function Start(i: nat): nat
      requires i <= |index|
    {
      |Flat(index, read, i)|
    }

    /** The data cursor, if there is one, is in the block the index cursor names. */
    ghost predicate InSync()
      reads this
    {
      && indexAt <= |index| && (data.Some? <==> indexAt < |index|)
      && (data.Some? ==> dataHandle == index[indexAt].handle && data.value.rows == Rows(index, read, indexAt) && data.value.pos <= |data.value.rows|)
    }

    predicate Valid()
      reads this
    {
      data.Some? && data.value.pos < |data.value.rows|
    }

    /** Between operations the cursor is on a row, or has left the blocks. */
    ghost predicate Inv()
      reads this
    {
      InSync() && (data.Some? ==> Valid())
    }

    /** The place among all rows. */
    ghost function At(): nat
      requires InSync()
      reads this
    {
      if data.Some? then Start(indexAt) + data.value.pos else |All()|
    }

    constructor (index: seq<IndexEntry>, read: BlockFunction)
      ensures Inv() && !Valid() && this.index == index && this.read == read
    {
      this.index, this.read := index, read;
      indexAt, data, dataHandle := |index|, None, BlockHandle(0, 0);
    }

    method InitDataBlock()
      requires indexAt <= |index|
      requires data.Some? ==> data.value.rows == read(dataHandle) && data.value.pos <= |data.value.rows|
      modifies `data, `dataHandle
      ensures InSync()
    {
      if indexAt >= |index| {
        data := None;
      } else if data.Some? && index[indexAt].handle == dataHandle {
      } else {
        dataHandle := index[indexAt].handle;
        var rows := read(dataHandle);
        data := Some(Cursor(rows, |rows|));
      }
    }

    method SkipEmptyDataBlocksForward()
      requires InSync()
      modifies this
      ensures Inv() && At() == old(At())
    {
      while data == None || data.value.pos >= |data.value.rows|
        invariant InSync() && At() == old(At())
        decreases |index| - indexAt
      {
        if indexAt >= |index| {
          data := None;
          return;
        }
        indexAt := indexAt + 1;
        InitDataBlock();
        if data.Some? {
          data := Some(data.value.(pos := 0));
        }
      }
    }

    method SkipEmptyDataBlocksBackward()
      requires InSync()
      modifies this
      ensures Inv()
      ensures var goal := if old(Valid()) then old(At()) else if old(indexAt) < |index| then old(Start(indexAt)) - 1 else -1;
        if goal < 0 then !Valid() else Valid() && At() == goal
    {
      while data == None || data.value.pos >= |data.value.rows|
        invariant InSync()
        invariant var goal := if old(Valid()) then old(At()) else if old(indexAt) < |index| then old(Start(indexAt)) - 1 else -1;
          goal == if Valid() then At() else if indexAt < |index| then Start(indexAt) - 1 else -1
        decreases if indexAt < |index| then indexAt + 1 else 0
      {
        if indexAt >= |index| {
          data := None;
          return;
        }
        indexAt := if indexAt == 0 then |index| else indexAt - 1;
        InitDataBlock();
        if data.Some? {
          data := Some(data.value.(pos := if data.value.rows == [] then 0 else |data.value.rows| - 1));
        }
      }
    }

    method Seek(target: InternalKey)
      requires Inv() && Separated(index, read)
      modifies this
      ensures Inv() && At() == SeekRows(All(), target)
    {
      indexAt := SeekEntries(index, target);
      InitDataBlock();
      if data.Some? {
        data := Some(data.value.(pos := SeekRows(data.value.rows, target)));
      }
      TwoLevelLanding(index, read, target);
      SkipEmptyDataBlocksForward();
    }

    method SeekToFirst()
      requires Inv()
      modifies this
      ensures Inv() && At() == 0
    {
      indexAt := 0;
      InitDataBlock();
      if data.Some? {
        data := Some(data.value.(pos := 0));
      }
      SkipEmptyDataBlocksForward();
    }

    method SeekToLast()
      requires Inv()
      modifies this
      ensures Inv()
      ensures if All() == [] then !Valid() else Valid() && At() == |All()| - 1
    {
      indexAt := if |index| == 0 then 0 else |index| - 1;
      InitDataBlock();
      if data.Some? {
        data := Some(data.value.(pos := if data.value.rows == [] then 0 else |data.value.rows| - 1));
      }
      SkipEmptyDataBlocksBackward();
    }

    method Next()
      requires Inv() && Valid()
      modifies this
      ensures Inv() && At() == old(At()) + 1
    {
      data := Some(data.value.(pos := data.value.pos + 1));
      SkipEmptyDataBlocksForward();
    }

    method Prev()
      requires Inv() && Valid()
      modifies this
      ensures Inv()
      ensures if old(At()) == 0 then !Valid() else Valid() && At() == old(At()) - 1
    {
      data := Some(data.value.(pos := if data.value.pos == 0 then |data.value.rows| else data.value.pos - 1));
      SkipEmptyDataBlocksBackward();
    }

    /** key() and value(). */
    method Current() returns (row: Row)
      requires Inv() && Valid()
      ensures At() < |All()| && row == All()[At()]
    {
      RowAt(index, read, indexAt, data.value.pos);
      row := data.value.rows[data.value.pos];
    }

    /** The cursor is on a row exactly when its place is one. */
    lemma ValidAt()
      requires Inv()
      ensures At() <= |All()| && (Valid() <==> At() < |All()|)
    {
      if Valid() {
        RowAt(index, read, indexAt, data.value.pos);
      }
    }
  }
}
