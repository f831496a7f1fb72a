/** The encoding of write batches (db/write_batch.cc), and what recovery makes of a log file of them
    (DBImpl::RecoverLogFile).  Keys are byte strings here; `rank` embeds them in the key order. */
module WriteBatches {
  import opened Format
  import opened Coding
  import opened LogFormat
  import opened LogReading
  import opened States
  import GroupCommit

  type Rank = seq<byte> -> UserKey

  datatype BatchOp = BatchPut(key: seq<byte>, value: seq<byte>) | BatchDelete(key: seq<byte>)
  datatype Batch = Batch(base: nat, ops: seq<BatchOp>)

  const HEADER: nat := 12

  function OpBytes(op: BatchOp): (bytes: seq<byte>)
    ensures bytes != []
  {
    match op
    case BatchPut(key, value) => [1 as byte] + LengthPrefixed(key) + LengthPrefixed(value)
    case BatchDelete(key) => [0 as byte] + LengthPrefixed(key)
  }

  /** The tag is the type that the internal key of the entry ends with. */
  lemma TagIsKind(op: BatchOp, user: UserKey, seqno: nat)
    ensures OpBytes(op)[0] as nat == Packed(IKey(user, seqno, if op.BatchPut? then Put else Deletion)) - 256 * seqno
    ensures op.BatchDelete? ==> OpBytes(op)[0] == 0
  {
  }

  function OpsBytes(ops: seq<BatchOp>): seq<byte> {
    if ops == [] then [] else OpsBytes(ops[..|ops| - 1]) + OpBytes(ops[|ops| - 1])
  }

  predicate OpFits(op: BatchOp) {
    |op.key| < TWO_TO_32 && (op.BatchPut? ==> |op.value| < TWO_TO_32)
  }

  /** A batch whose sequence number and count fit their fields. */
  ghost predicate BatchFits(b: Batch) {
    b.base < TWO_TO_64 && |b.ops| < TWO_TO_32 && forall i :: 0 <= i < |b.ops| ==> OpFits(b.ops[i])
  }

  /** The representation of a batch. */
  function BatchBytes(b: Batch): seq<byte>
    requires b.base < TWO_TO_64 && |b.ops| < TWO_TO_32
  {
    EncodeFixed64(b.base) + EncodeFixed32(|b.ops|) + OpsBytes(b.ops)
  }

  /** A batch of two operations, byte for byte. */
  lemma BatchExample()
    ensures BatchBytes(Batch(259, [BatchPut([97], [98, 99]), BatchDelete([100])])) == [3, 1, 0, 0, 0, 0, 0, 0, 2, 0, 0, 0, 1, 1, 97, 2, 98, 99, 0, 1, 100]
  {
    var ops := [BatchPut([97], [98, 99]), BatchDelete([100])];
    assert ops[..1][..0] == [];
    assert OpsBytes(ops[..1]) == OpBytes(ops[0]);
    assert EncodeFixed64(259) == [3, 1, 0, 0, 0, 0, 0, 0];
    assert EncodeFixed32(2) == [2, 0, 0, 0];
  }

  lemma {:induction false} OpsConcat(a: seq<BatchOp>, b: seq<BatchOp>)
    ensures OpsBytes(a + b) == OpsBytes(a) + OpsBytes(b)
    decreases |b|
  {
    hide OpBytes;
    if b == [] {
      assert a + b == a;
    } else {
      OpsConcat(a, b[..|b| - 1]);
      assert (a + b)[..|a + b| - 1] == a + b[..|b| - 1];
    }
  }

  /** One operation off the front, as Iterate reads it. */
  function GetOp(input: seq<byte>): (r: Option<(BatchOp, seq<byte>)>)
    requires input != []
    ensures r.Some? ==> |r.value.1| < |input|
  {
    if input[0] == 1 then
      match GetLengthPrefixed(input[1..])
      case None => None
      case Some((key, rest)) =>
        match GetLengthPrefixed(rest)
        case None => None
        case Some((value, rest')) => Some((BatchPut(key, value), rest'))
    else if input[0] == 0 then
      match GetLengthPrefixed(input[1..])
      case None => None
      case Some((key, rest)) => Some((BatchDelete(key), rest))
    else None
  }

  lemma OpReads(op: BatchOp, rest: seq<byte>)
    requires OpFits(op)
    ensures GetOp(OpBytes(op) + rest) == Some((op, rest))
  {
    hide LengthPrefixed, GetLengthPrefixed;
    var input := OpBytes(op) + rest;
    match op
    case BatchPut(key, value) =>
      assert input[1..] == LengthPrefixed(key) + (LengthPrefixed(value) + rest);
      LengthPrefixedReads(key, LengthPrefixed(value) + rest);
      LengthPrefixedReads(value, rest);
    case BatchDelete(key) =>
      assert input[1..] == LengthPrefixed(key) + rest;
      LengthPrefixedReads(key, rest);
  }

  /** The operations a handler is called with, and whether the whole input was read. */
  function ReadOps(input: seq<byte>): (seq<BatchOp>, bool)
    decreases |input|
  {
    if input == [] then ([], true)
    else
      match GetOp(input)
      case None => ([], false)
      case Some((op, rest)) => var (ops, ok) := ReadOps(rest); ([op] + ops, ok)
  }

  lemma {:induction false} OpsRead(ops: seq<BatchOp>)
    requires forall i :: 0 <= i < |ops| ==> OpFits(ops[i])
    ensures ReadOps(OpsBytes(ops)) == (ops, true)
  {
    if ops != [] {
      var rest := ops[1..];
      OpsRead(rest);
      OpsConcat([ops[0]], rest);
      assert [ops[0]] + rest == ops && [ops[0]][..0] == [];
      assert OpsBytes([ops[0]]) == OpBytes(ops[0]);
      OpReads(ops[0], OpsBytes(rest));
    }
  }

  function Count(rep: seq<byte>): nat
    requires |rep| >= HEADER
  {
    DecodeFixed32(rep[8..HEADER])
  }

  function Sequence(rep: seq<byte>): nat
    requires |rep| >= HEADER
  {
    DecodeFixed64(rep[..8])
  }

  lemma BatchReads(b: Batch)
    requires BatchFits(b)
    ensures |BatchBytes(b)| >= HEADER && BatchBytes(b)[HEADER..] == OpsBytes(b.ops)
    ensures Sequence(BatchBytes(b)) == b.base && Count(BatchBytes(b)) == |b.ops|
  {
    hide EncodeFixed32, DecodeFixed32, EncodeFixed64, DecodeFixed64, OpsBytes;
    Parts(EncodeFixed64(b.base), EncodeFixed32(|b.ops|), OpsBytes(b.ops));
    Fixed64RoundTrip(b.base);
    Fixed32RoundTrip(|b.ops|);
  }

  lemma Reassociate(a: seq<BatchOp>, op: BatchOp, b: seq<BatchOp>)
    ensures a + ([op] + b) == (a + [op]) + b
  {
  }

  lemma ReadNone()
    ensures ReadOps([]) == ([], true)
  {
  }

  lemma ReadStep(input: seq<byte>)
    requires input != []
    ensures GetOp(input) == None ==> ReadOps(input) == ([], false)
    ensures GetOp(input).Some? ==> ReadOps(input) == ([GetOp(input).value.0] + ReadOps(GetOp(input).value.1).0, ReadOps(GetOp(input).value.1).1)
  {
    hide GetOp;
  }

  lemma FittingOpsRead(b: Batch)
    requires BatchFits(b)
    ensures ReadOps(OpsBytes(b.ops)) == (b.ops, true)
  {
    OpsRead(b.ops);
  }

  /** A batch with a new count and more operations at the end. */
  lemma BatchGrows(b: Batch, more: seq<BatchOp>)
    requires BatchFits(b) && |b.ops| + |more| < TWO_TO_32
    ensures |BatchBytes(b)| >= HEADER
    ensures BatchBytes(b.(ops := b.ops + more)) == BatchBytes(b)[..8] + EncodeFixed32(|b.ops| + |more|) + BatchBytes(b)[HEADER..] + OpsBytes(more)
  {
    hide EncodeFixed32, EncodeFixed64, OpsBytes, OpFits;
    OpsConcat(b.ops, more);
    Parts(EncodeFixed64(b.base), EncodeFixed32(|b.ops|), OpsBytes(b.ops));
    ThreeAndOne(EncodeFixed64(b.base), EncodeFixed32(|b.ops| + |more|), OpsBytes(b.ops), OpsBytes(more));
  }

  lemma Parts(a: seq<byte>, b: seq<byte>, c: seq<byte>)
    requires |a| == 8 && |b| == 4
    ensures (a + b + c)[..8] == a && (a + b + c)[8..HEADER] == b && (a + b + c)[HEADER..] == c
  {
  }

  lemma ThreeAndOne(a: seq<byte>, b: seq<byte>, c: seq<byte>, d: seq<byte>)
    ensures a + b + (c + d) == a + b + c + d
  {
  }

  lemma OneOp(op: BatchOp)
    ensures OpsBytes([op]) == OpBytes(op)
  {
    hide OpBytes;
    assert [op][..0] == [];
  }

  /** WriteBatch::Iterate, over any bytes: what the handler is told, and whether the status is OK. */
  method Iterate(rep: seq<byte>) returns (ops: seq<BatchOp>, ok: bool)
    ensures |rep| < HEADER ==> ops == [] && !ok
    ensures |rep| >= HEADER ==> ops == ReadOps(rep[HEADER..]).0
    ensures |rep| >= HEADER ==> (ok <==> ReadOps(rep[HEADER..]).1 && |ops| == Count(rep))
  {
    hide GetOp, ReadOps, Count;
    ops, ok := [], false;
    if |rep| < HEADER {
      return;
    }
    var input := rep[HEADER..];
    var found := 0;
    assert [] + ReadOps(input).0 == ReadOps(input).0;
    while input != []
      invariant found == |ops|
      invariant ReadOps(rep[HEADER..]).0 == ops + ReadOps(input).0 && ReadOps(rep[HEADER..]).1 == ReadOps(input).1
      decreases |input|
    {
      ReadStep(input);
      var op := GetOp(input);
      if op == None {
        return;
      }
      Reassociate(ops, op.value.0, ReadOps(op.value.1).0);
      found := found + 1;
      ops, input := ops + [op.value.0], op.value.1;
    }
    ReadNone();
    ok := found == Count(rep);
  }

  class WriteBatch {
    var rep: seq<byte>
    ghost var batch: Batch

    ghost predicate Valid()
      reads this
    {
      BatchFits(batch) && rep == BatchBytes(batch)
    }

    /** Clear: twelve zero bytes. */
    constructor ()
      ensures Valid() && batch == Batch(0, [])
    {
      rep := seq(HEADER, _ => 0);
      batch := Batch(0, []);
    }

    method SetCount(n: nat)
      requires |rep| >= HEADER && n < TWO_TO_32
      modifies `rep
      ensures rep == old(rep)[..8] + EncodeFixed32(n) + old(rep)[HEADER..]
    {
      rep := rep[..8] + EncodeFixed32(n) + rep[HEADER..];
    }

    method SetSequence(base: nat)
      requires Valid() && base < TWO_TO_64
      modifies this
      ensures Valid() && batch == old(batch).(base := base)
    {
      hide EncodeFixed32, EncodeFixed64, OpsBytes;
      assert rep[8..] == EncodeFixed32(|batch.ops|) + OpsBytes(batch.ops);
      rep := EncodeFixed64(base) + rep[8..];
      batch := batch.(base := base);
    }

    method Put(key: seq<byte>, value: seq<byte>)
      requires Valid() && OpFits(BatchPut(key, value)) && |batch.ops| + 1 < TWO_TO_32
      modifies this
      ensures Valid() && batch == old(batch).(ops := old(batch).ops + [BatchPut(key, value)])
    {
      hide BatchBytes, EncodeFixed32, LengthPrefixed, OpsBytes, Count;
      BatchReads(batch);
      BatchGrows(batch, [BatchPut(key, value)]);
      OneOp(BatchPut(key, value));
      SetCount(Count(rep) + 1);
      rep := rep + [1];
      rep := rep + LengthPrefixed(key);
      rep := rep + LengthPrefixed(value);
      batch := batch.(ops := batch.ops + [BatchPut(key, value)]);
    }

    method Delete(key: seq<byte>)
      requires Valid() && OpFits(BatchDelete(key)) && |batch.ops| + 1 < TWO_TO_32
      modifies this
      ensures Valid() && batch == old(batch).(ops := old(batch).ops + [BatchDelete(key)])
    {
      hide BatchBytes, EncodeFixed32, LengthPrefixed, OpsBytes, Count;
      BatchReads(batch);
      BatchGrows(batch, [BatchDelete(key)]);
      OneOp(BatchDelete(key));
      SetCount(Count(rep) + 1);
      rep := rep + [0];
      rep := rep + LengthPrefixed(key);
      batch := batch.(ops := batch.ops + [BatchDelete(key)]);
    }

    /** WriteBatchInternal::Append: the other batch's operations follow, and are counted. */
    method Append(source: WriteBatch)
      requires Valid() && source.Valid() && |batch.ops| + |source.batch.ops| < TWO_TO_32
      modifies this
      ensures Valid() && batch == old(batch).(ops := old(batch).ops + old(source.batch.ops))
    {
      hide BatchBytes, EncodeFixed32, OpsBytes, Count;
      BatchReads(batch);
      BatchReads(source.batch);
      BatchGrows(batch, source.batch.ops);
      var tail := source.rep[HEADER..];
      ghost var more := source.batch.ops;
      SetCount(Count(rep) + Count(source.rep));
      rep := rep + tail;
      batch := batch.(ops := batch.ops + more);
    }
  }

  function Ranked(rank: Rank, op: BatchOp): Op {
    match op
    case BatchPut(key, value) => PutOp(rank(key), value)
    case BatchDelete(key) => DeleteOp(rank(key))
  }

  function RankedOps(rank: Rank, ops: seq<BatchOp>): (r: seq<Op>)
    ensures |r| == |ops| && forall i :: 0 <= i < |ops| ==> r[i] == Ranked(rank, ops[i])
  {
    seq(|ops|, i requires 0 <= i < |ops| => Ranked(rank, ops[i]))
  }

  /** The entry an operation under a sequence number becomes: a value, or a deletion without one. */
  ghost predicate Stands(rank: Rank, op: BatchOp, seqno: nat, e: Entry) {
    && e.key.user == rank(op.key) && e.key.seqno == seqno
    && match op
      case BatchPut(_, value) => e.key.kind.Put? && e.value == value
      case BatchDelete(_) => e.key.kind.Deletion? && e.value == []
  }

  /** The entry is that of one of the operations. */
  ghost predicate StandsAmong(rank: Rank, ops: seq<BatchOp>, base: nat, e: Entry) {
    exists i :: 0 <= i < |ops| && Stands(rank, ops[i], base + i, e)
  }

  /** A memtable after the operations holds what it held, and the entries of the operations. */
  ghost predicate Holds(rank: Rank, ops: seq<BatchOp>, base: nat, mem: seq<Entry>, after: seq<Entry>) {
    forall e :: e in after <==> e in mem || StandsAmong(rank, ops, base, e)
  }

  lemma {:induction false} InsertMembers(es: seq<Entry>, e: Entry)
    ensures forall d :: d in InsertEntry(es, e) <==> d in es || d == e
  {
    hide Before;
    if es != [] {
      assert es == [es[0]] + es[1..];
      InsertMembers(es[1..], e);
    }
  }

  lemma OneStands(rank: Rank, op: BatchOp, seqno: nat)
    ensures forall e :: Stands(rank, op, seqno, e) <==> e == EntryOf(Ranked(rank, op), seqno)
  {
  }

  lemma StandsMore(rank: Rank, ops: seq<BatchOp>, base: nat, e: Entry)
    requires ops != []
    ensures var n := |ops| - 1; StandsAmong(rank, ops, base, e) <==> StandsAmong(rank, ops[..n], base, e) || Stands(rank, ops[n], base + n, e)
  {
    hide Stands;
    var n := |ops| - 1;
    if i :| 0 <= i < |ops| && Stands(rank, ops[i], base + i, e) {
      assert i < n ==> ops[..n][i] == ops[i];
    }
    if i :| 0 <= i < n && Stands(rank, ops[..n][i], base + i, e) {
      assert Stands(rank, ops[i], base + i, e);
    }
  }

  lemma {:induction false} AddedStand(rank: Rank, mem: seq<Entry>, ops: seq<BatchOp>, base: nat)
    ensures Holds(rank, ops, base, mem, AddAll(mem, RankedOps(rank, ops), base))
    decreases |ops|
  {
    hide Stands, EntryOf, Ranked;
    if ops != [] {
      var n := |ops| - 1;
      AddedStand(rank, mem, ops[..n], base);
      assert RankedOps(rank, ops)[..n] == RankedOps(rank, ops[..n]);
      InsertMembers(AddAll(mem, RankedOps(rank, ops[..n]), base), EntryOf(Ranked(rank, ops[n]), base + n));
      OneStands(rank, ops[n], base + n);
      forall e ensures StandsAmong(rank, ops, base, e) <==> StandsAmong(rank, ops[..n], base, e) || Stands(rank, ops[n], base + n, e) {
        StandsMore(rank, ops, base, e);
      }
    }
  }

  lemma InsertedStand(rank: Rank, rep: seq<byte>, mem: seq<Entry>, after: seq<Entry>, ok: bool)
    requires |rep| >= HEADER && after == AddAll(mem, RankedOps(rank, ReadOps(rep[HEADER..]).0), Sequence(rep))
    requires ok <==> ReadOps(rep[HEADER..]).1 && |ReadOps(rep[HEADER..]).0| == Count(rep)
    ensures forall b: Batch :: BatchFits(b) && rep == BatchBytes(b) ==> ok && Holds(rank, b.ops, b.base, mem, after)
  {
    hide ReadOps, Sequence, Count, Holds, AddAll, RankedOps, OpFits, OpsBytes, EncodeFixed32, EncodeFixed64;
    forall b: Batch | BatchFits(b) && rep == BatchBytes(b) ensures ok && Holds(rank, b.ops, b.base, mem, after) {
      BatchReads(b);
      FittingOpsRead(b);
      AddedStand(rank, mem, b.ops, b.base);
    }
  }

  /** WriteBatchInternal::InsertInto: the handler adds each operation under the next sequence number. */
  method InsertInto(rank: Rank, rep: seq<byte>, mem: seq<Entry>) returns (after: seq<Entry>, ok: bool)
    requires |rep| >= HEADER
    ensures after == AddAll(mem, RankedOps(rank, ReadOps(rep[HEADER..]).0), Sequence(rep))
    ensures ok <==> ReadOps(rep[HEADER..]).1 && |ReadOps(rep[HEADER..]).0| == Count(rep)
    ensures forall b: Batch :: BatchFits(b) && rep == BatchBytes(b) ==> ok && Holds(rank, b.ops, b.base, mem, after)
  {
    var ops;
    ops, ok := Iterate(rep);
    hide BatchFits, BatchBytes, Holds;
    hide Sequence, ReadOps, Count, EntryOf;
    after := mem;
    var sequence := Sequence(rep);
    ghost var ranked := RankedOps(rank, ops);
    assert ranked[..0] == [];
    for i := 0 to |ops|
      invariant after == AddAll(mem, ranked[..i], Sequence(rep)) && sequence == Sequence(rep) + i
    {
      assert ranked[..i + 1][..i] == ranked[..i];
      after := InsertEntry(after, EntryOf(Ranked(rank, ops[i]), sequence));
      sequence := sequence + 1;
    }
    assert ranked[..|ops|] == ranked;
    InsertedStand(rank, rep, mem, after, ok);
  }

  function BatchRecords(batches: seq<Batch>): (rs: seq<seq<byte>>)
    requires forall i :: 0 <= i < |batches| ==> batches[i].base < TWO_TO_64 && |batches[i].ops| < TWO_TO_32
    ensures |rs| == |batches| && forall i :: 0 <= i < |rs| ==> rs[i] == BatchBytes(batches[i])
  {
    seq(|batches|, i requires 0 <= i < |batches| => BatchBytes(batches[i]))
  }

  /** The groups these batches are. */
  function GroupsOf(rank: Rank, batches: seq<Batch>): (gs: seq<GroupCommit.Group>)
    ensures |gs| == |batches| && forall i :: 0 <= i < |gs| ==> gs[i] == GroupCommit.Group(batches[i].base, RankedOps(rank, batches[i].ops))
  {
    seq(|batches|, i requires 0 <= i < |batches| => GroupCommit.Group(batches[i].base, RankedOps(rank, batches[i].ops)))
  }

  ghost predicate AllFit(batches: seq<Batch>) {
    forall i :: 0 <= i < |batches| ==> BatchFits(batches[i])
  }

  /** The entry is that of an operation of one of the batches. */
  ghost predicate StandsIn(rank: Rank, batches: seq<Batch>, e: Entry) {
    exists i :: 0 <= i < |batches| && StandsAmong(rank, batches[i].ops, batches[i].base, e)
  }

  lemma StandsInMore(rank: Rank, batches: seq<Batch>, mem: seq<Entry>, after: seq<Entry>)
    requires batches != [] && forall e :: e in mem <==> StandsIn(rank, batches[..|batches| - 1], e)
    requires Holds(rank, batches[|batches| - 1].ops, batches[|batches| - 1].base, mem, after)
    ensures forall e :: e in after <==> StandsIn(rank, batches, e)
  {
    hide StandsAmong;
    var n := |batches| - 1;
    forall e ensures e in after <==> StandsIn(rank, batches, e) {
      if i :| 0 <= i < |batches| && StandsAmong(rank, batches[i].ops, batches[i].base, e) {
        assert i < n ==> batches[..n][i] == batches[i];
      }
      if i :| 0 <= i < n && StandsAmong(rank, batches[..n][i].ops, batches[..n][i].base, e) {
        assert batches[..n][i] == batches[i];
      }
    }
  }

  /** What is left of a log file of batches has the first `n` of them whole. */
  ghost predicate LogLeft(file: seq<byte>, batches: seq<Batch>, n: nat) {
    && AllFit(batches) && file <= LogBytes(BatchRecords(batches))
    && n <= |batches| && EndInside(BatchRecords(batches), |file|, n)
  }

  ghost predicate HoldsWhole(rank: Rank, batches: seq<Batch>, n: nat, mem: seq<Entry>) {
    n <= |batches| && forall e :: e in mem <==> StandsIn(rank, batches[..n], e)
  }

  /** One record: it is inserted, and its last sequence number counts. */
  method RecoverRecord(rank: Rank, record: seq<byte>, mem: seq<Entry>, max: int, ghost b: Batch) returns (mem': seq<Entry>, max': int, ok: bool)
    requires BatchFits(b) && record == BatchBytes(b)
    ensures ok && mem' == AddAll(mem, RankedOps(rank, b.ops), b.base) && Holds(rank, b.ops, b.base, mem, mem')
    ensures max' == if b.base + |b.ops| - 1 > max then b.base + |b.ops| - 1 else max
  {
    hide BatchFits, BatchBytes, ReadOps, Count, Sequence, AddAll, Holds, OpsBytes, Ranked;
    BatchReads(b);
    FittingOpsRead(b);
    mem', max', ok := mem, max, true;
    if |record| >= HEADER {
      mem', ok := InsertInto(rank, record, mem);
      if ok {
        var last := Sequence(record) + Count(record) - 1;
        if last > max {
          max' := last;
        }
      }
    }
  }

  lemma ReplayMore(rank: Rank, batches: seq<Batch>, i: nat)
    requires i < |batches|
    ensures GroupCommit.Replay(GroupsOf(rank, batches[..i + 1])) == AddAll(GroupCommit.Replay(GroupsOf(rank, batches[..i])), RankedOps(rank, batches[i].ops), batches[i].base)
  {
    hide AddAll, Ranked;
    assert GroupsOf(rank, batches[..i + 1])[..i] == GroupsOf(rank, batches[..i]);
  }

  /** DBImpl::RecoverLogFile, up to the flush of what it read: however much of the log is there, the
      memtable becomes what the `n` whole batches in it, inserted in order, leave. */
  method RecoverLogFile(rank: Rank, file: seq<byte>, maxSequence: int, ghost batches: seq<Batch>, ghost n: nat)
      returns (mem: seq<Entry>, max: int, ok: bool)
    requires LogLeft(file, batches, n)
    ensures ok && n <= |batches|
    ensures mem == GroupCommit.Replay(GroupsOf(rank, batches[..n]))
    ensures HoldsWhole(rank, batches, n, mem)
    ensures maxSequence <= max && forall i :: 0 <= i < n ==> batches[i].base + |batches[i].ops| - 1 <= max
    ensures max == maxSequence || exists i :: 0 <= i < n && max == batches[i].base + |batches[i].ops| - 1
  {
    hide LogBytes, EndInside, BatchBytes, OpFits, GroupsOf, Holds, HoldsWhole, RankedOps, GroupCommit.Replay, AddAll;
    var records, drops := ReadLog(file, true, BatchRecords(batches));
    EndInsideOnce(BatchRecords(batches), |file|, |records|, n);
    mem, max, ok := [], maxSequence, true;
    ReplayNone(rank, batches);
    var i := 0;
    while i < |records|
      invariant i <= |records| && ok
      invariant mem == GroupCommit.Replay(GroupsOf(rank, batches[..i])) && HoldsWhole(rank, batches, i, mem)
      invariant maxSequence <= max && forall k :: 0 <= k < i ==> batches[k].base + |batches[k].ops| - 1 <= max
      invariant max == maxSequence || exists k :: 0 <= k < i && max == batches[k].base + |batches[k].ops| - 1
    {
      ghost var before := mem;
      mem, max, ok := RecoverRecord(rank, records[i], mem, max, batches[i]);
      if !ok {
        break;
      }
      ReplayMore(rank, batches, i);
      HoldsMore(rank, batches, i, before, mem);
      i := i + 1;
    }
  }

  lemma ReplayNone(rank: Rank, batches: seq<Batch>)
    ensures GroupCommit.Replay(GroupsOf(rank, batches[..0])) == [] && HoldsWhole(rank, batches, 0, [])
  {
  }

  lemma HoldsMore(rank: Rank, batches: seq<Batch>, i: nat, mem: seq<Entry>, after: seq<Entry>)
    requires i < |batches| && HoldsWhole(rank, batches, i, mem) && Holds(rank, batches[i].ops, batches[i].base, mem, after)
    ensures HoldsWhole(rank, batches, i + 1, after)
  {
    hide StandsIn, Holds;
    assert batches[..i + 1][..i] == batches[..i];
    StandsInMore(rank, batches[..i + 1], mem, after);
  }

  /** The last sequence number of one of the whole batches. */
  ghost predicate Uses(batches: seq<seq<Batch>>, ns: seq<nat>, k: int, i: int, last: int)
    requires |batches| == |ns|
  {
    0 <= k < |ns| && 0 <= i < ns[k] && i < |batches[k]| && last == batches[k][i].base + |batches[k][i].ops| - 1
  }

  /** The highest sequence number, of at least `start`, that one of the first `k` files uses. */
  ghost predicate Highest(batches: seq<seq<Batch>>, ns: seq<nat>, k: nat, start: int, max: int)
    requires |batches| == |ns|
  {
    && start <= max && (forall m, i, used :: m < k && Uses(batches, ns, m, i, used) ==> used <= max)
    && (max == start || exists m, i :: m < k && Uses(batches, ns, m, i, max))
  }

  lemma HighestNone(batches: seq<seq<Batch>>, ns: seq<nat>)
    requires |batches| == |ns|
    ensures Highest(batches, ns, 0, 0, 0)
  {
  }

  lemma HighestMore(batches: seq<seq<Batch>>, ns: seq<nat>, k: nat, start: int, before: int, max: int)
    requires |batches| == |ns| && k < |ns| && ns[k] <= |batches[k]| && Highest(batches, ns, k, start, before)
    requires before <= max && forall i :: 0 <= i < ns[k] ==> batches[k][i].base + |batches[k][i].ops| - 1 <= max
    requires max == before || exists i :: 0 <= i < ns[k] && max == batches[k][i].base + |batches[k][i].ops| - 1
    ensures Highest(batches, ns, k + 1, start, max)
  {
    
    if max != before {
      var i :| 0 <= i < ns[k] && max == batches[k][i].base + |batches[k][i].ops| - 1;
      assert Uses(batches, ns, k, i, max);
    }
  }

  lemma HighestIs(batches: seq<seq<Batch>>, ns: seq<nat>, max: int)
    requires |batches| == |ns| && Highest(batches, ns, |ns|, 0, max)
    ensures forall k, i :: 0 <= k < |ns| && 0 <= i < ns[k] && i < |batches[k]| ==> batches[k][i].base + |batches[k][i].ops| - 1 <= max
    ensures max == 0 || exists k, i :: 0 <= k < |ns| && 0 <= i < ns[k] && i < |batches[k]| && max == batches[k][i].base + |batches[k][i].ops| - 1
  {
    forall k, i | 0 <= k < |ns| && 0 <= i < ns[k] && i < |batches[k]| ensures batches[k][i].base + |batches[k][i].ops| - 1 <= max {
      assert Uses(batches, ns, k, i, batches[k][i].base + |batches[k][i].ops| - 1);
    }
  }

  /** DBImpl::Recover, for the log files in the order of their numbers: the last sequence becomes the
      highest one that is used anywhere. */
  method RecoverLogs(rank: Rank, files: seq<seq<byte>>, lastSequence: nat, ghost batches: seq<seq<Batch>>, ghost ns: seq<nat>)
      returns (mems: seq<seq<Entry>>, last: int, ok: bool)
    requires |files| == |batches| == |ns| && forall k :: 0 <= k < |files| ==> LogLeft(files[k], batches[k], ns[k])
    ensures ok && |mems| == |files| && forall k :: 0 <= k < |files| ==> HoldsWhole(rank, batches[k], ns[k], mems[k])
    ensures lastSequence <= last
    ensures forall k, i :: 0 <= k < |ns| && 0 <= i < ns[k] && i < |batches[k]| ==> batches[k][i].base + |batches[k][i].ops| - 1 <= last
    ensures last == lastSequence || exists k, i :: 0 <= k < |ns| && 0 <= i < ns[k] && i < |batches[k]| && last == batches[k][i].base + |batches[k][i].ops| - 1
  {
    hide LogLeft, HoldsWhole, GroupsOf, GroupCommit.Replay, Uses, Highest;
    HighestNone(batches, ns);
    mems, ok := [], true;
    var max := 0;
    for k := 0 to |files|
      invariant ok && |mems| == k && forall m :: 0 <= m < k ==> HoldsWhole(rank, batches[m], ns[m], mems[m])
      invariant Highest(batches, ns, k, 0, max)
    {
      ghost var before := max;
      var mem;
      mem, max, ok := RecoverLogFile(rank, files[k], max, batches[k], ns[k]);
      mems := mems + [mem];
      HighestMore(batches, ns, k, 0, before, max);
    }
    HighestIs(batches, ns, max);
    last := if lastSequence < max then max else lastSequence;
  }

  // ----- what a key reads as afterwards

  /** No two keys share a rank. */
  ghost predicate Injective(rank: Rank) {
    forall a, b :: rank(a) == rank(b) ==> a == b
  }

  /** Operation `j` of batch `i` is the last one that names the key. */
  ghost predicate IsLast(batches: seq<Batch>, key: seq<byte>, i: int, j: int) {
    && 0 <= i < |batches| && 0 <= j < |batches[i].ops| && batches[i].ops[j].key == key
    && (forall j' :: j < j' < |batches[i].ops| ==> batches[i].ops[j'].key != key)
    && (forall i', j' :: i < i' < |batches| && 0 <= j' < |batches[i'].ops| ==> batches[i'].ops[j'].key != key)
  }

  ghost predicate Names(batches: seq<Batch>, key: seq<byte>) {
    exists i, j :: 0 <= i < |batches| && 0 <= j < |batches[i].ops| && batches[i].ops[j].key == key
  }

  lemma {:induction false} LastExists(batches: seq<Batch>, key: seq<byte>)
    ensures Names(batches, key) <==> exists i, j :: IsLast(batches, key, i, j)
    decreases |batches|
  {
    if batches != [] && Names(batches, key) {
      var n := |batches| - 1;
      var last := LastIn(batches[n].ops, key, |batches[n].ops|);
      if last.Some? {
        assert IsLast(batches, key, n, last.value);
      } else {
        LastExists(batches[..n], key);
        var i, j :| 0 <= i < |batches| && 0 <= j < |batches[i].ops| && batches[i].ops[j].key == key;
        assert batches[..n][i].ops[j].key == key;
        var i', j' :| IsLast(batches[..n], key, i', j');
        assert IsLast(batches, key, i', j');
      }
    }
  }

  lemma {:induction false} LastIn(ops: seq<BatchOp>, key: seq<byte>, n: nat) returns (last: Option<nat>)
    requires n <= |ops|
    ensures last == None ==> forall j :: 0 <= j < n ==> ops[j].key != key
    ensures last.Some? ==> last.value < n && ops[last.value].key == key && forall j :: last.value < j < n ==> ops[j].key != key
  {
    if n == 0 {
      last := None;
    } else if ops[n - 1].key == key {
      last := Some(n - 1);
    } else {
      last := LastIn(ops, key, n - 1);
    }
  }

  /** The batches use ascending ranges of sequence numbers, from `from` up to and with `to`. */
  ghost predicate Ranges(batches: seq<Batch>, from: nat, to: nat) {
    && (forall i, i' :: 0 <= i < i' < |batches| ==> batches[i].base + |batches[i].ops| - 1 < batches[i'].base)
    && (forall i :: 0 <= i < |batches| ==> from <= batches[i].base && batches[i].base + |batches[i].ops| - 1 <= to)
  }

  ghost function SetOf(es: seq<Entry>): iset<Entry> {
    iset e | e in es
  }

  lemma LaterIsLater(batches: seq<Batch>, from: nat, to: nat, key: seq<byte>, i: int, j: int, i': nat, j': nat)
    requires Ranges(batches, from, to) && IsLast(batches, key, i, j)
    requires i' < |batches| && j' < |batches[i'].ops| && batches[i'].ops[j'].key == key
    ensures batches[i'].base + j' <= batches[i].base + j
  {
    if i' < i {
      assert batches[i'].base + |batches[i'].ops| - 1 < batches[i].base;
    }
  }

  /** What was in the memtable before and what the batches wrote share no sequence number. */
  lemma StaysUnique(rank: Rank, batches: seq<Batch>, from: nat, to: nat, mem: seq<Entry>, after: seq<Entry>)
    requires Ranges(batches, from, to) && Unique(SetOf(mem)) && forall e :: e in mem ==> e.key.seqno < from
    requires forall e :: e in after <==> e in mem || StandsIn(rank, batches, e)
    ensures Unique(SetOf(after))
  {
    hide Ranges;
    forall a, b | a in after && b in after && a.key.user == b.key.user && a.key.seqno == b.key.seqno ensures a == b {
      if StandsIn(rank, batches, a) && StandsIn(rank, batches, b) {
        var i, j := WhereStands(rank, batches, from, to, a);
        var i', j' := WhereStands(rank, batches, from, to, b);
        SamePlace(batches, from, to, i, j, i', j');
      } else if StandsIn(rank, batches, a) {
        var i, j := WhereStands(rank, batches, from, to, a);
      } else if StandsIn(rank, batches, b) {
        var i, j := WhereStands(rank, batches, from, to, b);
      } else {
        assert a in SetOf(mem) && b in SetOf(mem);
      }
    }
  }

  lemma SamePlace(batches: seq<Batch>, from: nat, to: nat, i: nat, j: nat, i': nat, j': nat)
    requires Ranges(batches, from, to) && i < |batches| && i' < |batches| && j < |batches[i].ops| && j' < |batches[i'].ops|
    requires batches[i].base + j == batches[i'].base + j'
    ensures i == i' && j == j'
  {
  }

  lemma WhereStands(rank: Rank, batches: seq<Batch>, from: nat, to: nat, e: Entry) returns (i: nat, j: nat)
    requires StandsIn(rank, batches, e) && Ranges(batches, from, to)
    ensures i < |batches| && j < |batches[i].ops| && Stands(rank, batches[i].ops[j], batches[i].base + j, e)
    ensures from <= e.key.seqno <= to
  {
    i :| 0 <= i < |batches| && StandsAmong(rank, batches[i].ops, batches[i].base, e);
    j :| 0 <= j < |batches[i].ops| && Stands(rank, batches[i].ops[j], batches[i].base + j, e);
  }

  /** After batches are inserted, by a write or by recovery, the last operation that names a key
      decides it: a put is read as its value and a deletion as nothing.  Other keys are as before. */
  lemma LastDecides(rank: Rank, batches: seq<Batch>, from: nat, to: nat, mem: seq<Entry>, after: seq<Entry>, key: seq<byte>)
    requires Injective(rank) && Ranges(batches, from, to) && Unique(SetOf(mem)) && forall e :: e in mem ==> e.key.seqno < from
    requires forall e :: e in after <==> e in mem || StandsIn(rank, batches, e)
    ensures Unique(SetOf(after))
    ensures forall i, j :: IsLast(batches, key, i, j) ==>
      (exists e :: IsNewest(SetOf(after), rank(key), to, e) && Stands(rank, batches[i].ops[j], batches[i].base + j, e))
    ensures forall i, j :: IsLast(batches, key, i, j) ==>
      Read(SetOf(after), rank(key), to) == if batches[i].ops[j].BatchPut? then Some(batches[i].ops[j].value) else None
    ensures !Names(batches, key) ==> Read(SetOf(after), rank(key), to) == Read(SetOf(mem), rank(key), to)
  {
    StaysUnique(rank, batches, from, to, mem, after);
    hide Unique, Read, StandsIn;
    forall i, j | IsLast(batches, key, i, j)
      ensures exists e :: IsNewest(SetOf(after), rank(key), to, e) && Stands(rank, batches[i].ops[j], batches[i].base + j, e)
      ensures Read(SetOf(after), rank(key), to) == if batches[i].ops[j].BatchPut? then Some(batches[i].ops[j].value) else None
    {
      var e := LastIsNewest(rank, batches, from, to, mem, after, key, i, j);
      ReadNewest(SetOf(after), rank(key), to, e);
    }
    if !Names(batches, key) {
      forall e ensures e in SetOf(after) && Visible(e, rank(key), to) <==> e in SetOf(mem) && Visible(e, rank(key), to) {
        if StandsIn(rank, batches, e) {
          var i, j := WhereStands(rank, batches, from, to, e);
          assert batches[i].ops[j].key != key;
        }
      }
      SameVisible(SetOf(mem), SetOf(after), rank(key), to);
    }
  }

  lemma LastIsNewest(rank: Rank, batches: seq<Batch>, from: nat, to: nat, mem: seq<Entry>, after: seq<Entry>, key: seq<byte>, i: int, j: int)
      returns (e: Entry)
    requires Injective(rank) && Ranges(batches, from, to) && forall e :: e in mem ==> e.key.seqno < from
    requires forall e :: e in after <==> e in mem || StandsIn(rank, batches, e)
    requires IsLast(batches, key, i, j)
    ensures IsNewest(SetOf(after), rank(key), to, e) && Stands(rank, batches[i].ops[j], batches[i].base + j, e)
  {
    var op, seqno := batches[i].ops[j], batches[i].base + j;
    e := EntryOf(Ranked(rank, op), seqno);
    OneStands(rank, op, seqno);
    assert StandsAmong(rank, batches[i].ops, batches[i].base, e);
    assert StandsIn(rank, batches, e);
    hide StandsIn, EntryOf;
    assert from <= seqno <= to by {
      var i', j' := WhereStands(rank, batches, from, to, e);
    }
    forall o | o in SetOf(after) && Visible(o, rank(key), to) ensures o.key.seqno <= e.key.seqno {
      if StandsIn(rank, batches, o) {
        var i', j' := WhereStands(rank, batches, from, to, o);
        LaterIsLater(batches, from, to, key, i, j, i', j');
      }
    }
  }
}
