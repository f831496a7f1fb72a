/** The whole store as a state machine, and why a live snapshot never changes (db/db_impl.cc). */
module States {
  import opened Format
  import opened Versions
  import opened Steps
  import opened CompactionReads
  import opened Reading

  datatype State = State(
    mem: seq<Entry>,
    imm: Option<seq<Entry>>,
    version: Version,
    snapshots: seq<nat>,
    lastSequence: nat,
    nextFile: nat)

  function ImmEntries(s: State): seq<Entry> {
    if s.imm.Some? then s.imm.value else []
  }

  /** Every entry of `es` is newer than every entry of `older` for the same key. */
  ghost predicate NewerThan(es: seq<Entry>, older: iset<Entry>) {
    forall e, d :: e in es && d in older && e.key.user == d.key.user ==> e.key.seqno > d.key.seqno
  }

  /** A sorted run on top of older entries. */
  ghost function Over(es: seq<Entry>, older: iset<Entry>): iset<Entry> {
    iset e: Entry | e in es || e in older
  }

  ghost function Below(s: State): iset<Entry> {
    Over(ImmEntries(s), Contents(s.version))
  }

  ghost function All(s: State): iset<Entry> {
    Over(s.mem, Below(s))
  }

  ghost predicate UpTo(es: seq<Entry>, lastSequence: nat) {
    forall e :: e in es ==> e.key.seqno <= lastSequence
  }

  ghost predicate SnapshotsOk(s: State) {
    && (forall i, j :: 0 <= i < j < |s.snapshots| ==> s.snapshots[i] <= s.snapshots[j])
    && (forall i :: 0 <= i < |s.snapshots| ==> s.snapshots[i] <= s.lastSequence)
  }

  ghost predicate Inv(s: State) {
    && Sorted(s.mem) && Sorted(ImmEntries(s))
    && UpTo(s.mem, s.lastSequence) && UpTo(ImmEntries(s), s.lastSequence)
    && Shape(s.version, s.lastSequence, s.nextFile)
    && NewerThan(ImmEntries(s), Contents(s.version)) && NewerThan(s.mem, Below(s))
    && SnapshotsOk(s) && s.lastSequence < MAX_SEQUENCE
  }

  /** snapshots_.oldest(), or the last sequence when there is no snapshot. */
  function SmallestSnapshot(s: State): nat {
    if s.snapshots == [] then s.lastSequence else s.snapshots[0]
  }

  /** The greatest sequence number that neither a live snapshot nor a read of the latest state is below. */
  lemma SmallestIs(s: State, n: nat)
    requires SnapshotsOk(s)
    ensures n <= SmallestSnapshot(s) <==> n <= s.lastSequence && forall i :: 0 <= i < |s.snapshots| ==> n <= s.snapshots[i]
  {
    if s.snapshots != [] && n <= SmallestSnapshot(s) {
      assert SmallestSnapshot(s) <= s.snapshots[|s.snapshots| - 1] <= s.lastSequence;
    }
  }

  /** A read looks in the top run first and below it only if the key is not there. */
  lemma ReadOver(es: seq<Entry>, older: iset<Entry>, k: UserKey, s: nat)
    requires Sorted(es) && Unique(older) && NewerThan(es, older)
    ensures Unique(Over(es, older))
    ensures Read(Over(es, older), k, s) ==
      match Lookup(es, k, s)
      case Some(e) => if e.key.kind.Put? then Some(e.value) else None
      case None => Read(older, k, s)
  {
    OverUnique(es, older);
    LookupNewest(es, k, s);
    var all := Over(es, older);
    var found := Lookup(es, k, s);
    if found.Some? {
      assert IsNewest(all, k, s, found.value);
      ReadNewest(all, k, s, found.value);
    } else if o :| o in older && Visible(o, k, s) {
      NewestExists(older, k, s, o);
      var n :| IsNewest(older, k, s, n);
      assert IsNewest(all, k, s, n);
      ReadNewest(all, k, s, n);
      ReadNewest(older, k, s, n);
    } else {
      assert forall e :: e in all ==> !Visible(e, k, s);
    }
  }

  lemma OverUnique(es: seq<Entry>, older: iset<Entry>)
    requires Sorted(es) && Unique(older) && NewerThan(es, older)
    ensures Unique(Over(es, older))
  {
    forall a, b | a in es && b in es && a.key.user == b.key.user && a.key.seqno == b.key.seqno ensures a == b {
      var i: nat :| i < |es| && es[i] == a;
      var j: nat :| j < |es| && es[j] == b;
      SameKeyOrder(es, i, j);
    }
  }

  /** Replacing what lies below a run by something that reads the same changes no read. */
  lemma ReadOverSame(es: seq<Entry>, older: iset<Entry>, older': iset<Entry>, k: UserKey, s: nat)
    requires Sorted(es) && Unique(older) && NewerThan(es, older) && Unique(older') && NewerThan(es, older')
    requires Read(older, k, s) == Read(older', k, s)
    ensures Read(Over(es, older), k, s) == Read(Over(es, older'), k, s)
  {
    ReadOver(es, older, k, s);
    ReadOver(es, older', k, s);
  }

  /** One operation of a write batch. */
  datatype Op = PutOp(user: UserKey, value: Value) | DeleteOp(user: UserKey)

  function EntryOf(op: Op, seqno: nat): Entry {
    match op
    case PutOp(user, value) => Entry(IKey(user, seqno, Put), value)
    case DeleteOp(user) => Entry(IKey(user, seqno, Deletion), [])
  }

  /** WriteBatchInternal::InsertInto: successive operations get successive sequence numbers. */
  function AddAll(mem: seq<Entry>, ops: seq<Op>, seqno: nat): seq<Entry> {
    if ops == [] then mem
    else InsertEntry(AddAll(mem, ops[..|ops| - 1], seqno), EntryOf(ops[|ops| - 1], seqno + |ops| - 1))
  }

  function TableOf(number: nat, size: nat, es: seq<Entry>): File
    requires es != []
  {
    File(number, size, es[0].key, es[|es| - 1].key, es)
  }

  /** What lets a memtable go below level 0: nothing down to its level overlaps it. */
  ghost predicate CanSink(v: Version, level: nat, n: File) {
    level < NUM_LEVELS && (level > 0 ==> forall l, f :: 0 <= l <= level && f in v[l] ==> !Overlaps(f, n.smallest.user, n.largest.user))
  }

  ghost predicate Flushed(v: Version, level: nat, n: File, w: Version) {
    && (forall l, f :: 0 <= l < NUM_LEVELS ==> (f in w[l] <==> f in v[l] || (l == level && f == n)))
    && (forall l :: 0 <= l < NUM_LEVELS ==> Ordered(w[l]))
  }

  datatype Event =
    | Write(ops: seq<Op>)
    | Skip(count: nat)
    | Switch
    | Flush(level: nat, size: nat)
    | Move(c: Inputs)
    | Compact(c: Inputs, input: seq<Entry>, outputs: seq<File>)
    | TakeSnapshot
    | ReleaseSnapshot(index: nat)

  ghost predicate NextFlush(s: State, level: nat, size: nat, t: State) {
    && s.imm.Some?
    && t == s.(imm := None, version := t.version, nextFile := s.nextFile + 1)
    && if s.imm.value == [] then t.version == s.version
       else var n := TableOf(s.nextFile, size, s.imm.value); CanSink(s.version, level, n) && Flushed(s.version, level, n, t.version)
  }

  ghost predicate NextMove(s: State, c: Inputs, t: State) {
    && WellChosen(s.version, c) && |c.inputs0| == 1 && c.inputs1 == []
    && Replaced(s.version, c, c.inputs0, t.version)
    && t == s.(version := t.version)
  }

  ghost predicate NextCompact(s: State, c: Inputs, input: seq<Entry>, outputs: seq<File>, t: State) {
    && WellChosen(s.version, c) && Merged(c, input)
    && OutputsKept(s.version, c, input, SmallestSnapshot(s), outputs)
    && GoodOutputs(s.version, c, outputs, s.lastSequence, t.nextFile) && s.nextFile <= t.nextFile
    && Replaced(s.version, c, outputs, t.version)
    && t == s.(version := t.version, nextFile := t.nextFile)
  }

  ghost predicate Next(s: State, ev: Event, t: State) {
    match ev
    case Write(ops) =>
      s.lastSequence + |ops| < MAX_SEQUENCE
      && t == s.(mem := AddAll(s.mem, ops, s.lastSequence + 1), lastSequence := s.lastSequence + |ops|)
    case Skip(count) => s.lastSequence + count < MAX_SEQUENCE && t == s.(lastSequence := s.lastSequence + count)
    case Switch => s.imm == None && t == s.(imm := Some(s.mem), mem := [], nextFile := s.nextFile + 1)
    case Flush(level, size) => NextFlush(s, level, size, t)
    case Move(c) => NextMove(s, c, t)
    case Compact(c, input, outputs) => NextCompact(s, c, input, outputs, t)
    case TakeSnapshot => t == s.(snapshots := s.snapshots + [s.lastSequence])
    case ReleaseSnapshot(i) => i < |s.snapshots| && t == s.(snapshots := s.snapshots[..i] + s.snapshots[i + 1..])
  }

  /** The guard a compaction must pass for its reads to survive. */
  ghost predicate Unexposed(s: State, ev: Event) {
    ev.Compact? ==> NoneExposed(s.version, ev.c, SmallestSnapshot(s))
  }

  ghost predicate NoneExposed(v: Version, c: Inputs, snapshot: nat) {
    c.level + 1 < NUM_LEVELS && forall k :: !Exposed(v, c, snapshot, k)
  }

  // ----- writes

  ghost predicate WrittenBy(ops: seq<Op>, seqno: nat, e: Entry) {
    exists i :: 0 <= i < |ops| && e == EntryOf(ops[i], seqno + i)
  }

  lemma WrittenByStep(ops: seq<Op>, seqno: nat, e: Entry)
    requires ops != []
    ensures WrittenBy(ops, seqno, e) <==>
      WrittenBy(ops[..|ops| - 1], seqno, e) || e == EntryOf(ops[|ops| - 1], seqno + |ops| - 1)
  {
    var n := |ops| - 1;
    if WrittenBy(ops, seqno, e) {
      var i :| 0 <= i < |ops| && e == EntryOf(ops[i], seqno + i);
      assert i < n ==> ops[..n][i] == ops[i];
    }
    if WrittenBy(ops[..n], seqno, e) {
      var i :| 0 <= i < n && e == EntryOf(ops[..n][i], seqno + i);
      assert e == EntryOf(ops[i], seqno + i);
    }
    assert EntryOf(ops[n], seqno + n) == EntryOf(ops[n], seqno + |ops| - 1);
  }

  lemma {:induction false} AddAllOk(mem: seq<Entry>, ops: seq<Op>, seqno: nat)
    requires Sorted(mem) && forall e :: e in mem ==> e.key.seqno < seqno
    ensures Sorted(AddAll(mem, ops, seqno))
    ensures forall e :: e in AddAll(mem, ops, seqno) <==> e in mem || WrittenBy(ops, seqno, e)
    ensures forall e :: e in AddAll(mem, ops, seqno) ==> e.key.seqno < seqno + |ops|
  {
    hide Sorted, WrittenBy;
    if ops == [] {
      forall e ensures !WrittenBy(ops, seqno, e) {
        NothingWritten(seqno, e);
      }
    } else {
      var n := |ops| - 1;
      AddAllOk(mem, ops[..n], seqno);
      InsertEntrySorted(AddAll(mem, ops[..n], seqno), EntryOf(ops[n], seqno + n));
      forall e ensures WrittenBy(ops, seqno, e) <==> WrittenBy(ops[..n], seqno, e) || e == EntryOf(ops[n], seqno + n) {
        WrittenByStep(ops, seqno, e);
      }
    }
  }

  lemma NothingWritten(seqno: nat, e: Entry)
    ensures !WrittenBy([], seqno, e)
  {}

  lemma WrittenIsNew(ops: seq<Op>, seqno: nat, e: Entry)
    requires WrittenBy(ops, seqno, e)
    ensures seqno <= e.key.seqno < seqno + |ops|
  {}

  lemma InvWrite(s: State, ops: seq<Op>, t: State)
    requires Inv(s) && Next(s, Write(ops), t)
    ensures Inv(t)
    ensures forall e :: e in All(t) <==> e in All(s) || WrittenBy(ops, s.lastSequence + 1, e)
  {
    hide Shape, Sorted, WrittenBy, Contents, SnapshotsOk, Below, AddAll;
    WriteMem(s, ops);
    ShapeLater(s.version, s.lastSequence, t.lastSequence, s.nextFile);
    SnapshotsLater(s, t);
    assert Below(t) == Below(s) by {
      SameLayersBelow(s, t);
    }
  }

  lemma SameLayersBelow(s: State, t: State)
    requires t.imm == s.imm && t.version == s.version
    ensures Below(t) == Below(s)
  {
  }

  /** The memtable after a write: sorted, holding what was written, and newer than all below. */
  lemma WriteMem(s: State, ops: seq<Op>)
    requires Inv(s)
    ensures var mem := AddAll(s.mem, ops, s.lastSequence + 1);
      && Sorted(mem) && UpTo(mem, s.lastSequence + |ops|) && NewerThan(mem, Below(s))
      && forall e :: e in mem <==> e in s.mem || WrittenBy(ops, s.lastSequence + 1, e)
  {
    hide Shape, Sorted, WrittenBy, Contents, SnapshotsOk, Below, AddAll;
    BelowUpTo(s);
    AddAllOk(s.mem, ops, s.lastSequence + 1);
    forall e | WrittenBy(ops, s.lastSequence + 1, e) ensures s.lastSequence < e.key.seqno {
      WrittenIsNew(ops, s.lastSequence + 1, e);
    }
  }

  lemma SnapshotsLater(s: State, t: State)
    requires SnapshotsOk(s) && t.snapshots == s.snapshots && s.lastSequence <= t.lastSequence
    ensures SnapshotsOk(t)
  {}

  lemma ShapeLater(v: Version, lastSequence: nat, later: nat, nextFile: nat)
    requires Shape(v, lastSequence, nextFile) && lastSequence <= later
    ensures Shape(v, later, nextFile)
  {
    hide NumbersDistinct, LevelsByAge, Level0ByAge, LevelsSorted;
  }

  lemma BelowUpTo(s: State)
    requires Shape(s.version, s.lastSequence, s.nextFile) && UpTo(ImmEntries(s), s.lastSequence)
    ensures forall e :: e in Below(s) ==> e.key.seqno <= s.lastSequence
  {
    forall e | e in Contents(s.version) ensures e.key.seqno <= s.lastSequence {
      var l: nat, f :| l < NUM_LEVELS && f in s.version[l] && e in f.entries;
      assert ValidFile(f, s.lastSequence);
    }
  }

  // ----- flushes

  lemma FlushedByAge(v: Version, level: nat, n: File, w: Version, lastSequence: nat, nextFile: nat)
    requires ValidFiles(v, lastSequence, nextFile) && ValidFile(n, lastSequence) && LevelsByAge(v) && Level0ByAge(v)
    requires NewerThan(n.entries, Contents(v)) && CanSink(v, level, n) && Flushed(v, level, n, w) && n.number == nextFile
    ensures LevelsByAge(w) && Level0ByAge(w)
  {
    forall l, f | 0 <= l < NUM_LEVELS && f in v[l] ensures Newer(n, f) {
      forall d | d in f.entries ensures d in Contents(v) {
        assert Holds(v[l], d);
      }
    }
    forall l, f | 0 <= l < level && f in v[l] ensures Newer(f, n) {
      ApartInUsers(f, n, lastSequence);
    }
  }

  lemma ApartInUsers(f: File, n: File, lastSequence: nat)
    requires ValidFile(f, lastSequence) && ValidFile(n, lastSequence) && !Overlaps(f, n.smallest.user, n.largest.user)
    ensures Newer(f, n) && Apart(f, n)
  {
    EntryInRange(n, lastSequence, n.entries[0]);
    EntryInRange(f, lastSequence, f.entries[0]);
    forall e, d | e in f.entries && d in n.entries ensures e.key.user != d.key.user {
      EntryInRange(f, lastSequence, e);
      EntryInRange(n, lastSequence, d);
    }
  }

  lemma FlushedSorted(v: Version, level: nat, n: File, w: Version, lastSequence: nat, nextFile: nat)
    requires ValidFiles(v, lastSequence, nextFile) && ValidFile(n, lastSequence) && LevelsSorted(v)
    requires CanSink(v, level, n) && Flushed(v, level, n, w)
    ensures LevelsSorted(w)
  {
    forall l, f, g | 1 <= l < NUM_LEVELS && f in w[l] && g in w[l] && f != g ensures Apart(f, g) {
      if f in v[l] && g in v[l] {
        assert Disjoint(v[l]);
      } else if f in v[l] {
        ApartInUsers(f, n, lastSequence);
      } else {
        ApartInUsers(g, n, lastSequence);
      }
    }
  }

  lemma FlushedFiles(v: Version, level: nat, n: File, w: Version, lastSequence: nat, nextFile: nat)
    requires ValidFiles(v, lastSequence, nextFile) && ValidFile(n, lastSequence) && NumbersDistinct(v)
    requires level < NUM_LEVELS && Flushed(v, level, n, w) && n.number == nextFile
    ensures ValidFiles(w, lastSequence, nextFile + 1) && NumbersDistinct(w)
  {
    hide ValidFile;
  }

  /** A flush keeps the shape, wherever the new table is allowed to go. */
  lemma FlushedShape(v: Version, level: nat, n: File, w: Version, lastSequence: nat, nextFile: nat)
    requires Shape(v, lastSequence, nextFile) && ValidFile(n, lastSequence) && n.number == nextFile
    requires NewerThan(n.entries, Contents(v)) && CanSink(v, level, n) && Flushed(v, level, n, w)
    ensures Shape(w, lastSequence, nextFile + 1)
  {
    hide ValidFile, ValidFiles, NumbersDistinct, LevelsByAge, Level0ByAge, LevelsSorted, CanSink, Flushed, Contents;
    FlushedByAge(v, level, n, w, lastSequence, nextFile);
    FlushedSorted(v, level, n, w, lastSequence, nextFile);
    assert level < NUM_LEVELS by { SinkLevel(v, level, n); }
    FlushedFiles(v, level, n, w, lastSequence, nextFile);
  }

  lemma SinkLevel(v: Version, level: nat, n: File)
    requires CanSink(v, level, n)
    ensures level < NUM_LEVELS
  {}

  lemma FlushedContents(v: Version, level: nat, n: File, w: Version)
    requires level < NUM_LEVELS && Flushed(v, level, n, w)
    ensures Contents(w) == Over(n.entries, Contents(v))
  {
    forall e ensures e in Contents(w) <==> e in n.entries || e in Contents(v) {
      if e in Contents(w) {
        var l: nat, f :| l < NUM_LEVELS && f in w[l] && e in f.entries;
        assert f in v[l] ==> Holds(v[l], e);
      }
      if e in Contents(v) {
        var l: nat, f :| l < NUM_LEVELS && f in v[l] && e in f.entries;
        assert f in w[l] && Holds(w[l], e);
      }
      if e in n.entries {
        assert n in w[level] && Holds(w[level], e);
      }
    }
  }

  lemma InvFlush(s: State, level: nat, size: nat, t: State)
    requires Inv(s) && NextFlush(s, level, size, t)
    ensures Inv(t) && All(t) == All(s)
  {
    var es := s.imm.value;
    if es == [] {
      ShapeNext(s.version, s.lastSequence, s.nextFile);
      assert Below(t) == Below(s);
    } else {
      var n := TableOf(s.nextFile, size, es);
      hide Shape, SnapshotsOk, Contents, CanSink, Flushed;
      FlushedShape(s.version, level, n, t.version, s.lastSequence, s.nextFile);
      SinkLevel(s.version, level, n);
      FlushedContents(s.version, level, n, t.version);
      SnapshotsLater(s, t);
      assert Below(t) == Below(s);
    }
  }

  lemma ShapeNext(v: Version, lastSequence: nat, nextFile: nat)
    requires Shape(v, lastSequence, nextFile)
    ensures Shape(v, lastSequence, nextFile + 1)
  {
    hide NumbersDistinct, LevelsByAge, Level0ByAge, LevelsSorted, ValidFile;
  }

  // ----- compactions

  lemma MovedOutputs(v: Version, c: Inputs, lastSequence: nat, nextFile: nat)
    requires Shape(v, lastSequence, nextFile) && WellChosen(v, c) && |c.inputs0| == 1 && c.inputs1 == []
    ensures GoodOutputs(v, c, c.inputs0, lastSequence, nextFile)
  {
    var f := c.inputs0[0];
    assert f in c.inputs0 && f in v[c.level];
    forall o, e | o in c.inputs0 && e in o.entries ensures InputEntry(c, e) {
      assert Holds(c.inputs0, e);
    }
    forall l, g, o | 0 <= l < NUM_LEVELS && Stays(v, c, l, g) && o in c.inputs0 ensures g.number != o.number {
      assert o == f;
    }
    hide LevelsByAge, Level0ByAge, LevelsSorted;
  }

  lemma MovedContents(v: Version, c: Inputs, w: Version)
    requires WellChosen(v, c) && c.inputs1 == [] && Replaced(v, c, c.inputs0, w)
    ensures Contents(w) == Contents(v)
  {
    forall e ensures e in Contents(w) <==> e in Contents(v) {
      BeforeCompaction(v, c, e);
      if e in Contents(w) {
        var l: nat, f :| l < NUM_LEVELS && f in w[l] && e in f.entries;
        assert Stays(v, c, l, f) || Holds(c.inputs0, e);
      }
      if InputEntry(c, e) {
        var f :| f in c.inputs0 && e in f.entries;
        var l := c.level + 1;
        assert Holds(w[l], e);
      }
      if StaysEntry(v, c, e) {
        var l: nat, f :| l < NUM_LEVELS && Stays(v, c, l, f) && e in f.entries;
        assert Holds(w[l], e);
      }
    }
  }

  lemma InvMove(s: State, c: Inputs, t: State)
    requires Inv(s) && NextMove(s, c, t)
    ensures Inv(t) && All(t) == All(s)
  {
    hide Shape, SnapshotsOk, Contents, WellChosen, Replaced;
    MovedOutputs(s.version, c, s.lastSequence, s.nextFile);
    ReplacedShape(s.version, c, c.inputs0, t.version, s.lastSequence, s.nextFile, s.nextFile);
    MovedContents(s.version, c, t.version);
    SnapshotsLater(s, t);
  }

  lemma InvCompact(s: State, c: Inputs, input: seq<Entry>, outputs: seq<File>, t: State)
    requires Inv(s) && NextCompact(s, c, input, outputs, t)
    ensures Inv(t)
    ensures Compacted(s.version, c, input, SmallestSnapshot(s), outputs, t.version, s.lastSequence, s.nextFile)
    ensures Subset(Contents(t.version), Contents(s.version)) && Unique(Contents(t.version)) && Unique(Contents(s.version))
  {
    hide Shape, SnapshotsOk, Contents, WellChosen, Replaced, Merged, OutputsKept, GoodOutputs, Sorted;
    ReplacedShape(s.version, c, outputs, t.version, s.lastSequence, s.nextFile, t.nextFile);
    ContentsSmaller(s.version, c, input, SmallestSnapshot(s), outputs, t.version, s.lastSequence, s.nextFile);
    ContentsUnique(s.version, s.lastSequence, s.nextFile);
    SnapshotsLater(s, t);
  }

  lemma LayersUnique(s: State)
    requires Inv(s)
    ensures Unique(Contents(s.version)) && Unique(Below(s)) && Unique(All(s))
  {
    hide Shape, SnapshotsOk, Contents;
    ContentsUnique(s.version, s.lastSequence, s.nextFile);
    OverUnique(ImmEntries(s), Contents(s.version));
    OverUnique(s.mem, Below(s));
  }

  /** A compaction that passes its guard changes no read at or above the smallest snapshot. */
  lemma CompactKeepsReads(s: State, c: Inputs, input: seq<Entry>, outputs: seq<File>, t: State, k: UserKey, snapshot: nat)
    requires Inv(s) && NextCompact(s, c, input, outputs, t) && SmallestSnapshot(s) <= snapshot
    requires NoneExposed(s.version, c, SmallestSnapshot(s))
    ensures Read(All(t), k, snapshot) == Read(All(s), k, snapshot)
  {
    InvCompact(s, c, input, outputs, t);
    hide Shape, SnapshotsOk, Contents, NextCompact, Exposed, Compacted, Read;
    LayersUnique(s);
    LayersUnique(t);
    CompactionPreservesReadsIff(s.version, c, input, SmallestSnapshot(s), outputs, t.version, s.lastSequence, s.nextFile);
    ReadOverSame(ImmEntries(s), Contents(s.version), Contents(t.version), k, snapshot);
    ReadOverSame(s.mem, Below(s), Below(t), k, snapshot);
  }

  /** Later writes are invisible to earlier snapshots. */
  lemma WriteKeepsReads(s: State, ops: seq<Op>, t: State, k: UserKey, snapshot: nat)
    requires Inv(s) && Next(s, Write(ops), t) && snapshot <= s.lastSequence
    ensures Read(All(t), k, snapshot) == Read(All(s), k, snapshot)
  {
    InvWrite(s, ops, t);
    hide Inv, Next, All;
    forall e | WrittenBy(ops, s.lastSequence + 1, e) ensures !Visible(e, k, snapshot) {
      WrittenIsNew(ops, s.lastSequence + 1, e);
    }
    hide WrittenBy;
    assert forall e :: e in All(t) && Visible(e, k, snapshot) <==> e in All(s) && Visible(e, k, snapshot);
    SameVisible(All(s), All(t), k, snapshot) by {
      LayersUnique(s);
      LayersUnique(t);
    }
  }

  lemma SameVisible(a: iset<Entry>, b: iset<Entry>, k: UserKey, s: nat)
    requires Unique(a) && Unique(b)
    requires forall e :: e in b && Visible(e, k, s) <==> e in a && Visible(e, k, s)
    ensures Read(b, k, s) == Read(a, k, s)
  {
    if o :| o in a && Visible(o, k, s) {
      NewestExists(a, k, s, o);
      var n :| IsNewest(a, k, s, n);
      assert IsNewest(b, k, s, n);
      ReadNewest(a, k, s, n);
      ReadNewest(b, k, s, n);
    }
  }

  // ----- runs

  lemma InvNext(s: State, ev: Event, t: State)
    requires Inv(s) && Next(s, ev, t)
    ensures Inv(t)
  {
    match ev
    case Write(ops) => InvWrite(s, ops, t);
    case Skip(count) => InvSkip(s, count, t);
    case Switch => InvSwitch(s, t);
    case Flush(level, size) => InvFlush(s, level, size, t);
    case Move(c) => InvMove(s, c, t);
    case Compact(c, input, outputs) => InvCompact(s, c, input, outputs, t);
    case TakeSnapshot =>
    case ReleaseSnapshot(i) =>
  }

  /** A write that failed uses up its sequence numbers all the same. */
  lemma InvSkip(s: State, count: nat, t: State)
    requires Inv(s) && Next(s, Skip(count), t)
    ensures Inv(t) && All(t) == All(s)
  {
    ShapeLater(s.version, s.lastSequence, t.lastSequence, s.nextFile);
    hide Shape, Contents, SnapshotsOk;
    SnapshotsLater(s, t);
  }

  lemma InvSwitch(s: State, t: State)
    requires Inv(s) && Next(s, Switch, t)
    ensures Inv(t) && All(t) == All(s)
  {
    ShapeNext(s.version, s.lastSequence, s.nextFile);
    hide Shape, Contents, SnapshotsOk;
    SnapshotsLater(s, t);
  }

  /** No step changes what a live snapshot reads. */
  lemma NextKeepsReads(s: State, ev: Event, t: State, k: UserKey, snapshot: nat)
    requires Inv(s) && Next(s, ev, t) && snapshot in s.snapshots
    requires Unexposed(s, ev)
    ensures Read(All(t), k, snapshot) == Read(All(s), k, snapshot)
  {
    hide Contents, Read, Shape;
    assert SmallestSnapshot(s) <= snapshot <= s.lastSequence;
    match ev
    case Write(ops) => WriteKeepsReads(s, ops, t, k, snapshot);
    case Skip(count) => InvSkip(s, count, t);
    case Switch => InvSwitch(s, t);
    case Flush(level, size) => InvFlush(s, level, size, t);
    case Move(c) => InvMove(s, c, t);
    case Compact(c, input, outputs) => CompactKeepsReads(s, c, input, outputs, t, k, snapshot);
    case TakeSnapshot => assert All(t) == All(s);
    case ReleaseSnapshot(i) => assert All(t) == All(s);
  }

  /** A newly created database. */
  ghost predicate IsEmptyStore(s: State) {
    && s.mem == [] && s.imm == None && s.snapshots == [] && s.lastSequence == 0
    && forall l :: 0 <= l < NUM_LEVELS ==> s.version[l] == []
  }

  /** A run of the store from a newly created database. */
  ghost predicate Run(states: seq<State>, events: seq<Event>) {
    && |states| == |events| + 1 && IsEmptyStore(states[0])
    && forall i :: 0 <= i < |events| ==> Next(states[i], events[i], states[i + 1])
  }

  lemma EmptyInv(s: State)
    requires IsEmptyStore(s)
    ensures Inv(s)
  {}

  lemma {:induction false} RunInv(states: seq<State>, events: seq<Event>, i: nat)
    requires Run(states, events) && i < |states|
    ensures Inv(states[i])
  {
    if i == 0 {
      EmptyInv(states[0]);
    } else {
      hide Next, Inv, IsEmptyStore;
      RunInv(states, events, i - 1);
      InvNext(states[i - 1], events[i - 1], states[i]);
    }
  }

  /** Every compaction between two points of a run passes its guard. */
  ghost predicate AllUnexposed(states: seq<State>, events: seq<Event>, i: nat, j: nat)
    requires Run(states, events) && i <= j < |states|
  {
    forall m :: i <= m < j ==> Unexposed(states[m], events[m])
  }

  /** Snapshot isolation: while a snapshot stays live, every read at it returns the same result. */
  lemma {:induction false} SnapshotIsolation(states: seq<State>, events: seq<Event>, i: nat, j: nat, k: UserKey, snapshot: nat)
    requires Run(states, events) && i <= j < |states|
    requires forall m :: i <= m < j ==> snapshot in states[m].snapshots
    requires AllUnexposed(states, events, i, j)
    ensures Read(All(states[j]), k, snapshot) == Read(All(states[i]), k, snapshot)
    decreases j
  {
    hide Next, Inv, Unexposed, Read, All, IsEmptyStore;
    if i < j {
      SnapshotIsolation(states, events, i, j - 1, k, snapshot);
      RunInv(states, events, j - 1);
      NextKeepsReads(states[j - 1], events[j - 1], states[j], k, snapshot);
    }
  }
}
