/** The store itself (DBImpl): every method takes one step of the state machine in States. */
module Store {
  import opened Format
  import opened Versions
  import opened Steps
  import opened CompactionReads
  import opened Overlap
  import opened Picking
  import opened Reading
  import opened Compacting
  import opened Builder
  import opened InputIteration
  import opened UserIteration
  import opened StoreIteration
  import opened States

  const MAX_MEM_COMPACT_LEVEL := 2

  /** Version::OverlapInLevel. */
  method OverlapInLevel(v: Version, level: nat, lo: UserKey, hi: UserKey, ghost lastSequence: nat, ghost nextFile: nat) returns (overlaps: bool)
    requires Shape(v, lastSequence, nextFile) && lastSequence < MAX_SEQUENCE && level < NUM_LEVELS
    ensures overlaps <==> exists f :: f in v[level] && Steps.Overlaps(f, lo, hi)
  {
    LevelFilesValid(v, lastSequence, nextFile, level);
    hide Shape;
    overlaps := SomeFileOverlapsRange(level > 0, v[level], Some(lo), Some(hi), lastSequence);
    assert forall f :: InRange(f, Some(lo), Some(hi)) <==> Steps.Overlaps(f, lo, hi);
  }

  /** Whether sinking to `level` would overlap too many bytes two levels further down. */
  method OverlapsTooMuch(v: Version, level: nat, lo: UserKey, hi: UserKey, maxFileSize: nat, ghost lastSequence: nat, ghost nextFile: nat)
    returns (tooMuch: bool)
    requires Shape(v, lastSequence, nextFile)
    ensures tooMuch <==> level + 2 < NUM_LEVELS && TotalFileSize(Select(v[level + 2], Some(lo), Some(hi))) > 10 * maxFileSize
  {
    if level + 2 >= NUM_LEVELS {
      return false;
    }
    LevelFilesValid(v, lastSequence, nextFile, level + 2);
    var below, b, e := GetOverlappingInputs(v[level + 2], level + 2, Some(lo), Some(hi));
    tooMuch := TotalFileSize(below) > 10 * maxFileSize;
  }

  /** What keeps a new table from sinking below `level`. */
  ghost predicate StopsSinking(v: Version, level: nat, lo: UserKey, hi: UserKey, maxFileSize: nat)
    requires level <= MAX_MEM_COMPACT_LEVEL
  {
    || level == MAX_MEM_COMPACT_LEVEL
    || (exists f :: f in v[level + 1] && Steps.Overlaps(f, lo, hi))
    || TotalFileSize(Select(v[level + 2], Some(lo), Some(hi))) > 10 * maxFileSize
  }

  /** The level a new table sinks to: as far as it may, and nowhere when level 0 overlaps it. */
  ghost predicate SinksTo(v: Version, lo: UserKey, hi: UserKey, maxFileSize: nat, level: nat)
    requires level <= MAX_MEM_COMPACT_LEVEL
  {
    if exists f :: f in v[0] && Steps.Overlaps(f, lo, hi) then level == 0
    else StopsSinking(v, level, lo, hi, maxFileSize) && forall l :: 0 <= l < level ==> !StopsSinking(v, l, lo, hi, maxFileSize)
  }

  /** Version::PickLevelForMemTableOutput: sink while nothing overlaps, and not too far. */
  method PickLevelForMemTableOutput(v: Version, n: File, maxFileSize: nat, ghost lastSequence: nat, ghost nextFile: nat) returns (level: nat)
    requires Shape(v, lastSequence, nextFile) && lastSequence < MAX_SEQUENCE
    ensures level <= MAX_MEM_COMPACT_LEVEL && CanSink(v, level, n)
    ensures SinksTo(v, n.smallest.user, n.largest.user, maxFileSize, level)
  {
    hide Shape;
    var lo, hi := n.smallest.user, n.largest.user;
    level := 0;
    var overlaps := OverlapInLevel(v, 0, lo, hi, lastSequence, nextFile);
    if !overlaps {
      while level < MAX_MEM_COMPACT_LEVEL
        invariant level <= MAX_MEM_COMPACT_LEVEL
        invariant forall l, f :: 0 <= l <= level && f in v[l] ==> !Steps.Overlaps(f, lo, hi)
        invariant forall l :: 0 <= l < level ==> !StopsSinking(v, l, lo, hi, maxFileSize)
      {
        overlaps := OverlapInLevel(v, level + 1, lo, hi, lastSequence, nextFile);
        if overlaps {
          break;
        }
        var tooMuch := OverlapsTooMuch(v, level, lo, hi, maxFileSize, lastSequence, nextFile);
        if tooMuch {
          break;
        }
        level := level + 1;
      }
    }
  }

  ghost predicate DeletesExactly(edit: Edit, c: Inputs) {
    forall l, n :: Deletes(edit, l, n) <==>
      (l == c.level && exists f :: f in c.inputs0 && f.number == n) || (l == c.level + 1 && exists f :: f in c.inputs1 && f.number == n)
  }

  ghost predicate AddsExactly(edit: Edit, level: nat, files: seq<File>) {
    forall l, f :: Adds(edit, l, f) <==> l == level && f in files
  }

  /** AddInputDeletions. */
  method InputDeletions(c: Inputs) returns (edit: Edit)
    ensures DeletesExactly(edit, c) && edit.added == []
  {
    var deleted: seq<(nat, nat)> := [];
    for i := 0 to |c.inputs0|
      invariant forall l, n :: (l, n) in deleted <==> l == c.level && exists f :: f in c.inputs0[..i] && f.number == n
    {
      deleted := InsertPair(deleted, (c.level, c.inputs0[i].number));
      assert c.inputs0[..i + 1] == c.inputs0[..i] + [c.inputs0[i]];
    }
    assert c.inputs0[..|c.inputs0|] == c.inputs0;
    for i := 0 to |c.inputs1|
      invariant forall l, n :: (l, n) in deleted <==>
        (l == c.level && exists f :: f in c.inputs0 && f.number == n) || (l == c.level + 1 && exists f :: f in c.inputs1[..i] && f.number == n)
    {
      deleted := InsertPair(deleted, (c.level + 1, c.inputs1[i].number));
      assert c.inputs1[..i + 1] == c.inputs1[..i] + [c.inputs1[i]];
    }
    assert c.inputs1[..|c.inputs1|] == c.inputs1;
    edit := NO_EDIT.(deleted := deleted);
  }

  /** Adding files to an edit at one level. */
  method AddFiles(edit: Edit, level: nat, files: seq<File>) returns (edit': Edit)
    requires edit.added == []
    ensures AddsExactly(edit', level, files) && edit' == edit.(added := edit'.added)
  {
    var added: seq<(nat, File)> := [];
    for i := 0 to |files|
      invariant forall l, f :: (l, f) in added <==> l == level && f in files[..i]
    {
      added := added + [(level, files[i])];
      assert files[..i + 1] == files[..i] + [files[i]];
    }
    assert files[..|files|] == files;
    edit' := edit.(added := added);
  }

  /** In a version where numbers are distinct, deleting input numbers deletes exactly the inputs. */
  lemma ReplacementEdit(v: Version, c: Inputs, outputs: seq<File>, edit: Edit, lastSequence: nat, nextFile: nat)
    requires NumbersDistinct(v) && WellChosen(v, c) && GoodOutputs(v, c, outputs, lastSequence, nextFile)
    requires DeletesExactly(edit, c) && AddsExactly(edit, c.level + 1, outputs)
    ensures LevelsInRange(edit)
    ensures forall l, f :: 0 <= l < NUM_LEVELS && f in v[l] ==> (Deletes(edit, l, f.number) <==> !Stays(v, c, l, f))
  {
    hide GoodOutputs;
    forall p | p in edit.added ensures p.0 < NUM_LEVELS {
      assert Adds(edit, p.0, p.1);
    }
    forall p | p in edit.deleted ensures p.0 < NUM_LEVELS {
      assert Deletes(edit, p.0, p.1);
    }
    forall l, f | 0 <= l < NUM_LEVELS && f in v[l] ensures Deletes(edit, l, f.number) <==> !Stays(v, c, l, f) {
      var next := c.level + 1;
      forall g | g in c.inputs0 && g.number == f.number && l == c.level ensures g == f {}
      forall g | g in c.inputs1 && g.number == f.number && l == next ensures g == f {
        assert g in v[next];
      }
    }
  }

  lemma ReplacementFresh(v: Version, c: Inputs, outputs: seq<File>, edit: Edit, lastSequence: nat, nextFile: nat)
    requires GoodOutputs(v, c, outputs, lastSequence, nextFile) && LevelsInRange(edit) && c.level + 1 < NUM_LEVELS
    requires AddsExactly(edit, c.level + 1, outputs)
    requires forall f, o :: f in v[c.level + 1] && o in outputs ==> f.number != o.number
    ensures FreshFor(v, edit)
  {
    hide Disjoint, InputEntry, ValidFile;
    forall l, f, g | 0 <= l < NUM_LEVELS && f in v[l] && Adds(edit, l, g) ensures f.number != g.number {}
  }

  lemma ReplacementApplied(v: Version, c: Inputs, outputs: seq<File>, edit: Edit, w: Version)
    requires c.level + 1 < NUM_LEVELS && AddsExactly(edit, c.level + 1, outputs) && EditApplied(v, edit, w)
    requires forall l, f :: 0 <= l < NUM_LEVELS && f in v[l] ==> (Deletes(edit, l, f.number) <==> !Stays(v, c, l, f))
    ensures Replaced(v, c, outputs, w)
  {
    forall l, f | 0 <= l < NUM_LEVELS ensures f in w[l] <==> Stays(v, c, l, f) || (l == c.level + 1 && f in outputs) {
      assert Adds(edit, l, f) <==> l == c.level + 1 && f in outputs;
    }
  }

  /** LogAndApply of a compaction's edit. */
  method Install(v: Version, c: Inputs, outputs: seq<File>, ghost lastSequence: nat, ghost nextFile: nat, ghost nextFile': nat) returns (w: Version)
    requires Shape(v, lastSequence, nextFile) && WellChosen(v, c) && GoodOutputs(v, c, outputs, lastSequence, nextFile')
    requires forall f, o :: c.level + 1 < NUM_LEVELS && f in v[c.level + 1] && o in outputs ==> f.number != o.number
    ensures Replaced(v, c, outputs, w)
  {
    var deletions := InputDeletions(c);
    var edit := AddFiles(deletions, c.level + 1, outputs);
    assert NumbersDistinct(v) && c.level + 1 < NUM_LEVELS;
    assert forall l :: 0 <= l < NUM_LEVELS ==> Ordered(v[l]);
    hide Shape;
    assert forall l, n :: Deletes(edit, l, n) <==> Deletes(deletions, l, n);
    ReplacementEdit(v, c, outputs, edit, lastSequence, nextFile');
    hide WellChosen, Stays, Ordered, DeletesExactly;
    ReplacementFresh(v, c, outputs, edit, lastSequence, nextFile');
    hide GoodOutputs;
    w := ApplyEdit(v, edit);
    ReplacementApplied(v, c, outputs, edit, w);
  }

  lemma NewNumbers(v: Version, lastSequence: nat, nextFile: nat, outputs: seq<File>, l: nat)
    requires Shape(v, lastSequence, nextFile) && l < NUM_LEVELS && Numbered(outputs, nextFile)
    ensures forall f, o :: f in v[l] && o in outputs ==> f.number != o.number
  {
    forall o | o in outputs ensures o.number >= nextFile {
      var i :| 0 <= i < |outputs| && outputs[i] == o;
    }
    hide NumbersDistinct, LevelsByAge, Level0ByAge, LevelsSorted, Labelled;
  }

  lemma FlushFresh(v: Version, lastSequence: nat, nextFile: nat, n: File, level: nat)
    requires Shape(v, lastSequence, nextFile) && n.number == nextFile && level < NUM_LEVELS
    ensures FreshFor(v, NO_EDIT.(added := [(level, n)]))
    ensures forall l :: 0 <= l < NUM_LEVELS ==> Ordered(v[l])
  {
    hide NumbersDistinct, LevelsByAge, Level0ByAge;
    var edit := NO_EDIT.(added := [(level, n)]);
    assert forall l, f :: Adds(edit, l, f) ==> l == level && f == n;
    assert forall p :: p in edit.added ==> p == (level, n);
  }

  lemma FlushApplied(v: Version, n: File, level: nat, w: Version)
    requires level < NUM_LEVELS && EditApplied(v, NO_EDIT.(added := [(level, n)]), w)
    ensures Flushed(v, level, n, w)
  {
    var edit := NO_EDIT.(added := [(level, n)]);
    forall l, f | 0 <= l < NUM_LEVELS ensures f in w[l] <==> f in v[l] || (l == level && f == n) {
      assert Adds(edit, l, f) <==> l == level && f == n;
    }
  }

  /** The compaction pointer of the level moves to the end of the inputs; the others stay. */
  ghost predicate Points(before: seq<Option<IKey>>, level: nat, c: Inputs, after: seq<Option<IKey>>) {
    && level < |before| == |after| && after == before[level := after[level]] && after[level].Some? && Top(c.inputs0, after[level].value)
  }

  lemma PointsTo(before: seq<Option<IKey>>, level: nat, c: Inputs, pointer: IKey)
    requires level < |before| && Top(c.inputs0, pointer)
    ensures Points(before, level, c, before[level := Some(pointer)])
  {
    hide Top;
  }

  lemma StartInside(start: seq<File>, inputs0: seq<File>)
    requires Within(start, inputs0)
    ensures forall f :: f in start ==> f in inputs0
  {
  }

  class Db {
    var mem: seq<Entry>
    var imm: Option<seq<Entry>>
    var current: Version
    var snapshots: seq<nat>
    var lastSequence: nat
    var nextFile: nat
    var compactPointer: seq<Option<IKey>>
    const maxFileSize: nat
    const tableSize: seq<Entry> -> nat

    ghost function St(): State
      reads this
    {
      State(mem, imm, current, snapshots, lastSequence, nextFile)
    }

    ghost predicate Valid()
      reads this
    {
      Inv(St()) && |compactPointer| == NUM_LEVELS
    }

    constructor (maxFileSize: nat, tableSize: seq<Entry> -> nat)
      ensures Valid() && IsEmptyStore(St())
    {
      this.maxFileSize := maxFileSize;
      this.tableSize := tableSize;
      mem, imm, current, snapshots, lastSequence, nextFile := [], None, seq(NUM_LEVELS, _ => []), [], 0, 2;
      compactPointer := seq(NUM_LEVELS, _ => None);
      new;
      EmptyInv(St());
    }

    /** DBImpl::Write, the part done once the log record is safe. */
    method Write(ops: seq<Op>)
      requires Valid() && lastSequence + |ops| < MAX_SEQUENCE
      modifies this
      ensures Valid() && Next(old(St()), Event.Write(ops), St())
    {
      hide Inv;
      mem := AddAll(mem, ops, lastSequence + 1);
      lastSequence := lastSequence + |ops|;
      InvNext(old(St()), Event.Write(ops), St());
    }

    /** MakeRoomForWrite: the full memtable becomes immutable and a log file number is taken. */
    method SwitchMemTable()
      requires Valid() && imm == None
      modifies this
      ensures Valid() && Next(old(St()), Switch, St())
    {
      hide Inv;
      imm := Some(mem);
      mem := [];
      nextFile := nextFile + 1;
      InvNext(old(St()), Switch, St());
    }

    /** CompactMemTable and WriteLevel0Table. */
    method CompactMemTable() returns (ghost ev: Event)
      requires Valid() && imm.Some?
      modifies this
      ensures Valid() && ev.Flush? && Next(old(St()), ev, St())
      ensures imm == None
    {
      hide SinksTo, StopsSinking;
      var level, size := 0, tableSize(imm.value);
      ghost var s := St();
      if imm.value != [] {
        var n := TableOf(nextFile, size, imm.value);
        assert Shape(current, lastSequence, nextFile) && lastSequence < MAX_SEQUENCE;
        hide Shape, Inv;
        level := PickLevelForMemTableOutput(current, n, maxFileSize, lastSequence, nextFile);
        hide CanSink;
        SinkLevel(current, level, n);
        FlushFresh(current, lastSequence, nextFile, n, level);
        var w := ApplyEdit(current, NO_EDIT.(added := [(level, n)]));
        FlushApplied(current, n, level, w);
        current := w;
      }
      hide Inv;
      imm := None;
      nextFile := nextFile + 1;
      ev := Event.Flush(level, size);
      InvNext(s, ev, St());
    }

    /** DBImpl::Get: the memtable, then the immutable one, then the files. */
    method Get(k: UserKey, snapshot: Option<nat>) returns (result: Option<Value>)
      requires Valid()
      ensures result == Read(All(St()), k, if snapshot.Some? then snapshot.value else lastSequence)
    {
      var s := if snapshot.Some? then snapshot.value else lastSequence;
      LayersUnique(St());
      ReadOver(mem, Below(St()), k, s);
      ReadOver(ImmEntries(St()), Contents(current), k, s);
      assert Shape(current, lastSequence, nextFile);
      hide Inv, Shape, Contents, Read;
      var found := Lookup(mem, k, s);
      if found == None && imm.Some? {
        found := Lookup(imm.value, k, s);
      }
      if found.Some? {
        return if found.value.key.kind.Put? then Some(found.value.value) else None;
      }
      result := Reading.Get(current, k, s, lastSequence, nextFile);
    }

    /** DBImpl::NewIterator: a cursor over the memtables and every file, at one sequence. */
    method NewIterator(snapshot: Option<nat>) returns (it: DBIter)
      requires Valid()
      ensures fresh(it) && fresh(it.iter) && it.Inv() && !it.valid
      ensures it.sequence == if snapshot.Some? then snapshot.value else lastSequence
      ensures forall e :: e in All(St()) <==> e in it.Entries()
    {
      hide Inv, Gathered, Upper, All, Merger.MergeOf, Sorted;
      MemTables(St());
      var list := [mem] + if imm.Some? then [imm.value] else [];
      list := AddIterators(current, list, St());
      GatheredMerge(list, All(St()));
      MergeSorted(list, Merger.MergeAll(list));
      var merging := new Merger.MergingIterator(list, Merger.MergeAll(list));
      it := new DBIter(merging, if snapshot.Some? then snapshot.value else lastSequence);
    }

    /** A whole pass of an iterator finds what Get finds, for every key. */
    method ScanStore(snapshot: Option<nat>) returns (pairs: seq<(UserKey, Value)>)
      requires Valid()
      ensures Ascending(pairs)
      ensures forall k, v :: (k, v) in pairs <==> Read(All(St()), k, if snapshot.Some? then snapshot.value else lastSequence) == Some(v)
    {
      var it := NewIterator(snapshot);
      hide Inv, All, DBIter.Inv, Ascending, Read;
      pairs := Scan(it, All(St()));
    }

    method TakeSnapshot() returns (snapshot: nat)
      requires Valid()
      modifies this
      ensures Valid() && Next(old(St()), Event.TakeSnapshot, St())
      ensures snapshot == lastSequence && snapshot in snapshots
    {
      hide Inv;
      snapshot := lastSequence;
      snapshots := snapshots + [snapshot];
      InvNext(old(St()), Event.TakeSnapshot, St());
    }

    method ReleaseSnapshot(i: nat)
      requires Valid() && i < |snapshots|
      modifies this
      ensures Valid() && Next(old(St()), Event.ReleaseSnapshot(i), St())
    {
      hide Inv;
      snapshots := snapshots[..i] + snapshots[i + 1..];
      InvNext(old(St()), Event.ReleaseSnapshot(i), St());
    }

    /** The rest of BackgroundCompaction once the first files are chosen: move or merge. */
    method CompactFrom(level: nat, start: seq<File>, manual: bool) returns (ghost ev: Event)
      requires Valid() && level + 1 < NUM_LEVELS && Startable(current, level, start)
      modifies this
      ensures Valid() && (ev.Move? || ev.Compact?) && Next(old(St()), ev, St())
      ensures ev.c.level == level && (manual ==> ev.Compact?)
      ensures forall f :: f in start ==> f in ev.c.inputs0
      ensures Describes(old(current), ev.c) && Points(old(compactPointer), level, ev.c, compactPointer)
      ensures Picked(old(current), level, start, maxFileSize, ev.c)
      ensures ev.Move? <==> !manual && Trivial(old(current), ev.c, maxFileSize)
      ensures ev.Compact? ==> CutAsAllowed(old(current), ev.c, ev.input, ev.outputs)
    {
      hide *;
      ShapeNow();
      var c, grandparents, pointer := ChooseInputs(current, level, start, maxFileSize, lastSequence, nextFile);
      PointsTo(compactPointer, level, c, pointer);
      StartInside(start, c.inputs0);
      ev := MoveOrMerge(c, grandparents, manual);
      SetCompactPointer(level, pointer);
    }

    lemma ShapeNow()
      requires Valid()
      ensures Shape(current, lastSequence, nextFile) && |compactPointer| == NUM_LEVELS
    {
    }

    method SetCompactPointer(level: nat, key: IKey)
      requires Valid() && level < NUM_LEVELS
      modifies `compactPointer
      ensures Valid() && |old(compactPointer)| == NUM_LEVELS && compactPointer == old(compactPointer)[level := Some(key)] && St() == old(St())
    {
      hide Inv;
      compactPointer := compactPointer[level := Some(key)];
    }

    /** A trivial move when one file has nothing below it to merge with, and a compaction otherwise. */
    method MoveOrMerge(c: Inputs, grandparents: seq<File>, manual: bool) returns (ghost ev: Event)
      requires Valid() && WellChosen(current, c) && Ordered(c.inputs0) && Ordered(c.inputs1) && AreGrandparents(current, c, grandparents)
      modifies this`current, this`nextFile
      ensures Valid() && (ev.Move? || ev.Compact?) && ev.c == c && Next(old(St()), ev, St())
      ensures ev.Move? <==> !manual && Trivial(old(current), c, maxFileSize)
      ensures ev.Compact? ==> CutAsAllowed(old(current), c, ev.input, ev.outputs)
    {
      hide Inv, WellChosen, Ordered, Next, Trivial, AreGrandparents, TotalFileSize, CutAsAllowed;
      TrivialIs(current, c, grandparents, maxFileSize);
      if !manual && |c.inputs0| == 1 && c.inputs1 == [] && TotalFileSize(grandparents) <= 10 * maxFileSize {
        MoveFile(c);
        ev := Event.Move(c);
      } else {
        ev := Merge(c, grandparents);
      }
    }

    /** The trivial move. */
    method MoveFile(c: Inputs)
      requires Valid() && WellChosen(current, c) && |c.inputs0| == 1 && c.inputs1 == []
      modifies this`current
      ensures Valid() && Next(old(St()), Event.Move(c), St())
    {
      ghost var s := St();
      assert Shape(current, lastSequence, nextFile);
      MovedOutputs(current, c, lastSequence, nextFile);
      MovedNumber(current, c, lastSequence, nextFile);
      hide Shape, Inv, WellChosen, GoodOutputs;
      current := Install(current, c, c.inputs0, lastSequence, nextFile, nextFile);
      hide Replaced;
      InvNext(s, Event.Move(c), St());
    }

    /** Outputs are cut by their size and by what they overlap two levels down. */
    ghost predicate CutAsAllowed(v: Version, c: Inputs, input: seq<Entry>, outputs: seq<File>) {
      exists gs :: AreGrandparents(v, c, gs) && CutRight(Rules(gs, 10 * maxFileSize, tableSize, maxFileSize), input, outputs)
    }

    lemma CutHere(v: Version, c: Inputs, gs: seq<File>, input: seq<Entry>, outputs: seq<File>)
      requires AreGrandparents(v, c, gs) && CutRight(Rules(gs, 10 * maxFileSize, tableSize, maxFileSize), input, outputs)
      ensures CutAsAllowed(v, c, input, outputs)
    {
      hide AreGrandparents, CutRight;
    }

    /** DoCompactionWork and InstallCompactionResults. */
    method Merge(c: Inputs, grandparents: seq<File>) returns (ghost ev: Event)
      requires Valid() && WellChosen(current, c) && Ordered(c.inputs0) && Ordered(c.inputs1) && AreGrandparents(current, c, grandparents)
      modifies this`current, this`nextFile
      ensures Valid() && ev.Compact? && ev.c == c && Next(old(St()), ev, St())
      ensures CutAsAllowed(old(current), c, ev.input, ev.outputs)
    {
      hide AreGrandparents, CutRight, CutAsAllowed;
      hide Shape, Inv, Ordered, GoodInputs, WellChosen, Merged, Row, Sorted, Numbered, Flatten, GoodOutputs, OutputsKept, Replaced, Survivors;
      ghost var s := St();
      MergeFacts(s, c);
      var smallestSnapshot := if snapshots == [] then lastSequence else snapshots[0];
      var input := ReadInputs(current, c, lastSequence, nextFile);
      DeepRows(current, lastSequence, nextFile);
      MergedSorted(c, input);
      var compaction := new Compaction(current, c, grandparents, maxFileSize);
      var outputs := DoCompactionWork(compaction, input, smallestSnapshot, maxFileSize, tableSize, nextFile, lastSequence);
      CutHere(current, c, grandparents, input, outputs);
      NewNumbers(current, lastSequence, nextFile, outputs, c.level + 1);
      OutputsAreGood(current, c, input, smallestSnapshot, outputs, lastSequence, nextFile);
      current := Install(current, c, outputs, lastSequence, nextFile, nextFile + |outputs|);
      nextFile := nextFile + |outputs|;
      ev := Event.Compact(c, input, outputs);
      InvNext(s, ev, St());
    }

    /** PickCompaction for the level that is over its size limit. */
    method CompactBySize(level: nat) returns (ghost ev: Event)
      requires Valid() && level + 1 < NUM_LEVELS && current[level] != []
      modifies this
      ensures Valid() && (ev.Move? || ev.Compact?) && Next(old(St()), ev, St())
      ensures ev.c.level == level
      ensures exists f :: IsNext(old(current)[level], old(compactPointer)[level], f) && f in ev.c.inputs0 && PickedFrom(old(current), level, f, maxFileSize, ev.c)
      ensures Describes(old(current), ev.c) && Points(old(compactPointer), level, ev.c, compactPointer)
      ensures ev.Move? <==> Trivial(old(current), ev.c, maxFileSize)
      ensures ev.Compact? ==> CutAsAllowed(old(current), ev.c, ev.input, ev.outputs)
    {
      hide *;
      ShapeNow();
      var f := FirstPast(current[level], compactPointer[level]);
      var start := StartFrom(current, level, f, lastSequence, nextFile);
      ev := CompactFrom(level, start, false);
      PickedFromIs(old(current), level, f, start, maxFileSize, ev.c);
    }

    /** PickCompaction for a file that was sought too often. */
    method CompactBySeeks(level: nat, f: File) returns (ghost ev: Event)
      requires Valid() && level + 1 < NUM_LEVELS && f in current[level]
      modifies this
      ensures Valid() && (ev.Move? || ev.Compact?) && Next(old(St()), ev, St())
      ensures f in ev.c.inputs0 && PickedFrom(old(current), level, f, maxFileSize, ev.c)
      ensures Describes(old(current), ev.c) && Points(old(compactPointer), level, ev.c, compactPointer)
      ensures ev.Move? <==> Trivial(old(current), ev.c, maxFileSize)
      ensures ev.Compact? ==> CutAsAllowed(old(current), ev.c, ev.input, ev.outputs)
    {
      hide *;
      ShapeNow();
      var start := StartFrom(current, level, f, lastSequence, nextFile);
      ev := CompactFrom(level, start, false);
      PickedFromIs(old(current), level, f, start, maxFileSize, ev.c);
    }

    /** VersionSet::CompactRange: one step of a manual compaction, or none when nothing overlaps. */
    method CompactRange(level: nat, begin: Option<UserKey>, end: Option<UserKey>) returns (ghost ev: Option<Event>)
      requires Valid() && level + 1 < NUM_LEVELS
      modifies this
      ensures Valid()
      ensures ev == None <==> forall f :: f in old(current)[level] ==> !InRange(f, begin, end)
      ensures ev == None ==> St() == old(St()) && compactPointer == old(compactPointer)
      ensures ev.Some? ==> ev.value.Compact? && Describes(old(current), ev.value.c) && Next(old(St()), ev.value, St())
      ensures ev.Some? ==> PickedInRange(old(current), level, begin, end, maxFileSize, ev.value.c)
      ensures ev.Some? ==> Points(old(compactPointer), level, ev.value.c, compactPointer)
      ensures ev.Some? ==> CutAsAllowed(old(current), ev.value.c, ev.value.input, ev.value.outputs)
    {
      hide *;
      ShapeNow();
      var start := StartRange(current, level, begin, end, maxFileSize, lastSequence, nextFile);
      ev := None;
      if start != [] {
        ghost var e := CompactFrom(level, start, true);
        PickedInRangeIs(old(current), level, begin, end, start, maxFileSize, e.c);
        ev := Some(e);
      }
    }
  }

  lemma PickedFromIs(v: Version, level: nat, f: File, start: seq<File>, maxFileSize: nat, c: Inputs)
    requires StartsWith(v, level, f, start) && Picked(v, level, start, maxFileSize, c)
    ensures PickedFrom(v, level, f, maxFileSize, c)
  {
    hide StartsWith, Picked;
  }

  lemma PickedInRangeIs(v: Version, level: nat, begin: Option<UserKey>, end: Option<UserKey>, start: seq<File>, maxFileSize: nat, c: Inputs)
    requires StartsInRange(v, level, begin, end, maxFileSize, start) && Picked(v, level, start, maxFileSize, c)
    ensures PickedInRange(v, level, begin, end, maxFileSize, c)
  {
    hide StartsInRange, Picked;
  }

  lemma MergeSorted(children: seq<seq<Entry>>, merged: seq<Entry>)
    requires Merger.MergeOf(children, merged)
    ensures Sorted(merged)
  {
  }

  lemma MovedNumber(v: Version, c: Inputs, lastSequence: nat, nextFile: nat)
    requires Shape(v, lastSequence, nextFile) && WellChosen(v, c)
    ensures forall f, o :: f in v[c.level + 1] && o in c.inputs0 ==> f.number != o.number
  {
    hide LevelsByAge, Level0ByAge, LevelsSorted, ValidFiles;
  }

  lemma ReadyToRead(v: Version, c: Inputs, lastSequence: nat, nextFile: nat)
    requires Shape(v, lastSequence, nextFile) && WellChosen(v, c) && Ordered(c.inputs0) && Ordered(c.inputs1)
    ensures GoodInputs(v, c, lastSequence, nextFile) && c.level + 1 < NUM_LEVELS
  {
    hide Shape, Ordered;
  }

  lemma MergeFacts(s: State, c: Inputs)
    requires Inv(s) && WellChosen(s.version, c) && Ordered(c.inputs0) && Ordered(c.inputs1)
    ensures Shape(s.version, s.lastSequence, s.nextFile) && s.lastSequence < MAX_SEQUENCE && SmallestSnapshot(s) <= s.lastSequence
    ensures GoodInputs(s.version, c, s.lastSequence, s.nextFile) && c.level + 1 < NUM_LEVELS
  {
    hide Shape, Ordered, WellChosen, GoodInputs;
    ReadyToRead(s.version, c, s.lastSequence, s.nextFile);
  }

  lemma MergedSorted(c: Inputs, input: seq<Entry>)
    requires Merged(c, input)
    ensures Sorted(input)
  {
    hide InputEntry;
  }

  lemma DeepRows(v: Version, lastSequence: nat, nextFile: nat)
    requires Shape(v, lastSequence, nextFile)
    ensures forall l :: 1 <= l < NUM_LEVELS ==> Row(v[l], lastSequence)
  {
    forall l: nat | 1 <= l < NUM_LEVELS ensures Row(v[l], lastSequence) {
      LevelFilesValid(v, lastSequence, nextFile, l);
    }
  }
}
