/** Running a compaction (Compaction::IsBaseLevelForKey, ShouldStopBefore, DBImpl::DoCompactionWork). */
module Compacting {
  import opened Format
  import opened Versions
  import opened Steps
  import opened CompactionReads
  import opened Picking

  /** The state a compaction keeps while it runs. */
  class Compaction {
    const level: nat
    const version: Version
    const grandparents: seq<File>
    const maxGrandparentOverlap: nat
    var levelPtrs: array<nat>
    var grandparentIndex: nat
    var seenKey: bool
    var overlappedBytes: nat
    ghost var asked: Option<UserKey>

    ghost predicate Valid()
      reads this, levelPtrs
    {
      && level + 1 < NUM_LEVELS && levelPtrs.Length == NUM_LEVELS && grandparentIndex <= |grandparents|
      && forall l :: level + 2 <= l < NUM_LEVELS ==> PassedOnly(version[l], levelPtrs[l], asked)
    }

    constructor (v: Version, c: Inputs, grandparents: seq<File>, maxFileSize: nat)
      requires c.level + 1 < NUM_LEVELS
      ensures Valid() && fresh(levelPtrs) && level == c.level && version == v && asked == None
      ensures this.grandparents == grandparents && maxGrandparentOverlap == 10 * maxFileSize && !seenKey && overlappedBytes == grandparentIndex == 0
    {
      level := c.level;
      version := v;
      this.grandparents := grandparents;
      maxGrandparentOverlap := 10 * maxFileSize;
      levelPtrs := new nat[NUM_LEVELS](_ => 0);
      grandparentIndex, seenKey, overlappedBytes := 0, false, 0;
      asked := None;
    }

    /** The cursors only move forward, yet every answer of a nondecreasing run of queries is exact. */
    method IsBaseLevelForKey(user: UserKey, ghost lastSequence: nat) returns (base: bool)
      requires Valid() && (asked.Some? ==> asked.value <= user)
      requires forall l :: level + 2 <= l < NUM_LEVELS ==> Row(version[l], lastSequence)
      modifies this`asked, levelPtrs
      ensures Valid() && asked == Some(user)
      ensures base <==> IsBase(version, level, user)
    {
      hide Row;
      asked := Some(user);
      for lvl := level + 2 to NUM_LEVELS
        invariant Valid() && asked == Some(user)
        invariant forall l, f :: level + 2 <= l < lvl && f in version[l] ==> !(f.smallest.user <= user <= f.largest.user)
      {
        var files := version[lvl];
        while levelPtrs[lvl] < |files|
          invariant Valid() && asked == Some(user)
          invariant levelPtrs[lvl] <= |files|
          decreases |files| - levelPtrs[lvl]
        {
          var f := files[levelPtrs[lvl]];
          if user <= f.largest.user {
            if user >= f.smallest.user {
              assert f in version[lvl];
              return false;
            }
            NotFurtherOn(files, lastSequence, levelPtrs[lvl], user);
            break;
          }
          levelPtrs[lvl] := levelPtrs[lvl] + 1;
        }
        assert PassedOnly(files, levelPtrs[lvl], asked);
        assert forall j :: levelPtrs[lvl] <= j < |files| ==> user < files[j].smallest.user;
        forall f | f in files ensures !(f.smallest.user <= user <= f.largest.user) {
          var j: nat :| j < |files| && files[j] == f;
        }
      }
      base := true;
    }

    /** The bytes counted on the way from one grandparent to another; before the first key none count. */
    function Counted(bytes: nat, seen: bool, from: nat, to: nat): nat
      requires from <= to <= |grandparents|
    {
      bytes + if seen then TotalFileSize(grandparents[from..to]) else 0
    }

    /** Where an output is cut for the sake of later compactions: when the grandparents passed since
        the last cut hold too many bytes.  It has no effect on contents. */
    method ShouldStopBefore(key: IKey) returns (stop: bool)
      requires Valid()
      modifies this`grandparentIndex, this`seenKey, this`overlappedBytes
      ensures Valid() && seenKey
      ensures old(grandparentIndex) <= grandparentIndex <= |grandparents|
      ensures stop <==> Counted(old(overlappedBytes), old(seenKey), old(grandparentIndex), grandparentIndex) > maxGrandparentOverlap
      ensures overlappedBytes == if stop then 0 else Counted(old(overlappedBytes), old(seenKey), old(grandparentIndex), grandparentIndex)
      ensures forall i :: old(grandparentIndex) <= i < grandparentIndex ==> Less(grandparents[i].largest, key)
      ensures grandparentIndex < |grandparents| ==> !Less(grandparents[grandparentIndex].largest, key)
    {
      while grandparentIndex < |grandparents| && Less(grandparents[grandparentIndex].largest, key)
        invariant old(grandparentIndex) <= grandparentIndex <= |grandparents|
        invariant Valid()
        invariant forall i :: old(grandparentIndex) <= i < grandparentIndex ==> Less(grandparents[i].largest, key)
        invariant overlappedBytes == Counted(old(overlappedBytes), old(seenKey), old(grandparentIndex), grandparentIndex) && seenKey == old(seenKey)
      {
        if seenKey {
          overlappedBytes := overlappedBytes + grandparents[grandparentIndex].size;
        }
        ghost var passed := grandparents[old(grandparentIndex)..grandparentIndex + 1];
        assert passed[..|passed| - 1] == grandparents[old(grandparentIndex)..grandparentIndex];
        grandparentIndex := grandparentIndex + 1;
      }
      seenKey := true;
      if overlappedBytes > maxGrandparentOverlap {
        overlappedBytes := 0;
        return true;
      }
      return false;
    }
  }

  /** A cursor has only moved past files that end before every key asked for so far. */
  ghost predicate PassedOnly(files: seq<File>, ptr: nat, asked: Option<UserKey>) {
    && ptr <= |files|
    && forall i :: 0 <= i < ptr ==> asked.Some? && files[i].largest.user < asked.value
  }

  lemma NotFurtherOn(files: seq<File>, lastSequence: nat, i: nat, user: UserKey)
    requires Row(files, lastSequence) && i < |files| && user < files[i].smallest.user
    ensures forall j :: i <= j < |files| ==> user < files[j].smallest.user
  {
    forall j: nat | i <= j < |files| ensures user < files[j].smallest.user {
      Follow(files, lastSequence, i, j);
    }
  }

  // ----- where outputs are cut

  /** How many of the first files end before the key. */
  ghost function Leading(files: seq<File>, key: IKey): (n: nat)
    ensures n <= |files| && (n < |files| ==> !Less(files[n].largest, key))
    ensures forall i :: 0 <= i < n ==> Less(files[i].largest, key)
  {
    if files == [] || !Less(files[0].largest, key) then 0 else 1 + Leading(files[1..], key)
  }

  lemma {:induction false} LeadingIs(files: seq<File>, key: IKey, n: nat)
    requires n <= |files| && forall i :: 0 <= i < n ==> Less(files[i].largest, key)
    requires n < |files| ==> !Less(files[n].largest, key)
    ensures Leading(files, key) == n
    decreases n
  {
    hide Less;
    if n > 0 {
      LeadingIs(files[1..], key, n - 1);
    }
  }

  lemma {:induction false} LeadingGrows(files: seq<File>, key: IKey, later: IKey)
    requires !Less(later, key)
    ensures Leading(files, key) <= Leading(files, later)
  {
    if files != [] {
      LeadingGrows(files[1..], key, later);
    }
  }

  /** The bytes of the files passed on the way from one key to another. */
  ghost function Passed(files: seq<File>, from: IKey, to: IKey): nat {
    var i, j := Leading(files, from), Leading(files, to);
    if i <= j then TotalFileSize(files[i..j]) else 0
  }

  lemma SlicesAdd(files: seq<File>, i: nat, j: nat, k: nat)
    requires i <= j <= k <= |files|
    ensures TotalFileSize(files[i..k]) == TotalFileSize(files[i..j]) + TotalFileSize(files[j..k])
  {
    SizesAdd(files[i..j], files[j..k]);
    assert files[i..j] + files[j..k] == files[i..k];
  }

  /** A shorter way passes no more. */
  lemma PassedLess(files: seq<File>, from: IKey, from': IKey, to': IKey, to: IKey)
    requires !Less(from', from) && !Less(to', from') && !Less(to, to')
    ensures Passed(files, from', to') <= Passed(files, from, to)
  {
    LeadingGrows(files, from, from');
    LeadingGrows(files, from', to');
    LeadingGrows(files, to', to);
    hide Leading, Less;
    var i, j, k, l := Leading(files, from), Leading(files, from'), Leading(files, to'), Leading(files, to);
    SlicesAdd(files, i, j, l);
    SlicesAdd(files, j, k, l);
  }

  /** The grandparents and the limits an output must respect. */
  datatype Rules = Rules(grandparents: seq<File>, overlapLimit: nat, tableSize: seq<Entry> -> nat, sizeLimit: nat)

  /** The last place up to `i` before which too many bytes of grandparents have been passed. */
  ghost function LastStop(r: Rules, input: seq<Entry>, i: nat): (j: nat)
    requires i < |input|
    ensures j <= i
  {
    if i == 0 then 0
    else
      var j := LastStop(r, input, i - 1);
      if Passed(r.grandparents, input[j].key, input[i].key) > r.overlapLimit then i else j
  }

  ghost predicate StopsAt(r: Rules, input: seq<Entry>, i: int) {
    0 < i < |input| && LastStop(r, input, i) == i
  }

  /** An output is as large as allowed at most, but for its last entry, and spans few grandparents. */
  ghost predicate CutInTime(r: Rules, entries: seq<Entry>) {
    && (forall k :: 0 < k < |entries| ==> r.tableSize(entries[..k]) < r.sizeLimit)
    && (entries != [] ==> Passed(r.grandparents, entries[0].key, entries[|entries| - 1].key) <= r.overlapLimit)
  }

  /** An output before `next` was cut because it was large enough, or because of the grandparents. */
  ghost predicate CutForReason(r: Rules, input: seq<Entry>, f: File, next: IKey) {
    f.size >= r.sizeLimit || exists i :: StopsAt(r, input, i) && Less(f.largest, input[i].key) && !Less(next, input[i].key)
  }

  ghost predicate CutRight(r: Rules, input: seq<Entry>, outputs: seq<File>) {
    && (forall k :: 0 <= k < |outputs| ==> outputs[k].size == r.tableSize(outputs[k].entries) && CutInTime(r, outputs[k].entries))
    && (forall k :: 0 < k < |outputs| ==> CutForReason(r, input, outputs[k - 1], outputs[k].smallest))
  }

  /** The file a table of these entries becomes. */
  function FileOf(entries: seq<Entry>, number: nat, tableSize: seq<Entry> -> nat): (f: File)
    requires entries != []
    ensures f.number == number && f.entries == entries && f.size == tableSize(entries)
    ensures f.smallest == entries[0].key && f.largest == entries[|entries| - 1].key
  {
    File(number, tableSize(entries), entries[0].key, entries[|entries| - 1].key, entries)
  }

  /** The pass has seen `i` entries; the builder began with entry `first` and ends with entry `last`. */
  ghost predicate Cutting(r: Rules, input: seq<Entry>, outputs: seq<File>, builder: seq<Entry>, first: nat, last: nat, i: nat) {
    && i <= |input| && CutRight(r, input, outputs)
    && (builder != [] ==>
        && first <= last < i && builder[0] == input[first] && builder[|builder| - 1] == input[last]
        && LastStop(r, input, i - 1) <= first && CutInTime(r, builder) && r.tableSize(builder) < r.sizeLimit)
    && (outputs != [] ==> CutForNow(r, input, outputs[|outputs| - 1], if builder == [] then i else first))
  }

  ghost predicate CutForNow(r: Rules, input: seq<Entry>, f: File, from: nat) {
    f.size >= r.sizeLimit || exists i :: StopsAt(r, input, i) && Less(f.largest, input[i].key) && i <= from
  }

  /** What ShouldStopBefore keeps track of, after `i` entries. */
  ghost predicate Tracks(r: Rules, input: seq<Entry>, i: nat, index: nat, seen: bool, bytes: nat) {
    && i <= |input| && (i == 0 ==> !seen && index == 0 && bytes == 0)
    && (i > 0 ==> seen && index == Leading(r.grandparents, input[i - 1].key))
    && (i > 0 ==> bytes == Passed(r.grandparents, input[LastStop(r, input, i - 1)].key, input[i - 1].key))
  }

  lemma KeysInOrder(input: seq<Entry>, i: nat, j: nat)
    requires Sorted(input) && i <= j < |input|
    ensures !Less(input[j].key, input[i].key) && (i < j ==> Less(input[i].key, input[j].key))
  {
    if i < j {
      assert Before(input[i].key, input[j].key);
    }
  }

  /** It asks for a cut exactly at the stops. */
  lemma StopIs(r: Rules, input: seq<Entry>, i: nat, index: nat, seen: bool, bytes: nat, index': nat, counted: nat)
    requires Sorted(input) && i < |input| && Tracks(r, input, i, index, seen, bytes)
    requires index <= index' <= |r.grandparents| && (index' < |r.grandparents| ==> !Less(r.grandparents[index'].largest, input[i].key))
    requires forall k :: index <= k < index' ==> Less(r.grandparents[k].largest, input[i].key)
    requires counted == bytes + if seen then TotalFileSize(r.grandparents[index..index']) else 0
    ensures counted > r.overlapLimit <==> StopsAt(r, input, i)
    ensures Tracks(r, input, i + 1, index', true, if counted > r.overlapLimit then 0 else counted)
  {
    hide Sorted, Leading, TotalFileSize;
    var gs, key := r.grandparents, input[i].key;
    assert gs[index'..index'] == [];
    if i == 0 {
      LeadingIs(gs, key, index');
      NoBytes(gs[index'..index']);
    } else {
      var before, j := input[i - 1].key, LastStop(r, input, i - 1);
      KeysInOrder(input, i - 1, i);
      KeysInOrder(input, j, i - 1);
      LeadingGrows(gs, input[j].key, before);
      forall k | 0 <= k < index ensures Less(gs[k].largest, key) {}
      LeadingIs(gs, key, index');
      SlicesAdd(gs, Leading(gs, input[j].key), index, index');
      NoBytes(gs[index'..index']);
    }
  }

  lemma NoBytes(files: seq<File>)
    requires files == []
    ensures TotalFileSize(files) == 0
  {
  }

  lemma CuttingStarts(r: Rules, input: seq<Entry>)
    ensures Cutting(r, input, [], [], 0, 0, 0) && Tracks(r, input, 0, 0, false, 0)
  {
  }

  /** An output is closed for a reason known now. */
  lemma CutOne(r: Rules, input: seq<Entry>, outputs: seq<File>, builder: seq<Entry>, first: nat, last: nat, i: nat, number: nat)
    requires Sorted(input) && CutRight(r, input, outputs) && builder != [] && CutInTime(r, builder)
    requires first <= last < i <= |input| && builder[0] == input[first] && builder[|builder| - 1] == input[last]
    requires outputs != [] ==> CutForNow(r, input, outputs[|outputs| - 1], first)
    ensures CutRight(r, input, outputs + [FileOf(builder, number, r.tableSize)])
  {
    hide Sorted, CutInTime, Less, Passed, LastStop;
    var more := outputs + [FileOf(builder, number, r.tableSize)];
    if outputs != [] && outputs[|outputs| - 1].size < r.sizeLimit {
      var s :| StopsAt(r, input, s) && Less(outputs[|outputs| - 1].largest, input[s].key) && s <= first;
      KeysInOrder(input, s, first);
    }
    forall k | 0 < k < |more| ensures CutForReason(r, input, more[k - 1], more[k].smallest) {
      if k < |outputs| {
        assert CutForReason(r, input, outputs[k - 1], outputs[k].smallest);
      }
    }
  }

  /** Entry `i` is next, and what had to be cut before it has been. */
  ghost predicate BeforeEntry(r: Rules, input: seq<Entry>, outputs: seq<File>, builder: seq<Entry>, first: nat, last: nat, i: nat) {
    i < |input| && Cutting(r, input, outputs, builder, first, last, i) && (builder != [] ==> LastStop(r, input, i) <= first)
  }

  lemma CutBefore(r: Rules, input: seq<Entry>, outputs: seq<File>, builder: seq<Entry>, first: nat, last: nat, i: nat, number: nat, stop: bool)
    requires Sorted(input) && i < |input| && Cutting(r, input, outputs, builder, first, last, i)
    requires stop <==> StopsAt(r, input, i)
    ensures !stop ==> BeforeEntry(r, input, outputs, builder, first, last, i)
    ensures stop && builder == [] ==> BeforeEntry(r, input, outputs, [], first, last, i)
    ensures stop && builder != [] ==> BeforeEntry(r, input, outputs + [FileOf(builder, number, r.tableSize)], [], first, last, i)
  {
    hide Sorted, CutInTime, Less, Passed, CutRight;
    if stop && builder != [] {
      CutOne(r, input, outputs, builder, first, last, i, number);
      KeysInOrder(input, last, i);
      assert CutForNow(r, input, FileOf(builder, number, r.tableSize), i);
    }
  }

  lemma Dropping(r: Rules, input: seq<Entry>, outputs: seq<File>, builder: seq<Entry>, first: nat, last: nat, i: nat)
    requires BeforeEntry(r, input, outputs, builder, first, last, i)
    ensures Cutting(r, input, outputs, builder, first, last, i + 1)
  {
    hide CutInTime, Less, CutRight;
  }

  lemma SinceStop(r: Rules, input: seq<Entry>, i: nat)
    requires i < |input|
    ensures Passed(r.grandparents, input[LastStop(r, input, i)].key, input[i].key) <= r.overlapLimit
  {
    hide Leading, TotalFileSize;
    var at := Leading(r.grandparents, input[i].key);
    NoBytes(r.grandparents[at..at]);
  }

  lemma Adding(r: Rules, input: seq<Entry>, outputs: seq<File>, builder: seq<Entry>, first: nat, last: nat, i: nat, number: nat)
    requires Sorted(input) && BeforeEntry(r, input, outputs, builder, first, last, i)
    ensures var more := builder + [input[i]];
      && (r.tableSize(more) < r.sizeLimit ==> Cutting(r, input, outputs, more, if builder == [] then i else first, i, i + 1))
      && (r.tableSize(more) >= r.sizeLimit ==> Cutting(r, input, outputs + [FileOf(more, number, r.tableSize)], [], first, last, i + 1))
  {
    hide Sorted, Less, Passed, CutRight, LastStop;
    var more, first' := builder + [input[i]], if builder == [] then i else first;
    SinceStop(r, input, i);
    KeysInOrder(input, LastStop(r, input, i), first');
    KeysInOrder(input, first', i);
    KeysInOrder(input, i, i);
    PassedLess(r.grandparents, input[LastStop(r, input, i)].key, input[first'].key, input[i].key, input[i].key);
    forall k | 0 < k < |more| ensures r.tableSize(more[..k]) < r.sizeLimit {
      assert more[..k] == builder[..k];
      assert builder[..|builder|] == builder;
    }
    assert CutInTime(r, more);
    hide CutInTime;
    CutOne(r, input, outputs, more, first', i, i + 1, number);
  }

  lemma CuttingEnds(r: Rules, input: seq<Entry>, outputs: seq<File>, builder: seq<Entry>, first: nat, last: nat, number: nat)
    requires Sorted(input) && Cutting(r, input, outputs, builder, first, last, |input|)
    ensures CutRight(r, input, if builder != [] then outputs + [FileOf(builder, number, r.tableSize)] else outputs)
  {
    hide Sorted, Less, Passed, CutRight, LastStop, CutInTime, CutForNow;
    if builder != [] {
      CutOne(r, input, outputs, builder, first, last, |input|, number);
    }
  }

  /** The entries among the first `n` that survive, in order. */
  ghost function Survivors(v: Version, level: nat, input: seq<Entry>, snapshot: nat, n: nat): seq<Entry>
    requires n <= |input|
  {
    if n == 0 then []
    else
      var rest := Survivors(v, level, input, snapshot, n - 1);
      if Dropped(v, level, input, n - 1, snapshot) then rest else rest + [input[n - 1]]
  }

  function Flatten(files: seq<File>): seq<Entry> {
    if files == [] then [] else Flatten(files[..|files| - 1]) + files[|files| - 1].entries
  }

  /** An output describes its own entries. */
  ghost predicate Labelled(f: File) {
    f.entries != [] && f.smallest == f.entries[0].key && f.largest == f.entries[|f.entries| - 1].key
  }

  ghost predicate Numbered(files: seq<File>, first: nat) {
    forall i :: 0 <= i < |files| ==> files[i].number == first + i && Labelled(files[i])
  }

  /** The two drop rules, given the sequence number of the entry before for the same user key. */
  method ShouldDrop(compaction: Compaction, key: IKey, lastSequenceForKey: nat, snapshot: nat, ghost lastSequence: nat) returns (drop: bool)
    requires compaction.Valid() && (compaction.asked.Some? ==> compaction.asked.value <= key.user)
    requires forall l :: compaction.level + 2 <= l < NUM_LEVELS ==> Row(compaction.version[l], lastSequence)
    modifies compaction`asked, compaction.levelPtrs
    ensures compaction.Valid() && (compaction.asked.Some? ==> compaction.asked.value <= key.user)
    ensures drop <==>
      || lastSequenceForKey <= snapshot
      || (key.kind.Deletion? && key.seqno <= snapshot && IsBase(compaction.version, compaction.level, key.user))
  {
    hide Row, IsBase;
    if lastSequenceForKey <= snapshot {
      drop := true;
    } else if key.kind.Deletion? && key.seqno <= snapshot {
      drop := compaction.IsBaseLevelForKey(key.user, lastSequence);
    } else {
      drop := false;
    }
  }

  /** ShouldStopBefore for entry `i`, when it was asked for every entry before. */
  method StopBefore(compaction: Compaction, ghost r: Rules, input: seq<Entry>, i: nat) returns (stop: bool)
    requires compaction.Valid() && Sorted(input) && i < |input|
    requires r.grandparents == compaction.grandparents && r.overlapLimit == compaction.maxGrandparentOverlap
    requires Tracks(r, input, i, compaction.grandparentIndex, compaction.seenKey, compaction.overlappedBytes)
    modifies compaction`grandparentIndex, compaction`seenKey, compaction`overlappedBytes
    ensures compaction.Valid() && (stop <==> StopsAt(r, input, i))
    ensures Tracks(r, input, i + 1, compaction.grandparentIndex, compaction.seenKey, compaction.overlappedBytes)
  {
    hide Sorted, Tracks, StopsAt, PassedOnly, TotalFileSize;
    ghost var index, seen, bytes := compaction.grandparentIndex, compaction.seenKey, compaction.overlappedBytes;
    stop := compaction.ShouldStopBefore(input[i].key);
    StopIs(r, input, i, index, seen, bytes, compaction.grandparentIndex, compaction.Counted(bytes, seen, index, compaction.grandparentIndex));
  }

  /** The entry goes to the output in progress, which is closed when it is large enough. */
  method AddEntry(ghost r: Rules, input: seq<Entry>, outputs: seq<File>, builder: seq<Entry>, ghost first: nat, ghost last: nat, i: nat,
                  maxOutputFileSize: nat, nextFile: nat, tableSize: seq<Entry> -> nat)
    returns (outputs': seq<File>, builder': seq<Entry>, ghost first': nat, ghost last': nat)
    requires Sorted(input) && BeforeEntry(r, input, outputs, builder, first, last, i) && Numbered(outputs, nextFile)
    requires r.tableSize == tableSize && r.sizeLimit == maxOutputFileSize
    ensures Cutting(r, input, outputs', builder', first', last', i + 1) && Numbered(outputs', nextFile)
    ensures i < |input| && Flatten(outputs') + builder' == Flatten(outputs) + builder + [input[i]]
  {
    hide Sorted, Cutting, Numbered, Flatten, FileOf;
    first', last' := if builder == [] then i else first, i;
    Adding(r, input, outputs, builder, first, last, i, nextFile + |outputs|);
    builder' := builder + [input[i]];
    var full := tableSize(builder') >= maxOutputFileSize;
    outputs', builder' := FinishOutput(outputs, builder', full, nextFile, tableSize);
    if full {
      first', last' := first, last;
    }
  }

  /** DoCompactionWork: one pass over the merged input, dropping and cutting as it goes. */
  method DoCompactionWork(compaction: Compaction, input: seq<Entry>, snapshot: nat, maxOutputFileSize: nat,
                          tableSize: seq<Entry> -> nat, nextFile: nat, ghost lastSequence: nat)
    returns (outputs: seq<File>)
    requires compaction.Valid() && compaction.asked == None && snapshot < MAX_SEQUENCE
    requires !compaction.seenKey && compaction.grandparentIndex == compaction.overlappedBytes == 0
    requires forall l :: compaction.level + 2 <= l < NUM_LEVELS ==> Row(compaction.version[l], lastSequence)
    requires Sorted(input)
    modifies compaction, compaction.levelPtrs
    ensures Flatten(outputs) == Survivors(compaction.version, compaction.level, input, snapshot, |input|)
    ensures Numbered(outputs, nextFile)
    ensures CutRight(Rules(compaction.grandparents, compaction.maxGrandparentOverlap, tableSize, maxOutputFileSize), input, outputs)
  {
    hide Row, IsBase, Numbered, PassedOnly, Sorted, Flatten, Survivors, Dropped, Cutting, Tracks, BeforeEntry, CutRight, StopsAt, FileOf, Compaction.Valid;
    ghost var v, level := compaction.version, compaction.level;
    outputs := [];
    var builder: seq<Entry> := [];
    var currentUserKey: Option<UserKey> := None;
    var lastSequenceForKey := MAX_SEQUENCE;
    NoneNumbered(nextFile);
    NoneSurvive(v, level, input, snapshot);
    ghost var r := Rules(compaction.grandparents, compaction.maxGrandparentOverlap, tableSize, maxOutputFileSize);
    ghost var first: nat, last: nat := 0, 0;
    CuttingStarts(r, input);
    for i := 0 to |input|
      invariant compaction.Valid() && compaction.levelPtrs == old(compaction.levelPtrs)
      invariant compaction.asked.Some? ==> i > 0 && compaction.asked.value <= input[i - 1].key.user
      invariant i == 0 ==> currentUserKey == None
      invariant i > 0 ==> currentUserKey == Some(input[i - 1].key.user) && lastSequenceForKey == input[i - 1].key.seqno
      invariant Flatten(outputs) + builder == Survivors(v, level, input, snapshot, i)
      invariant Numbered(outputs, nextFile)
      invariant Cutting(r, input, outputs, builder, first, last, i)
      invariant Tracks(r, input, i, compaction.grandparentIndex, compaction.seenKey, compaction.overlappedBytes)
    {
      var key := input[i].key;
      SortedStep(input, i);
      SurvivorsStep(v, level, input, snapshot, i);
      var stop := StopBefore(compaction, r, input, i);
      CutBefore(r, input, outputs, builder, first, last, i, nextFile + |outputs|, stop);
      outputs, builder := FinishOutput(outputs, builder, stop, nextFile, tableSize);
      lastSequenceForKey := if currentUserKey == Some(key.user) then lastSequenceForKey else MAX_SEQUENCE;
      currentUserKey := Some(key.user);
      var drop := ShouldDrop(compaction, key, lastSequenceForKey, snapshot, lastSequence);
      lastSequenceForKey := key.seqno;
      if drop {
        Dropping(r, input, outputs, builder, first, last, i);
      } else {
        outputs, builder, first, last := AddEntry(r, input, outputs, builder, first, last, i, maxOutputFileSize, nextFile, tableSize);
      }
    }
    CuttingEnds(r, input, outputs, builder, first, last, nextFile + |outputs|);
    outputs, builder := FinishOutput(outputs, builder, true, nextFile, tableSize);
  }

  lemma SortedStep(input: seq<Entry>, i: nat)
    requires Sorted(input) && i < |input|
    ensures i > 0 ==> Before(input[i - 1].key, input[i].key)
  {}

  lemma NoneSurvive(v: Version, level: nat, input: seq<Entry>, snapshot: nat)
    ensures Survivors(v, level, input, snapshot, 0) == []
  {}

  /** One entry more: it is dropped or survives by the last sequence number seen for its key. */
  lemma SurvivorsStep(v: Version, level: nat, input: seq<Entry>, snapshot: nat, i: nat)
    requires i < |input| && snapshot < MAX_SEQUENCE
    ensures var key := input[i].key;
      var last := if i > 0 && input[i - 1].key.user == key.user then input[i - 1].key.seqno else MAX_SEQUENCE;
      var drop := last <= snapshot || (key.kind.Deletion? && key.seqno <= snapshot && IsBase(v, level, key.user));
      Survivors(v, level, input, snapshot, i + 1) == Survivors(v, level, input, snapshot, i) + if drop then [] else [input[i]]
  {
    hide IsBase;
  }

  lemma NoneNumbered(nextFile: nat)
    ensures Numbered([], nextFile) && Flatten([]) == []
  {}

  /** FinishCompactionOutputFile, when there is a table to close: it gets the next file number. */
  method FinishOutput(outputs: seq<File>, builder: seq<Entry>, cut: bool, nextFile: nat, tableSize: seq<Entry> -> nat)
    returns (outputs': seq<File>, builder': seq<Entry>)
    requires Numbered(outputs, nextFile)
    ensures Numbered(outputs', nextFile)
    ensures Flatten(outputs') + builder' == Flatten(outputs) + builder
    ensures builder' == if cut then [] else builder
    ensures outputs' == if cut && builder != [] then outputs + [FileOf(builder, nextFile + |outputs|, tableSize)] else outputs
  {
    outputs', builder' := outputs, builder;
    if cut && builder != [] {
      var f := FileOf(builder, nextFile + |outputs|, tableSize);
      outputs', builder' := outputs + [f], [];
      assert outputs'[..|outputs'| - 1] == outputs;
    }
  }

  /** Survivors are exactly the kept entries, in key order. */
  lemma {:induction false} SurvivorsSorted(v: Version, level: nat, input: seq<Entry>, snapshot: nat, n: nat)
    requires Sorted(input) && n <= |input|
    ensures Sorted(Survivors(v, level, input, snapshot, n))
    ensures forall e :: e in Survivors(v, level, input, snapshot, n) <==>
      exists i :: 0 <= i < n && input[i] == e && !Dropped(v, level, input, i, snapshot)
  {
    if n > 0 {
      SurvivorsSorted(v, level, input, snapshot, n - 1);
      var rest := Survivors(v, level, input, snapshot, n - 1);
      forall e | e in rest ensures Before(e.key, input[n - 1].key) {
        var i :| 0 <= i < n - 1 && input[i] == e && !Dropped(v, level, input, i, snapshot);
      }
      hide Dropped;
    }
  }

  lemma {:induction false} FlattenMembers(files: seq<File>, e: Entry)
    ensures e in Flatten(files) <==> Holds(files, e)
  {
    if files != [] {
      var n := |files| - 1;
      FlattenMembers(files[..n], e);
      assert files == files[..n] + [files[n]];
    }
  }

  lemma SortedParts(a: seq<Entry>, b: seq<Entry>)
    requires Sorted(a + b)
    ensures Sorted(a) && Sorted(b)
    ensures forall e, d :: e in a && d in b ==> Before(e.key, d.key)
  {
    assert forall i :: 0 <= i < |a| ==> (a + b)[i] == a[i];
    assert forall i :: 0 <= i < |b| ==> (a + b)[|a| + i] == b[i];
    forall i, j | 0 <= i < j < |b| ensures Before(b[i].key, b[j].key) {
      assert Before((a + b)[|a| + i].key, (a + b)[|a| + j].key);
    }
    forall e, d | e in a && d in b ensures Before(e.key, d.key) {
      var x :| 0 <= x < |a| && a[x] == e;
      var y :| 0 <= y < |b| && b[y] == d;
      assert Before((a + b)[x].key, (a + b)[|a| + y].key);
    }
  }

  ghost predicate InTurn(files: seq<File>) {
    forall i, j, e, d :: 0 <= i < j < |files| && e in files[i].entries && d in files[j].entries ==> Before(e.key, d.key)
  }

  /** Cutting a sorted run into files gives sorted files that follow one another. */
  lemma {:induction false} FlattenSorted(files: seq<File>)
    requires Sorted(Flatten(files))
    ensures forall i :: 0 <= i < |files| ==> Sorted(files[i].entries)
    ensures InTurn(files)
  {
    if files != [] {
      var n := |files| - 1;
      SortedParts(Flatten(files[..n]), files[n].entries);
      FlattenSorted(files[..n]);
      hide Sorted, Flatten;
      forall i, e, d | 0 <= i < n && e in files[i].entries && d in files[n].entries ensures Before(e.key, d.key) {
        assert files[..n][i] == files[i];
        FlattenMembers(files[..n], e);
      }
      InTurnGrows(files, n);
    }
  }

  lemma InTurnGrows(files: seq<File>, n: nat)
    requires n + 1 == |files| && InTurn(files[..n])
    requires forall i, e, d :: 0 <= i < n && e in files[i].entries && d in files[n].entries ==> Before(e.key, d.key)
    ensures InTurn(files)
  {
    forall i, j, e, d | 0 <= i < j < |files| && e in files[i].entries && d in files[j].entries ensures Before(e.key, d.key) {
      if j < n {
        assert files[..n][i] == files[i] && files[..n][j] == files[j];
      }
    }
  }

  /** What DoCompactionWork hands to the version edit is a good set of outputs. */
  lemma OutputsAreGood(v: Version, c: Inputs, input: seq<Entry>, snapshot: nat, outputs: seq<File>, lastSequence: nat, nextFile: nat)
    requires Shape(v, lastSequence, nextFile) && WellChosen(v, c) && Merged(c, input)
    requires Flatten(outputs) == Survivors(v, c.level, input, snapshot, |input|) && Numbered(outputs, nextFile)
    ensures GoodOutputs(v, c, outputs, lastSequence, nextFile + |outputs|)
    ensures OutputsKept(v, c, input, snapshot, outputs)
  {
    hide Shape, WellChosen, Dropped, Survivors, Flatten, Kept, OutputsKept, InTurn, Numbered, Sorted, InputEntry;
    assert Sorted(input);
    hide Merged;
    OutputsAreKept(v, c, input, snapshot, outputs);
    OutputsFromInputs(v, c, input, snapshot, outputs, lastSequence, nextFile);
    NumberedDisjoint(outputs, nextFile);
    hide Disjoint;
    OutputsFresh(v, c, outputs, lastSequence, nextFile);
  }

  lemma OutputsAreKept(v: Version, c: Inputs, input: seq<Entry>, snapshot: nat, outputs: seq<File>)
    requires Sorted(input) && Flatten(outputs) == Survivors(v, c.level, input, snapshot, |input|)
    ensures OutputsKept(v, c, input, snapshot, outputs) && InTurn(outputs)
    ensures forall o :: o in outputs ==> Sorted(o.entries)
  {
    hide Sorted;
    SurvivorsSorted(v, c.level, input, snapshot, |input|);
    FlattenSorted(outputs);
    hide Survivors, Flatten, InTurn;
    forall e ensures Holds(outputs, e) <==> Kept(v, c.level, input, snapshot, e) {
      FlattenMembers(outputs, e);
    }
  }

  lemma OutputsFromInputs(v: Version, c: Inputs, input: seq<Entry>, snapshot: nat, outputs: seq<File>, lastSequence: nat, nextFile: nat)
    requires Shape(v, lastSequence, nextFile) && WellChosen(v, c) && Merged(c, input)
    requires OutputsKept(v, c, input, snapshot, outputs)
    ensures forall o, e :: o in outputs && e in o.entries ==> InputEntry(c, e) && e.key.seqno <= lastSequence
  {
    forall o, e | o in outputs && e in o.entries ensures InputEntry(c, e) && e.key.seqno <= lastSequence {
      assert Holds(outputs, e);
      assert e in input;
      var l, f := InputFile(v, c, lastSequence, nextFile, e);
    }
  }

  lemma NumberedApart(outputs: seq<File>, nextFile: nat, i: nat, j: nat)
    requires Numbered(outputs, nextFile) && InTurn(outputs) && i < j < |outputs|
    ensures Before(outputs[i].largest, outputs[j].smallest) && outputs[i].number < outputs[j].number
  {
    assert Labelled(outputs[i]) && Labelled(outputs[j]);
    assert outputs[i].entries[|outputs[i].entries| - 1] in outputs[i].entries;
    assert outputs[j].entries[0] in outputs[j].entries;
  }

  lemma NumberedDisjoint(outputs: seq<File>, nextFile: nat)
    requires Numbered(outputs, nextFile) && InTurn(outputs)
    ensures Disjoint(outputs)
    ensures forall o, p :: o in outputs && p in outputs && o.number == p.number ==> o == p
    ensures forall o :: o in outputs ==> nextFile <= o.number < nextFile + |outputs| && Labelled(o)
  {
    hide InTurn;
    forall o, p | o in outputs && p in outputs
      ensures o != p ==> Apart(o, p)
      ensures o.number == p.number ==> o == p
    {
      var i: nat :| i < |outputs| && outputs[i] == o;
      var j: nat :| j < |outputs| && outputs[j] == p;
      if i < j {
        NumberedApart(outputs, nextFile, i, j);
      } else if j < i {
        NumberedApart(outputs, nextFile, j, i);
      }
    }
  }

  lemma OutputsFresh(v: Version, c: Inputs, outputs: seq<File>, lastSequence: nat, nextFile: nat)
    requires Shape(v, lastSequence, nextFile) && Disjoint(outputs)
    requires forall o :: o in outputs ==> Sorted(o.entries) && Labelled(o) && nextFile <= o.number < nextFile + |outputs|
    requires forall o, e :: o in outputs && e in o.entries ==> InputEntry(c, e) && e.key.seqno <= lastSequence
    requires forall o, p :: o in outputs && p in outputs && o.number == p.number ==> o == p
    ensures GoodOutputs(v, c, outputs, lastSequence, nextFile + |outputs|)
  {
    hide LevelsByAge, Level0ByAge, LevelsSorted, NumbersDistinct, Sorted, Disjoint, InputEntry;
  }
}
