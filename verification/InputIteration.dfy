/** Reading the inputs of a compaction through one merging iterator (VersionSet::MakeInputIterator). */
module InputIteration {
  import opened Format
  import opened Versions
  import opened Steps
  import opened CompactionReads
  import opened Picking
  import opened Compacting
  import opened Merger

  /** One child per level-0 file, one concatenation per deeper level. */
  function Children0(c: Inputs): seq<seq<Entry>> {
    if c.level == 0 then seq(|c.inputs0|, i requires 0 <= i < |c.inputs0| => c.inputs0[i].entries) else [Flatten(c.inputs0)]
  }

  function Children1(c: Inputs): seq<seq<Entry>> {
    if c.inputs1 == [] then [] else [Flatten(c.inputs1)]
  }

  ghost predicate GoodInputs(v: Version, c: Inputs, lastSequence: nat, nextFile: nat) {
    && Shape(v, lastSequence, nextFile) && c.level + 1 < NUM_LEVELS
    && Within(c.inputs0, v[c.level]) && Within(c.inputs1, v[c.level + 1])
    && Ordered(c.inputs0) && Ordered(c.inputs1)
  }

  /** Files of a sorted level, taken in order, concatenate to a sorted run. */
  lemma {:induction false} FlattenOrdered(level: seq<File>, lastSequence: nat, files: seq<File>)
    requires Row(level, lastSequence) && Within(files, level) && Ordered(files)
    ensures Sorted(Flatten(files))
  {
    if files != [] {
      var n := |files| - 1;
      var init, last := files[..n], files[n];
      FlattenOrdered(level, lastSequence, init);
      assert last in files && ValidFile(last, lastSequence);
      forall e, d | e in Flatten(init) && d in last.entries ensures Before(e.key, d.key) {
        FlattenMembers(init, e);
        var f :| f in init && e in f.entries;
        var i :| 0 <= i < n && init[i] == f;
        assert f == files[i] && FileOrder(f, last);
        OrderedApart(level, lastSequence, f, last, e, d);
      }
      SortedJoin(Flatten(init), last.entries);
    }
  }

  lemma OrderedApart(level: seq<File>, lastSequence: nat, f: File, g: File, e: Entry, d: Entry)
    requires Row(level, lastSequence) && f in level && g in level && FileOrder(f, g)
    requires e in f.entries && d in g.entries
    ensures Before(e.key, d.key)
  {
    RowPair(level, lastSequence, f, g);
    hide Row;
    EntryInRange(f, lastSequence, e);
    EntryInRange(g, lastSequence, d);
  }

  lemma SortedJoin(a: seq<Entry>, b: seq<Entry>)
    requires Sorted(a) && Sorted(b) && forall e, d :: e in a && d in b ==> Before(e.key, d.key)
    ensures Sorted(a + b)
  {}

  /** Which file an entry of a child comes from. */
  lemma ChildEntry(c: Inputs, i: nat, e: Entry) returns (f: File)
    requires i < |Children0(c) + Children1(c)| && e in (Children0(c) + Children1(c))[i]
    ensures e in f.entries
    ensures if i < |Children0(c)| then f in c.inputs0 && (c.level == 0 ==> f == c.inputs0[i]) else f in c.inputs1
  {
    if i < |Children0(c)| {
      if c.level == 0 {
        f := c.inputs0[i];
      } else {
        FlattenMembers(c.inputs0, e);
        f :| f in c.inputs0 && e in f.entries;
      }
    } else {
      FlattenMembers(c.inputs1, e);
      f :| f in c.inputs1 && e in f.entries;
    }
  }

  lemma DifferentFiles(v: Version, lastSequence: nat, nextFile: nat, l: nat, f: File, m: nat, g: File, e: Entry, d: Entry)
    requires Shape(v, lastSequence, nextFile) && l <= m < NUM_LEVELS && f in v[l] && g in v[m]
    requires e in f.entries && d in g.entries && (l != m || f != g)
    ensures Before(e.key, d.key) || Before(d.key, e.key)
  {
    hide Shape;
    if e.key.user == d.key.user && e.key.seqno == d.key.seqno {
      FilesDistinct(v, lastSequence, nextFile, l, m, f, g, e, d);
    }
  }

  lemma ChildrenComparable(v: Version, c: Inputs, lastSequence: nat, nextFile: nat, i: nat, k: nat, e: Entry, d: Entry)
    requires GoodInputs(v, c, lastSequence, nextFile)
    requires i < k < |Children0(c) + Children1(c)|
    requires d in (Children0(c) + Children1(c))[i] && e in (Children0(c) + Children1(c))[k]
    ensures Before(d.key, e.key) || Before(e.key, d.key)
  {
    hide Shape, Flatten;
    var f := ChildEntry(c, i, d);
    var g := ChildEntry(c, k, e);
    if k < |Children0(c)| {
      assert FileOrder(c.inputs0[i], c.inputs0[k]);
      DifferentFiles(v, lastSequence, nextFile, c.level, f, c.level, g, d, e);
    } else if i < |Children0(c)| {
      DifferentFiles(v, lastSequence, nextFile, c.level, f, c.level + 1, g, d, e);
    } else {
      assert false;
    }
  }

  lemma ChildrenSorted(v: Version, c: Inputs, lastSequence: nat, nextFile: nat)
    requires GoodInputs(v, c, lastSequence, nextFile)
    ensures forall i :: 0 <= i < |Children0(c) + Children1(c)| ==> Sorted((Children0(c) + Children1(c))[i])
  {
    LevelFilesValid(v, lastSequence, nextFile, c.level);
    LevelFilesValid(v, lastSequence, nextFile, c.level + 1);
    hide Shape;
    if c.level > 0 {
      FlattenOrdered(v[c.level], lastSequence, c.inputs0);
    }
    FlattenOrdered(v[c.level + 1], lastSequence, c.inputs1);
    hide Flatten, Row, Sorted;
    forall f | f in c.inputs0 ensures Sorted(f.entries) {
      assert ValidFile(f, lastSequence);
    }
  }

  lemma ChildrenMergeable(v: Version, c: Inputs, lastSequence: nat, nextFile: nat)
    requires GoodInputs(v, c, lastSequence, nextFile)
    ensures Mergeable(Children0(c) + Children1(c))
  {
    ChildrenSorted(v, c, lastSequence, nextFile);
    var children := Children0(c) + Children1(c);
    hide GoodInputs, Sorted, Children0, Children1;
    forall i: nat, k: nat, e: Entry | i < k < |children| && e in children[k] ensures Comparable(children[i], e) {
      forall d: Entry | d in children[i] ensures Before(d.key, e.key) || Before(e.key, d.key) {
        ChildrenComparable(v, c, lastSequence, nextFile, i, k, e, d);
      }
    }
  }

  lemma ChildrenHoldInputs(c: Inputs, e: Entry)
    ensures (exists i :: 0 <= i < |Children0(c) + Children1(c)| && e in (Children0(c) + Children1(c))[i]) <==> InputEntry(c, e)
  {
    var children := Children0(c) + Children1(c);
    if i: nat :| i < |children| && e in children[i] {
      var f := ChildEntry(c, i, e);
      assert Holds(c.inputs0, e) || Holds(c.inputs1, e);
    }
    if Holds(c.inputs0, e) {
      if c.level == 0 {
        var f :| f in c.inputs0 && e in f.entries;
        var i :| 0 <= i < |c.inputs0| && c.inputs0[i] == f;
        assert e in children[i];
      } else {
        FlattenMembers(c.inputs0, e);
        assert e in children[0];
      }
    }
    if Holds(c.inputs1, e) {
      FlattenMembers(c.inputs1, e);
      assert e in children[|Children0(c)|];
    }
  }

  lemma InputsMerge(v: Version, c: Inputs, lastSequence: nat, nextFile: nat)
    requires GoodInputs(v, c, lastSequence, nextFile)
    ensures MergeOf(Children0(c) + Children1(c), MergeAll(Children0(c) + Children1(c)))
    ensures Merged(c, MergeAll(Children0(c) + Children1(c)))
  {
    var children := Children0(c) + Children1(c);
    ChildrenMergeable(v, c, lastSequence, nextFile);
    hide GoodInputs, Mergeable, Sorted, Children0, Children1, InputEntry, MergeOf, MergeAll;
    MergeExists(children);
    MergeAllSorted(children);
    forall e ensures e in MergeAll(children) <==> InputEntry(c, e) {
      ChildrenHoldInputs(c, e);
    }
  }

  /** MakeInputIterator, read from SeekToFirst to the end: the merged input of the compaction. */
  method ReadInputs(v: Version, c: Inputs, ghost lastSequence: nat, ghost nextFile: nat) returns (input: seq<Entry>)
    requires GoodInputs(v, c, lastSequence, nextFile)
    ensures Merged(c, input)
  {
    InputsMerge(v, c, lastSequence, nextFile);
    hide GoodInputs, Merged;
    input := Drain(Children0(c) + Children1(c), MergeAll(Children0(c) + Children1(c)));
  }
}
