/** What an iterator over the store reads (DBImpl::NewInternalIterator, Version::AddIterators). */
module StoreIteration {
  import opened Format
  import opened Versions
  import opened Steps
  import opened CompactionReads
  import opened Overlap
  import opened Picking
  import opened Compacting
  import opened Merger
  import opened InputIteration
  import opened States

  ghost predicate Held(children: seq<seq<Entry>>, e: Entry) {
    exists i :: 0 <= i < |children| && e in children[i]
  }

  /** The children can be merged and hold exactly these entries. */
  ghost predicate Gathered(children: seq<seq<Entry>>, es: iset<Entry>) {
    Mergeable(children) && forall e :: e in es <==> Held(children, e)
  }

  ghost predicate ApartFrom(child: seq<Entry>, es: iset<Entry>) {
    forall d, e :: d in es && e in child ==> Before(d.key, e.key) || Before(e.key, d.key)
  }

  ghost function EntriesOf(es: seq<Entry>): iset<Entry> {
    iset e: Entry | e in es
  }

  lemma Gather(children: seq<seq<Entry>>, es: iset<Entry>, child: seq<Entry>)
    requires Gathered(children, es) && Sorted(child) && ApartFrom(child, es)
    ensures Gathered(children + [child], es + EntriesOf(child))
  {
    var more := children + [child];
    forall i, k, e | 0 <= i < k < |more| && e in more[k] ensures Comparable(more[i], e) {
      if k == |children| {
        forall d: Entry | d in more[i] ensures Before(d.key, e.key) || Before(e.key, d.key) {
          assert Held(children, d);
        }
      } else {
        assert e in children[k];
      }
    }
    forall e ensures e in es + EntriesOf(child) <==> Held(more, e) {
      if Held(children, e) {
        var i :| 0 <= i < |children| && e in children[i];
        assert e in more[i];
      }
      if e in child {
        assert e in more[|children|];
      }
    }
  }

  /** The memtables, the levels above `l`, and the first `n` files of level `l`. */
  ghost function Upper(s: State, l: nat, n: nat): iset<Entry>
    requires l < NUM_LEVELS ==> n <= |s.version[l]|
  {
    iset e: Entry | e in s.mem || e in ImmEntries(s) || (exists m :: 0 <= m < NUM_LEVELS && m < l && Holds(s.version[m], e)) || (l < NUM_LEVELS && Holds(s.version[l][..n], e))
  }

  lemma UpperWhole(s: State, l: nat)
    requires l < NUM_LEVELS
    ensures Upper(s, l, |s.version[l]|) == Upper(s, l + 1, 0)
  {
    assert s.version[l][..|s.version[l]|] == s.version[l];
    assert l + 1 < NUM_LEVELS ==> s.version[l + 1][..0] == [];
  }

  lemma UpperAll(s: State)
    ensures Upper(s, NUM_LEVELS, 0) == All(s)
  {
  }

  /** Level `l` is apart from everything above it. */
  lemma LevelApart(s: State, l: nat, n: nat, files: seq<File>, child: seq<Entry>)
    requires Inv(s) && l < NUM_LEVELS && n <= |s.version[l]| && Within(files, s.version[l])
    requires forall e :: e in child <==> Holds(files, e)
    requires forall f, i :: f in files && 0 <= i < n ==> s.version[l][i] != f
    ensures ApartFrom(child, Upper(s, l, n))
  {
    var v := s.version;
    hide Shape, SnapshotsOk;
    forall d, e | d in Upper(s, l, n) && e in child ensures Before(d.key, e.key) || Before(e.key, d.key) {
      var f :| f in files && e in f.entries;
      assert e in Contents(v);
      if m: nat :| m < l && Holds(v[m], d) {
        var g :| g in v[m] && d in g.entries;
        DifferentFiles(v, s.lastSequence, s.nextFile, m, g, l, f, d, e);
      } else if Holds(v[l][..n], d) {
        var g :| g in v[l][..n] && d in g.entries;
        DifferentFiles(v, s.lastSequence, s.nextFile, l, g, l, f, d, e);
      }
    }
  }

  /** The files' entries, level by level: one child per level-0 file, one per deeper level. */
  method AddIterators(v: Version, children: seq<seq<Entry>>, ghost s: State) returns (more: seq<seq<Entry>>)
    requires Inv(s) && s.version == v && Gathered(children, Upper(s, 0, 0))
    ensures Gathered(more, All(s))
  {
    more := children;
    hide Inv, Upper, Gathered;
    for i := 0 to |v[0]|
      invariant Gathered(more, Upper(s, 0, i))
    {
      AddFile(s, more, i);
      more := more + [v[0][i].entries];
    }
    UpperWhole(s, 0);
    for level := 1 to NUM_LEVELS
      invariant Gathered(more, Upper(s, level, 0))
    {
      if v[level] != [] {
        AddLevel(s, more, level);
        more := more + [Flatten(v[level])];
      } else {
        UpperWhole(s, level);
      }
    }
    UpperAll(s);
  }

  lemma UpperFile(s: State, i: nat)
    requires i < |s.version[0]|
    ensures Upper(s, 0, i + 1) == Upper(s, 0, i) + EntriesOf(s.version[0][i].entries)
  {
    assert s.version[0][..i + 1] == s.version[0][..i] + [s.version[0][i]];
  }

  lemma FileAlone(s: State, i: nat)
    requires Inv(s) && i < |s.version[0]|
    ensures Sorted(s.version[0][i].entries) && forall j :: 0 <= j < i ==> s.version[0][j] != s.version[0][i]
  {
    hide SnapshotsOk, NewerThan, UpTo, Sorted;
    var file := s.version[0][i];
    LevelFilesValid(s.version, s.lastSequence, s.nextFile, 0);
    assert Ordered(s.version[0]);
    hide Shape;
    forall j | 0 <= j < i ensures s.version[0][j] != file {
      assert FileOrder(s.version[0][j], file);
    }
  }

  lemma FileApart(s: State, i: nat)
    requires Inv(s) && i < |s.version[0]|
    ensures Sorted(s.version[0][i].entries) && ApartFrom(s.version[0][i].entries, Upper(s, 0, i))
  {
    hide Inv, Sorted, Upper, ApartFrom, FileOrder;
    var file := s.version[0][i];
    FileAlone(s, i);
    LevelApart(s, 0, i, [file], file.entries);
  }

  lemma AddFile(s: State, children: seq<seq<Entry>>, i: nat)
    requires Inv(s) && i < |s.version[0]| && Gathered(children, Upper(s, 0, i))
    ensures Gathered(children + [s.version[0][i].entries], Upper(s, 0, i + 1))
  {
    hide Inv, Gathered, Upper, Sorted, ApartFrom, EntriesOf;
    FileApart(s, i);
    UpperFile(s, i);
    Gather(children, Upper(s, 0, i), s.version[0][i].entries);
  }

  lemma UpperLevel(s: State, l: nat)
    requires l < NUM_LEVELS
    ensures Upper(s, l + 1, 0) == Upper(s, l, 0) + EntriesOf(Flatten(s.version[l]))
  {
    var level := s.version[l];
    forall e ensures e in Flatten(level) <==> Holds(level, e) {
      FlattenMembers(level, e);
    }
    assert level[..0] == [];
    assert l + 1 < NUM_LEVELS ==> s.version[l + 1][..0] == [];
  }

  lemma WholeLevelApart(s: State, l: nat)
    requires Inv(s) && 1 <= l < NUM_LEVELS
    ensures Sorted(Flatten(s.version[l])) && ApartFrom(Flatten(s.version[l]), Upper(s, l, 0))
  {
    var level := s.version[l];
    LevelFilesValid(s.version, s.lastSequence, s.nextFile, l);
    hide Shape, SnapshotsOk, Sorted, Upper, ApartFrom, Flatten, Contents;
    forall e ensures e in Flatten(level) <==> Holds(level, e) {
      FlattenMembers(level, e);
    }
    LevelApart(s, l, 0, level, Flatten(level));
    FlattenOrdered(level, s.lastSequence, level);
  }

  lemma AddLevel(s: State, children: seq<seq<Entry>>, l: nat)
    requires Inv(s) && 1 <= l < NUM_LEVELS && Gathered(children, Upper(s, l, 0))
    ensures Gathered(children + [Flatten(s.version[l])], Upper(s, l + 1, 0))
  {
    hide Inv, Gathered, Upper, Sorted, ApartFrom, EntriesOf, Flatten;
    WholeLevelApart(s, l);
    UpperLevel(s, l);
    Gather(children, Upper(s, l, 0), Flatten(s.version[l]));
  }

  lemma UpperMem(s: State)
    ensures Upper(s, 0, 0) == EntriesOf(s.mem) + EntriesOf(ImmEntries(s))
  {
    assert s.version[0][..0] == [];
  }

  lemma MemTablesApart(s: State)
    requires Inv(s)
    ensures Sorted(s.mem) && Sorted(ImmEntries(s)) && ApartFrom(ImmEntries(s), EntriesOf(s.mem))
  {
    hide Shape, SnapshotsOk, Contents, Sorted;
    forall d, e | d in s.mem && e in ImmEntries(s) ensures Before(d.key, e.key) || Before(e.key, d.key) {
      assert e in Below(s);
    }
  }

  /** The memtables come first. */
  lemma MemTables(s: State)
    requires Inv(s)
    ensures Gathered([s.mem] + if s.imm.Some? then [s.imm.value] else [], Upper(s, 0, 0))
  {
    MemTablesApart(s);
    UpperMem(s);
    assert Gathered([], iset{});
    hide Inv, Gathered, Upper, Sorted, ApartFrom;
    Gather([], iset{}, s.mem);
    assert [] + [s.mem] == [s.mem] && iset{} + EntriesOf(s.mem) == EntriesOf(s.mem);
    if s.imm.Some? {
      Gather([s.mem], EntriesOf(s.mem), s.imm.value);
    } else {
      assert [s.mem] + [] == [s.mem] && EntriesOf(s.mem) + EntriesOf([]) == EntriesOf(s.mem);
    }
  }

  lemma GatheredMerge(children: seq<seq<Entry>>, es: iset<Entry>)
    requires Gathered(children, es)
    ensures MergeOf(children, MergeAll(children)) && forall e :: e in es <==> e in MergeAll(children)
  {
    hide MergeOf, Mergeable;
    MergeExists(children);
    MergeAllSorted(children);
  }
}
