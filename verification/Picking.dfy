/** Choosing the inputs of a compaction (VersionSet::PickCompaction, CompactRange, SetupOtherInputs). */
module Picking {
  import opened Format
  import opened Versions
  import opened Steps
  import opened CompactionReads
  import opened Overlap

  /** A file that starts beyond `key` with the same user key. */
  predicate IsBoundary(f: File, key: IKey) {
    Less(key, f.smallest) && f.smallest.user == key.user
  }

  /** `key` is the largest key of the files. */
  ghost predicate Top(files: seq<File>, key: IKey) {
    && (exists f :: f in files && f.largest == key)
    && forall f :: f in files ==> !Less(key, f.largest)
  }

  ghost predicate Bottom(files: seq<File>, key: IKey) {
    && (exists f :: f in files && f.smallest == key)
    && forall f :: f in files ==> !Less(f.smallest, key)
  }

  lemma OneTop(files: seq<File>, key: IKey, other: IKey)
    requires Top(files, key) && Top(files, other)
    ensures key == other
  {
  }

  lemma OneBottom(files: seq<File>, key: IKey, other: IKey)
    requires Bottom(files, key) && Bottom(files, other)
    ensures key == other
  {
  }

  method FindLargestKey(files: seq<File>) returns (key: Option<IKey>)
    ensures files == [] ==> key == None
    ensures files != [] ==> key.Some? && Top(files, key.value)
  {
    if files == [] {
      return None;
    }
    var largest := files[0].largest;
    for i := 1 to |files|
      invariant exists j :: 0 <= j < i && files[j].largest == largest
      invariant forall j :: 0 <= j < i ==> !Less(largest, files[j].largest)
    {
      if Less(largest, files[i].largest) {
        largest := files[i].largest;
      }
    }
    key := Some(largest);
  }

  method FindSmallestBoundaryFile(levelFiles: seq<File>, key: IKey) returns (found: Option<File>)
    ensures found == None ==> forall f :: f in levelFiles ==> !IsBoundary(f, key)
    ensures found.Some? ==> found.value in levelFiles && IsBoundary(found.value, key)
    ensures found.Some? ==> forall f :: f in levelFiles && IsBoundary(f, key) ==> !Less(f.smallest, found.value.smallest)
  {
    found := None;
    for i := 0 to |levelFiles|
      invariant found == None ==> forall j :: 0 <= j < i ==> !IsBoundary(levelFiles[j], key)
      invariant found.Some? ==> found.value in levelFiles && IsBoundary(found.value, key)
      invariant found.Some? ==> forall j :: 0 <= j < i && IsBoundary(levelFiles[j], key) ==> !Less(levelFiles[j].smallest, found.value.smallest)
    {
      var f := levelFiles[i];
      if IsBoundary(f, key) {
        if found == None || Less(f.smallest, found.value.smallest) {
          found := Some(f);
        }
      }
    }
  }

  predicate Between(f: File, g: File, h: File) {
    !Less(g.smallest, f.smallest) && !Less(h.smallest, g.smallest)
  }

  /** Every file of the level between two chosen files is chosen. */
  ghost predicate Convex(levelFiles: seq<File>, chosen: seq<File>) {
    forall f, g, h :: f in chosen && h in chosen && g in levelFiles && Between(f, g, h) ==> g in chosen
  }

  ghost predicate Within(chosen: seq<File>, levelFiles: seq<File>) {
    forall f :: f in chosen ==> f in levelFiles
  }

  /** No file is left behind that is older than a chosen file for a key they share. */
  ghost predicate Settled(levelFiles: seq<File>, chosen: seq<File>) {
    forall f, g :: f in chosen && g in levelFiles && g !in chosen ==> Newer(g, f)
  }

  lemma RowPair(files: seq<File>, lastSequence: nat, f: File, g: File)
    requires Row(files, lastSequence) && f in files && g in files
    ensures ValidFile(f, lastSequence) && ValidFile(g, lastSequence)
    ensures f != g ==> Apart(f, g)
    ensures !Less(f.largest, f.smallest) && !Less(g.largest, g.smallest)
  {
    EntryInRange(f, lastSequence, f.entries[0]);
    EntryInRange(g, lastSequence, g.entries[0]);
  }

  /** A file no further than the next boundary file is at most the current top, or is that file. */
  lemma UpToBoundary(levelFiles: seq<File>, lastSequence: nat, m: File, b: File, g: File)
    requires Row(levelFiles, lastSequence) && m in levelFiles && b in levelFiles && g in levelFiles
    requires IsBoundary(b, m.largest)
    requires forall f :: f in levelFiles && IsBoundary(f, m.largest) ==> !Less(f.smallest, b.smallest)
    requires !Less(b.smallest, g.smallest)
    ensures g == b || !Less(m.smallest, g.smallest)
  {
    RowPair(levelFiles, lastSequence, g, m);
    RowPair(levelFiles, lastSequence, g, b);
  }

  lemma ConvexGrows(levelFiles: seq<File>, lastSequence: nat, chosen: seq<File>, top: IKey, b: File)
    requires Row(levelFiles, lastSequence) && Within(chosen, levelFiles) && Convex(levelFiles, chosen) && Top(chosen, top)
    requires b in levelFiles && IsBoundary(b, top)
    requires forall f :: f in levelFiles && IsBoundary(f, top) ==> !Less(f.smallest, b.smallest)
    ensures Convex(levelFiles, chosen + [b])
  {
    var m :| m in chosen && m.largest == top;
    forall f, g, h | f in chosen + [b] && h in chosen + [b] && g in levelFiles && Between(f, g, h)
      ensures g in chosen + [b]
    {
      RowPair(levelFiles, lastSequence, f, h);
      RowPair(levelFiles, lastSequence, g, b);
      if h == b {
        UpToBoundary(levelFiles, lastSequence, m, b, g);
      }
      hide Row, Top, Apart;
      var between := Between(f, g, m);
    }
  }

  ghost function Beyond(files: seq<File>, key: IKey): set<File> {
    set f | f in files && Less(key, f.smallest)
  }

  /** Files in order, each with its smallest key no later than its largest. */
  ghost predicate Tidy(files: seq<File>) {
    Ordered(files) && forall f :: f in files ==> !Less(f.largest, f.smallest)
  }

  lemma TidyGrows(files: seq<File>, top: IKey, b: File)
    requires Top(files, top) && Less(top, b.smallest) && !Less(b.largest, b.smallest)
    ensures Tidy(files) ==> Tidy(files + [b])
  {
    if Tidy(files) {
      forall f | f in files ensures FileOrder(f, b) {}
    }
  }

  /** The boundary file to add to the files chosen so far. */
  ghost predicate IsNextBoundary(levelFiles: seq<File>, chosen: seq<File>, b: File) {
    exists t :: Top(chosen, t) && b in levelFiles && IsBoundary(b, t) &&
      forall f :: f in levelFiles && IsBoundary(f, t) ==> !Less(f.smallest, b.smallest)
  }

  /** `to` is `from` and then boundary files, each the next one. */
  ghost predicate Following(levelFiles: seq<File>, from: seq<File>, to: seq<File>) {
    from <= to && forall i :: |from| <= i < |to| ==> IsNextBoundary(levelFiles, to[..i], to[i])
  }

  /** They are followed until there is no more. */
  ghost predicate Followed(levelFiles: seq<File>, from: seq<File>, to: seq<File>) {
    && Following(levelFiles, from, to)
    && (forall b, t :: b in levelFiles && Top(to, t) ==> !IsBoundary(b, t))
  }

  /** AddBoundaryInputs: follow user keys that straddle file boundaries until none does. */
  method AddBoundaryInputs(levelFiles: seq<File>, compactionFiles: seq<File>, ghost lastSequence: nat)
    returns (result: seq<File>, ghost top: IKey)
    requires forall f :: f in levelFiles ==> !Less(f.largest, f.smallest)
    requires compactionFiles != []
    ensures compactionFiles <= result
    ensures Within(compactionFiles, levelFiles) ==> Within(result, levelFiles)
    ensures Top(result, top) && forall f :: f in levelFiles ==> !IsBoundary(f, top)
    ensures result == compactionFiles || exists b, t :: b in levelFiles && Top(compactionFiles, t) && IsBoundary(b, t)
    ensures Row(levelFiles, lastSequence) && Within(compactionFiles, levelFiles) && Convex(levelFiles, compactionFiles) ==>
      Convex(levelFiles, result)
    ensures Tidy(compactionFiles) ==> Tidy(result)
    ensures Followed(levelFiles, compactionFiles, result)
  {
    hide Row, Convex, Tidy, Following, Top, IsNextBoundary;
    StartsFollowing(levelFiles, compactionFiles);
    result := compactionFiles;
    var largest := FindLargestKey(compactionFiles);
    var key := largest.value;
    var searching := true;
    while searching
      invariant compactionFiles <= result
      invariant Within(compactionFiles, levelFiles) ==> Within(result, levelFiles)
      invariant Top(result, key)
      invariant !searching ==> forall f :: f in levelFiles ==> !IsBoundary(f, key)
      invariant result == compactionFiles || exists b, t :: b in levelFiles && Top(compactionFiles, t) && IsBoundary(b, t)
      invariant Row(levelFiles, lastSequence) && Within(compactionFiles, levelFiles) && Convex(levelFiles, compactionFiles) ==>
        Convex(levelFiles, result)
      invariant Tidy(compactionFiles) ==> Tidy(result)
      invariant Following(levelFiles, compactionFiles, result)
      decreases searching, Beyond(levelFiles, key)
    {
      var boundary := FindSmallestBoundaryFile(levelFiles, key);
      if boundary.Some? {
        var b := boundary.value;
        if Row(levelFiles, lastSequence) && Within(compactionFiles, levelFiles) && Convex(levelFiles, compactionFiles) {
          ConvexGrows(levelFiles, lastSequence, result, key, b);
        }
        TidyGrows(result, key, b);
        OneMoreBoundary(levelFiles, compactionFiles, result, key, b);
        result := result + [b];
        assert b in Beyond(levelFiles, key) && b !in Beyond(levelFiles, b.largest);
        key := b.largest;
      } else {
        searching := false;
      }
    }
    top := key;
    LastBoundary(levelFiles, result, top);
  }

  lemma StartsFollowing(levelFiles: seq<File>, from: seq<File>)
    ensures Following(levelFiles, from, from)
  {
  }

  lemma OneMoreBoundary(levelFiles: seq<File>, from: seq<File>, chosen: seq<File>, top: IKey, b: File)
    requires Following(levelFiles, from, chosen)
    requires Top(chosen, top) && b in levelFiles && IsBoundary(b, top) && !Less(b.largest, b.smallest)
    requires forall f :: f in levelFiles && IsBoundary(f, top) ==> !Less(f.smallest, b.smallest)
    ensures Following(levelFiles, from, chosen + [b]) && Top(chosen + [b], b.largest)
  {
    var more := chosen + [b];
    assert IsNextBoundary(levelFiles, chosen, b);
    assert Top(more, b.largest) by {
      assert b in more;
    }
    hide IsNextBoundary, Top, IsBoundary;
    forall i | |from| <= i < |more| ensures IsNextBoundary(levelFiles, more[..i], more[i]) {
      assert more[..i] == chosen[..i];
      assert chosen[..|chosen|] == chosen;
    }
  }

  lemma LastBoundary(levelFiles: seq<File>, chosen: seq<File>, top: IKey)
    requires Top(chosen, top) && forall f :: f in levelFiles ==> !IsBoundary(f, top)
    ensures forall b, t :: b in levelFiles && Top(chosen, t) ==> !IsBoundary(b, t)
  {
    forall b, t | b in levelFiles && Top(chosen, t) ensures !IsBoundary(b, t) {
      OneTop(chosen, t, top);
    }
  }

  /** Every file added begins with the user key another chosen file ends with. */
  lemma FollowedIsReached(levelFiles: seq<File>, from: seq<File>, to: seq<File>, f: File)
    requires Followed(levelFiles, from, to) && f in to && f !in from
    ensures f in levelFiles && exists g :: g in to && IsBoundary(f, g.largest)
  {
    hide IsBoundary, IsNextBoundary;
    var i: nat :| i < |to| && to[i] == f;
    assert forall k :: 0 <= k < |from| ==> to[k] == from[k] && to[k] in from;
    Reached(levelFiles, to[..i], f);
    var g :| g in to[..i] && IsBoundary(f, g.largest);
    assert g in to;
  }

  lemma Reached(levelFiles: seq<File>, chosen: seq<File>, b: File)
    requires IsNextBoundary(levelFiles, chosen, b)
    ensures b in levelFiles && exists g :: g in chosen && IsBoundary(b, g.largest)
  {
    hide IsBoundary;
    var t :| Top(chosen, t) && IsBoundary(b, t);
    var g :| g in chosen && g.largest == t;
  }

  /** In a sorted level, choosing consecutive files up to no boundary leaves nothing older behind. */
  lemma ConvexIsSettled(levelFiles: seq<File>, lastSequence: nat, chosen: seq<File>, top: IKey)
    requires Row(levelFiles, lastSequence) && Within(chosen, levelFiles) && Convex(levelFiles, chosen)
    requires Top(chosen, top) && forall f :: f in levelFiles ==> !IsBoundary(f, top)
    ensures Settled(levelFiles, chosen)
  {
    var m :| m in chosen && m.largest == top;
    forall f, g | f in chosen && g in levelFiles && g !in chosen ensures Newer(g, f) {
      forall e, d | e in g.entries && d in f.entries && e.key.user == d.key.user ensures e.key.seqno > d.key.seqno {
        RowPair(levelFiles, lastSequence, g, f);
        RowPair(levelFiles, lastSequence, g, m);
        EntryInRange(g, lastSequence, e);
        EntryInRange(f, lastSequence, d);
        hide Row, ValidFile, Within;
        var between := Between(f, g, m);
      }
    }
  }

  /** At level 0, a choice closed under overlap shares no user key with the files left behind. */
  lemma ClosedIsSettled(files: seq<File>, lastSequence: nat, lo: Option<UserKey>, hi: Option<UserKey>)
    requires forall f :: f in files ==> ValidFile(f, lastSequence)
    requires Closed(files, lo, hi)
    ensures Settled(files, Select(files, lo, hi))
  {
    forall f, g | f in Select(files, lo, hi) && g in files && g !in Select(files, lo, hi) ensures Newer(g, f) {
      forall e, d | e in g.entries && d in f.entries ensures e.key.user != d.key.user {
        EntryInRange(g, lastSequence, e);
        EntryInRange(f, lastSequence, d);
      }
    }
  }

  /** A closed choice already contains every file that starts with its last user key. */
  lemma ClosedHasNoBoundary(files: seq<File>, lo: Option<UserKey>, hi: Option<UserKey>, b: File, top: IKey)
    requires Closed(files, lo, hi) && Top(Select(files, lo, hi), top)
    requires b in files && !Less(b.largest, b.smallest)
    ensures !IsBoundary(b, top)
  {
    var m :| m in Select(files, lo, hi) && m.largest == top;
    assert IsBoundary(b, top) ==> InRange(b, lo, hi);
  }

  lemma SelectConvex(files: seq<File>, lastSequence: nat, lo: Option<UserKey>, hi: Option<UserKey>)
    requires Row(files, lastSequence)
    ensures Convex(files, Select(files, lo, hi))
  {
    forall f, g, h | f in Select(files, lo, hi) && h in Select(files, lo, hi) && g in files && Between(f, g, h)
      ensures g in Select(files, lo, hi)
    {
      RowPair(files, lastSequence, f, g);
      RowPair(files, lastSequence, g, h);
    }
  }

  /** GetRange. */
  method GetRange(files: seq<File>) returns (smallest: IKey, largest: IKey)
    requires files != []
    ensures Bottom(files, smallest) && Top(files, largest)
  {
    smallest, largest := files[0].smallest, files[0].largest;
    for i := 1 to |files|
      invariant exists j :: 0 <= j < i && files[j].smallest == smallest
      invariant exists j :: 0 <= j < i && files[j].largest == largest
      invariant forall j :: 0 <= j < i ==> !Less(files[j].smallest, smallest)
      invariant forall j :: 0 <= j < i ==> !Less(largest, files[j].largest)
    {
      var f := files[i];
      if Less(f.smallest, smallest) {
        smallest := f.smallest;
      }
      if Less(largest, f.largest) {
        largest := f.largest;
      }
    }
  }

  function TotalFileSize(files: seq<File>): nat {
    if files == [] then 0 else TotalFileSize(files[..|files| - 1]) + files[|files| - 1].size
  }

  lemma {:induction false} SizesAdd(a: seq<File>, b: seq<File>)
    ensures TotalFileSize(a + b) == TotalFileSize(a) + TotalFileSize(b)
    ensures |a| == 1 ==> TotalFileSize(a) == a[0].size
    decreases |b|
  {
    if b == [] {
      assert a + b == a;
    } else {
      var n := |b| - 1;
      SizesAdd(a, b[..n]);
      assert (a + b)[..|a| + n] == a + b[..n];
    }
  }

  /** What the first choice of files has to be: closed under overlap at level 0, consecutive below. */
  ghost predicate Startable(v: Version, level: nat, start: seq<File>)
    requires level < NUM_LEVELS
  {
    && start != [] && Within(start, v[level]) && Ordered(start)
    && (level == 0 ==> exists lo, hi :: Closed(v[0], lo, hi) && start == Select(v[0], lo, hi))
    && (level > 0 ==> Convex(v[level], start))
  }

  /** AddBoundaryInputs turns any start into a choice that leaves nothing older behind. */
  method Settle(v: Version, level: nat, start: seq<File>, ghost lastSequence: nat, ghost nextFile: nat) returns (files: seq<File>)
    requires Shape(v, lastSequence, nextFile) && level < NUM_LEVELS && Startable(v, level, start)
    ensures start <= files && Within(files, v[level]) && Settled(v[level], files) && Ordered(files)
    ensures Followed(v[level], start, files)
  {
    LevelFilesValid(v, lastSequence, nextFile, level);
    hide Shape;
    ghost var top;
    files, top := AddBoundaryInputs(v[level], start, lastSequence);
    if level == 0 {
      ghost var lo, hi :| Closed(v[0], lo, hi) && start == Select(v[0], lo, hi);
      forall b, t | b in v[0] && Top(start, t) ensures !IsBoundary(b, t) {
        ClosedHasNoBoundary(v[0], lo, hi, b, t);
      }
      ClosedIsSettled(v[0], lastSequence, lo, hi);
    } else {
      ConvexIsSettled(v[level], lastSequence, files, top);
    }
  }

  lemma LevelFilesValid(v: Version, lastSequence: nat, nextFile: nat, level: nat)
    requires Shape(v, lastSequence, nextFile) && level < NUM_LEVELS
    ensures forall f :: f in v[level] ==> ValidFile(f, lastSequence) && !Less(f.largest, f.smallest)
    ensures level > 0 ==> Row(v[level], lastSequence)
  {
    forall f | f in v[level] ensures ValidFile(f, lastSequence) && !Less(f.largest, f.smallest) {
      EntryInRange(f, lastSequence, f.entries[0]);
    }
  }

  lemma ChosenWell(v: Version, level: nat, inputs0: seq<File>, inputs1: seq<File>, smallest: IKey, largest: IKey)
    requires level + 1 < NUM_LEVELS && inputs0 != [] && Within(inputs0, v[level]) && Settled(v[level], inputs0)
    requires Bottom(inputs0, smallest) && Top(inputs0, largest)
    requires inputs1 == Select(v[level + 1], Some(smallest.user), Some(largest.user))
    ensures var c := Inputs(level, inputs0, inputs1, smallest.user, largest.user); WellChosen(v, c) && Describes(v, c)
  {}

  lemma RangeCovers(files: seq<File>, more: seq<File>, smallest: IKey, largest: IKey, smallest': IKey, largest': IKey)
    requires Bottom(files, smallest) && Top(files, largest) && Bottom(more, smallest') && Top(more, largest')
    requires Within(files, more)
    ensures Wider(Some(smallest.user), Some(largest.user), Some(smallest'.user), Some(largest'.user))
  {}

  /** The files of a level a range selects; at level 0 it grows until it is closed under overlap. */
  ghost predicate Overlapping(files: seq<File>, level: nat, begin: Option<UserKey>, end: Option<UserKey>, inputs: seq<File>) {
    && (level > 0 ==> inputs == Select(files, begin, end))
    && (level == 0 ==> exists lo, hi :: LeastClosed(files, begin, end, lo, hi) && inputs == Select(files, lo, hi))
  }

  /** Growing the choice at `level` by everything the whole range covers. */
  method Expand(v: Version, level: nat, inputs0: seq<File>, lo: UserKey, hi: UserKey, ghost lastSequence: nat, ghost nextFile: nat)
    returns (expanded0: seq<File>)
    requires Shape(v, lastSequence, nextFile) && level < NUM_LEVELS && inputs0 != [] && Within(inputs0, v[level])
    requires forall f :: f in inputs0 ==> InRange(f, Some(lo), Some(hi))
    ensures Within(expanded0, v[level]) && Settled(v[level], expanded0) && Within(inputs0, expanded0) && expanded0 != []
    ensures Ordered(expanded0)
    ensures exists files :: Overlapping(v[level], level, Some(lo), Some(hi), files) && Followed(v[level], files, expanded0)
  {
    LevelFilesValid(v, lastSequence, nextFile, level);
    assert Ordered(v[level]);
    hide Shape;
    ghost var l, h;
    expanded0, l, h := GetOverlappingInputs(v[level], level, Some(lo), Some(hi));
    forall f | f in inputs0 ensures f in expanded0 {
      assert InRange(f, Some(lo), Some(hi));
    }
    assert inputs0[0] in expanded0;
    if level > 0 {
      SelectConvex(v[level], lastSequence, l, h);
    }
    SelectOrdered(v[level], l, h);
    var start := expanded0;
    assert Overlapping(v[level], level, Some(lo), Some(hi), start);
    expanded0 := Settle(v, level, start, lastSequence, nextFile);
    forall f | f in start ensures f in expanded0 {}
  }

  /** The inputs of the next level are all the files the chosen range overlaps. */
  method Complete(v: Version, level: nat, inputs0: seq<File>, ghost lastSequence: nat, ghost nextFile: nat) returns (c: Inputs)
    requires Shape(v, lastSequence, nextFile) && level + 1 < NUM_LEVELS
    requires inputs0 != [] && Within(inputs0, v[level]) && Settled(v[level], inputs0)
    ensures c.level == level && c.inputs0 == inputs0 && WellChosen(v, c) && Describes(v, c) && Ordered(c.inputs1)
  {
    LevelFilesValid(v, lastSequence, nextFile, level + 1);
    assert Ordered(v[level + 1]);
    hide Shape, WellChosen, Describes, Settled, Within, ValidFile, Row, Top, Bottom, Ordered;
    var smallest, largest := GetRange(inputs0);
    var inputs1, lo, hi := GetOverlappingInputs(v[level + 1], level + 1, Some(smallest.user), Some(largest.user));
    ChosenWell(v, level, inputs0, inputs1, smallest, largest);
    SelectOrdered(v[level + 1], lo, hi);
    c := Inputs(level, inputs0, inputs1, smallest.user, largest.user);
  }

  /** The range is that of the files at the level, and the next level's inputs are what overlaps it. */
  ghost predicate Describes(v: Version, c: Inputs) {
    && c.level + 1 < NUM_LEVELS && c.inputs1 == Select(v[c.level + 1], Some(c.lo), Some(c.hi))
    && exists s, l :: Bottom(c.inputs0, s) && Top(c.inputs0, l) && s.user == c.lo && l.user == c.hi
  }

  lemma OneDescribed(v: Version, c: Inputs, d: Inputs)
    requires Describes(v, c) && Describes(v, d) && c.level == d.level && c.inputs0 == d.inputs0
    ensures c == d
  {
    var s, l :| Bottom(c.inputs0, s) && Top(c.inputs0, l) && s.user == c.lo && l.user == c.hi;
    var s', l' :| Bottom(d.inputs0, s') && Top(d.inputs0, l') && s'.user == d.lo && l'.user == d.hi;
    OneBottom(c.inputs0, s, s');
    OneTop(c.inputs0, l, l');
  }

  /** `s` and `l` are the least and the greatest key of all inputs. */
  ghost predicate Spans(c: Inputs, s: IKey, l: IKey) {
    Bottom(c.inputs0 + c.inputs1, s) && Top(c.inputs0 + c.inputs1, l)
  }

  /** What the choice at the level could grow to. */
  ghost predicate Expansion(v: Version, c: Inputs, expanded: seq<File>) {
    c.level < NUM_LEVELS && exists s, l, files ::
      Spans(c, s, l) && Overlapping(v[c.level], c.level, Some(s.user), Some(l.user), files) && Followed(v[c.level], files, expanded)
  }

  /** It adds files, and all the inputs stay below the size limit. */
  ghost predicate MayGrow(c: Inputs, expanded: seq<File>, maxFileSize: nat) {
    |expanded| > |c.inputs0| && TotalFileSize(c.inputs1) + TotalFileSize(expanded) < 25 * maxFileSize
  }

  /** The expansion is taken exactly when it may grow and selects as many files of the next level. */
  ghost predicate Widened(v: Version, narrow: Inputs, c: Inputs, maxFileSize: nat) {
    if narrow.inputs1 == [] then c == narrow
    else exists expanded :: Expansion(v, narrow, expanded) && TakenIfCheap(v, narrow, expanded, c, maxFileSize)
  }

  ghost predicate TakenIfCheap(v: Version, narrow: Inputs, expanded: seq<File>, c: Inputs, maxFileSize: nat) {
    if MayGrow(narrow, expanded, maxFileSize) then WideIfSame(v, narrow, expanded, c) else c == narrow
  }

  ghost predicate WideIfSame(v: Version, narrow: Inputs, expanded: seq<File>, c: Inputs) {
    exists wide: Inputs :: wide.level == narrow.level && wide.inputs0 == expanded && Describes(v, wide) &&
      c == if |wide.inputs1| == |narrow.inputs1| then wide else narrow
  }

  /** What SetupOtherInputs makes of a start: boundary files follow, the next level's files are what
      the range overlaps, and the choice grows if that is cheap. */
  ghost predicate Picked(v: Version, level: nat, start: seq<File>, maxFileSize: nat, c: Inputs) {
    level < NUM_LEVELS && c.level == level && exists narrow: Inputs ::
      narrow.level == level && Followed(v[level], start, narrow.inputs0) && Describes(v, narrow) && Widened(v, narrow, c, maxFileSize)
  }

  /** An input is in the start, or begins with the last key of another one, or all the inputs
      together are below the expansion limit. */
  ghost predicate Accounted(c: Inputs, start: seq<File>, f: File, maxFileSize: nat) {
    || f in start || (exists g :: g in c.inputs0 && IsBoundary(f, g.largest))
    || TotalFileSize(c.inputs0) + TotalFileSize(c.inputs1) < 25 * maxFileSize
  }

  lemma PickedIsBounded(v: Version, level: nat, start: seq<File>, maxFileSize: nat, c: Inputs, f: File, lastSequence: nat, nextFile: nat)
    requires Shape(v, lastSequence, nextFile) && level < NUM_LEVELS && Within(start, v[level])
    requires Picked(v, level, start, maxFileSize, c) && f in c.inputs0
    ensures Accounted(c, start, f, maxFileSize)
  {
    hide *;
    var narrow := PickedNarrow(v, level, start, maxFileSize, c);
    if c == narrow {
      if f !in start {
        FollowedIsReached(v[level], start, c.inputs0, f);
      }
    } else {
      LevelFilesValid(v, lastSequence, nextFile, level);
      FollowedWithin(v[level], start, narrow.inputs0);
      WidenedIsSmall(v, narrow, c, maxFileSize);
    }
    AccountFor(c, start, f, maxFileSize);
  }

  lemma AccountFor(c: Inputs, start: seq<File>, f: File, maxFileSize: nat)
    requires f in start || (exists g :: g in c.inputs0 && IsBoundary(f, g.largest)) ||
      TotalFileSize(c.inputs0) + TotalFileSize(c.inputs1) < 25 * maxFileSize
    ensures Accounted(c, start, f, maxFileSize)
  {
  }

  lemma PickedNarrow(v: Version, level: nat, start: seq<File>, maxFileSize: nat, c: Inputs) returns (narrow: Inputs)
    requires Picked(v, level, start, maxFileSize, c)
    ensures level < NUM_LEVELS && c.level == narrow.level == level
    ensures Followed(v[level], start, narrow.inputs0) && Describes(v, narrow) && Widened(v, narrow, c, maxFileSize)
  {
    hide Followed, Describes, Widened;
    narrow :| narrow.level == level && Followed(v[level], start, narrow.inputs0) && Describes(v, narrow) && Widened(v, narrow, c, maxFileSize);
  }

  lemma WidenedIsSmall(v: Version, narrow: Inputs, c: Inputs, maxFileSize: nat)
    requires Widened(v, narrow, c, maxFileSize) && c != narrow && Describes(v, narrow)
    requires narrow.level < NUM_LEVELS && Within(narrow.inputs0, v[narrow.level]) && forall f :: f in v[narrow.level] ==> !Less(f.largest, f.smallest)
    ensures TotalFileSize(c.inputs0) + TotalFileSize(c.inputs1) < 25 * maxFileSize
  {
    hide Expansion, TotalFileSize, Within, Describes, Less;
    var expanded :| Expansion(v, narrow, expanded) && TakenIfCheap(v, narrow, expanded, c, maxFileSize);
    ExpansionHolds(v, narrow, expanded);
    var wide: Inputs :| wide.level == narrow.level && wide.inputs0 == expanded && Describes(v, wide) && c == if |wide.inputs1| == |narrow.inputs1| then wide else narrow;
    SameInputs1(v, narrow, wide);
  }

  lemma FollowedWithin(levelFiles: seq<File>, from: seq<File>, to: seq<File>)
    requires Followed(levelFiles, from, to) && Within(from, levelFiles)
    ensures Within(to, levelFiles) && Within(from, to)
  {
    forall f | f in to ensures f in levelFiles {
      if f !in from {
        FollowedIsReached(levelFiles, from, to, f);
      }
    }
  }

  lemma InsideRange(levelFiles: seq<File>, files: seq<File>, more: seq<File>, smallest: IKey, largest: IKey)
    requires Bottom(more, smallest) && Top(more, largest) && files <= more
    requires Within(files, levelFiles) && forall f :: f in levelFiles ==> !Less(f.largest, f.smallest)
    ensures forall f :: f in files ==> InRange(f, Some(smallest.user), Some(largest.user))
  {
  }

  lemma ChosenFacts(v: Version, c: Inputs)
    requires WellChosen(v, c)
    ensures c.inputs0 != [] && c.level + 1 < NUM_LEVELS && Within(c.inputs0, v[c.level]) && Within(c.inputs0, c.inputs0)
    ensures c.inputs0 <= c.inputs0 + c.inputs1
  {
  }

  lemma ExpansionHolds(v: Version, c: Inputs, expanded: seq<File>)
    requires Expansion(v, c, expanded) && Within(c.inputs0, v[c.level]) && forall f :: f in v[c.level] ==> !Less(f.largest, f.smallest)
    ensures Within(c.inputs0, expanded)
  {
    hide Followed, LeastClosed, Less;
    var s, l, files :| Spans(c, s, l) && Overlapping(v[c.level], c.level, Some(s.user), Some(l.user), files) && Followed(v[c.level], files, expanded);
    InsideRange(v[c.level], c.inputs0, c.inputs0 + c.inputs1, s, l);
    forall f | f in c.inputs0 ensures f in files {
      if c.level == 0 {
        var lo, hi :| LeastClosed(v[0], Some(s.user), Some(l.user), lo, hi) && files == Select(v[0], lo, hi);
        LeastClosedWider(v[0], Some(s.user), Some(l.user), lo, hi);
      }
    }
    FollowedPrefix(v[c.level], files, expanded);
  }

  lemma LeastClosedWider(files: seq<File>, begin: Option<UserKey>, end: Option<UserKey>, lo: Option<UserKey>, hi: Option<UserKey>)
    requires LeastClosed(files, begin, end, lo, hi)
    ensures forall f :: InRange(f, begin, end) ==> InRange(f, lo, hi)
  {
  }

  lemma FollowedPrefix(levelFiles: seq<File>, from: seq<File>, to: seq<File>)
    requires Followed(levelFiles, from, to)
    ensures Within(from, to)
  {
  }

  lemma SameInputs1(v: Version, narrow: Inputs, wide: Inputs)
    requires Describes(v, narrow) && Describes(v, wide) && narrow.level == wide.level
    requires Within(narrow.inputs0, wide.inputs0) && |wide.inputs1| == |narrow.inputs1|
    ensures wide.inputs1 == narrow.inputs1
  {
    var s, l :| Bottom(narrow.inputs0, s) && Top(narrow.inputs0, l) && s.user == narrow.lo && l.user == narrow.hi;
    var s', l' :| Bottom(wide.inputs0, s') && Top(wide.inputs0, l') && s'.user == wide.lo && l'.user == wide.hi;
    RangeCovers(narrow.inputs0, wide.inputs0, s, l, s', l');
    SelectWider(v[narrow.level + 1], Some(narrow.lo), Some(narrow.hi), Some(wide.lo), Some(wide.hi));
  }

  lemma ExpansionIs(v: Version, c: Inputs, s: IKey, l: IKey, expanded: seq<File>)
    requires c.level < NUM_LEVELS && Bottom(c.inputs0 + c.inputs1, s) && Top(c.inputs0 + c.inputs1, l)
    requires exists files :: Overlapping(v[c.level], c.level, Some(s.user), Some(l.user), files) && Followed(v[c.level], files, expanded)
    ensures Expansion(v, c, expanded)
  {
    hide Overlapping, Followed, Bottom, Top;
    assert Spans(c, s, l);
  }

  lemma WideIs(v: Version, narrow: Inputs, wide: Inputs, c: Inputs)
    requires wide.level == narrow.level && Describes(v, wide) && c == if |wide.inputs1| == |narrow.inputs1| then wide else narrow
    ensures WideIfSame(v, narrow, wide.inputs0, c)
  {
    hide Describes;
  }

  /** The expansion: grow the choice at `level` if the number of next-level inputs stays the same. */
  method Widen(v: Version, narrow: Inputs, maxFileSize: nat, ghost lastSequence: nat, ghost nextFile: nat) returns (c: Inputs)
    requires Shape(v, lastSequence, nextFile) && WellChosen(v, narrow) && Describes(v, narrow)
    requires Ordered(narrow.inputs0) && Ordered(narrow.inputs1)
    ensures c.level == narrow.level && WellChosen(v, c) && Ordered(c.inputs0) && Ordered(c.inputs1)
    ensures Within(narrow.inputs0, c.inputs0) && c.inputs1 == narrow.inputs1 && Describes(v, c)
    ensures Widened(v, narrow, c, maxFileSize)
  {
    hide *;
    var level := narrow.level;
    ChosenFacts(v, narrow);
    LevelFilesValid(v, lastSequence, nextFile, level);
    c := narrow;
    var allStart, allLimit := GetRange(narrow.inputs0 + narrow.inputs1);
    if narrow.inputs1 != [] {
      InsideRange(v[level], narrow.inputs0, narrow.inputs0 + narrow.inputs1, allStart, allLimit);
      var expanded0 := Expand(v, level, narrow.inputs0, allStart.user, allLimit.user, lastSequence, nextFile);
      ExpansionIs(v, narrow, allStart, allLimit, expanded0);
      if |expanded0| > |narrow.inputs0| && TotalFileSize(narrow.inputs1) + TotalFileSize(expanded0) < 25 * maxFileSize {
        var wide := Complete(v, level, expanded0, lastSequence, nextFile);
        if |wide.inputs1| == |narrow.inputs1| {
          SameInputs1(v, narrow, wide);
          c := wide;
        }
        WideIs(v, narrow, wide, c);
      }
      WidenedIs(v, narrow, expanded0, c, maxFileSize);
    } else {
      NotWidened(v, narrow, maxFileSize);
    }
  }

  lemma WidenedIs(v: Version, narrow: Inputs, expanded: seq<File>, c: Inputs, maxFileSize: nat)
    requires narrow.inputs1 != [] && Expansion(v, narrow, expanded)
    requires if |expanded| > |narrow.inputs0| && TotalFileSize(narrow.inputs1) + TotalFileSize(expanded) < 25 * maxFileSize
      then WideIfSame(v, narrow, expanded, c) else c == narrow
    ensures Widened(v, narrow, c, maxFileSize)
  {
    hide Expansion, WideIfSame, TotalFileSize;
    assert TakenIfCheap(v, narrow, expanded, c, maxFileSize);
  }

  lemma NotWidened(v: Version, c: Inputs, maxFileSize: nat)
    requires c.inputs1 == []
    ensures Widened(v, c, c, maxFileSize)
  {
  }

  /** SetupOtherInputs.  Taking the expansion never changes the next level's inputs. */
  method SetupOtherInputs(v: Version, level: nat, start: seq<File>, maxFileSize: nat, ghost lastSequence: nat, ghost nextFile: nat)
    returns (c: Inputs, ghost narrow: Inputs)
    requires Shape(v, lastSequence, nextFile) && level + 1 < NUM_LEVELS && Startable(v, level, start)
    ensures c.level == level && WellChosen(v, c) && Ordered(c.inputs0) && Ordered(c.inputs1)
    ensures narrow.level == level && WellChosen(v, narrow) && Within(start, narrow.inputs0)
    ensures Within(narrow.inputs0, c.inputs0) && c.inputs1 == narrow.inputs1 && Describes(v, c)
    ensures Picked(v, level, start, maxFileSize, c)
  {
    hide Shape, WellChosen, Settled, Describes, Followed, Widened;
    var inputs0 := Settle(v, level, start, lastSequence, nextFile);
    assert start[0] in inputs0;
    var chosen := Complete(v, level, inputs0, lastSequence, nextFile);
    narrow := chosen;
    c := Widen(v, chosen, maxFileSize, lastSequence, nextFile);
  }

  ghost predicate IsGrandparent(v: Version, c: Inputs, f: File, g: File) {
    c.level + 2 < NUM_LEVELS && g in v[c.level + 2] && InRange(g, Some(f.smallest.user), Some(f.largest.user))
  }

  /** What the whole compaction overlaps two levels down. */
  ghost predicate AreGrandparents(v: Version, c: Inputs, grandparents: seq<File>) {
    if c.level + 2 < NUM_LEVELS then exists s, l :: Spans(c, s, l) && grandparents == Select(v[c.level + 2], Some(s.user), Some(l.user))
    else grandparents == []
  }

  lemma SameGrandparents(v: Version, c: Inputs, a: seq<File>, b: seq<File>)
    requires AreGrandparents(v, c, a) && AreGrandparents(v, c, b)
    ensures a == b
  {
    if c.level + 2 < NUM_LEVELS {
      var s, l :| Spans(c, s, l) && a == Select(v[c.level + 2], Some(s.user), Some(l.user));
      var s', l' :| Spans(c, s', l') && b == Select(v[c.level + 2], Some(s'.user), Some(l'.user));
      OneBottom(c.inputs0 + c.inputs1, s, s');
      OneTop(c.inputs0 + c.inputs1, l, l');
    }
  }

  /** IsTrivialMove: one file, nothing to merge with, and little two levels down. */
  ghost predicate Trivial(v: Version, c: Inputs, maxFileSize: nat) {
    |c.inputs0| == 1 && c.inputs1 == [] && exists gs :: AreGrandparents(v, c, gs) && TotalFileSize(gs) <= 10 * maxFileSize
  }

  lemma TrivialIs(v: Version, c: Inputs, grandparents: seq<File>, maxFileSize: nat)
    requires AreGrandparents(v, c, grandparents)
    ensures Trivial(v, c, maxFileSize) <==> |c.inputs0| == 1 && c.inputs1 == [] && TotalFileSize(grandparents) <= 10 * maxFileSize
  {
    hide AreGrandparents, TotalFileSize;
    if Trivial(v, c, maxFileSize) {
      var gs :| AreGrandparents(v, c, gs) && TotalFileSize(gs) <= 10 * maxFileSize;
      SameGrandparents(v, c, gs, grandparents);
    }
  }

  /** The grandparents: all files two levels down that the whole compaction overlaps. */
  method Grandparents(v: Version, c: Inputs, ghost lastSequence: nat, ghost nextFile: nat) returns (grandparents: seq<File>)
    requires Shape(v, lastSequence, nextFile) && WellChosen(v, c)
    ensures forall f, g :: (f in c.inputs0 || f in c.inputs1) && IsGrandparent(v, c, f, g) ==> g in grandparents
    ensures AreGrandparents(v, c, grandparents)
  {
    grandparents := [];
    if c.level + 2 < NUM_LEVELS {
      LevelFilesValid(v, lastSequence, nextFile, c.level + 2);
      assert c.inputs0 != [];
      hide Shape, WellChosen;
      var allStart, allLimit := GetRange(c.inputs0 + c.inputs1);
      ghost var lo, hi;
      grandparents, lo, hi := GetOverlappingInputs(v[c.level + 2], c.level + 2, Some(allStart.user), Some(allLimit.user));
      assert Spans(c, allStart, allLimit);
      forall f, g | (f in c.inputs0 || f in c.inputs1) && IsGrandparent(v, c, f, g)
        ensures g in grandparents
      {
        assert f in c.inputs0 + c.inputs1;
      }
    }
  }

  /** The whole of SetupOtherInputs: inputs, grandparents and the next compaction pointer. */
  method ChooseInputs(v: Version, level: nat, start: seq<File>, maxFileSize: nat, ghost lastSequence: nat, ghost nextFile: nat)
    returns (c: Inputs, grandparents: seq<File>, pointer: IKey)
    requires Shape(v, lastSequence, nextFile) && level + 1 < NUM_LEVELS && Startable(v, level, start)
    ensures c.level == level && WellChosen(v, c) && Ordered(c.inputs0) && Ordered(c.inputs1)
    ensures Within(start, c.inputs0) && Top(c.inputs0, pointer) && Describes(v, c)
    ensures Picked(v, level, start, maxFileSize, c) && AreGrandparents(v, c, grandparents)
  {
    hide Shape, WellChosen, Startable, Ordered, IsGrandparent, Top, Bottom, Describes, Picked, AreGrandparents;
    var chosen, narrow := SetupOtherInputs(v, level, start, maxFileSize, lastSequence, nextFile);
    c := chosen;
    ChosenFacts(v, c);
    grandparents := Grandparents(v, c, lastSequence, nextFile);
    var smallest, largest := GetRange(c.inputs0);
    pointer := largest;
  }

  predicate IsPast(f: File, pointer: Option<IKey>) {
    pointer == None || Less(pointer.value, f.largest)
  }

  ghost predicate IsFirstPast(files: seq<File>, pointer: Option<IKey>, i: int) {
    0 <= i < |files| && IsPast(files[i], pointer) && forall j :: 0 <= j < i ==> !IsPast(files[j], pointer)
  }

  /** The file to compact next: the first past the pointer, or the first of all. */
  ghost predicate IsNext(files: seq<File>, pointer: Option<IKey>, f: File) {
    || (exists i :: IsFirstPast(files, pointer, i) && f == files[i])
    || (files != [] && f == files[0] && forall i :: 0 <= i < |files| ==> !IsPast(files[i], pointer))
  }

  /** PickCompaction's choice of the first file past the compaction pointer, wrapping around. */
  method FirstPast(files: seq<File>, pointer: Option<IKey>) returns (f: File)
    requires files != []
    ensures f in files && IsNext(files, pointer, f)
  {
    for i := 0 to |files|
      invariant forall j :: 0 <= j < i ==> !IsPast(files[j], pointer)
    {
      if IsPast(files[i], pointer) {
        assert IsFirstPast(files, pointer, i);
        return files[i];
      }
    }
    f := files[0];
  }

  /** The file, and at level 0 every file that overlaps it or one taken already. */
  ghost predicate StartsWith(v: Version, level: nat, f: File, start: seq<File>) {
    level < NUM_LEVELS && if level > 0 then start == [f] else Overlapping(v[0], 0, Some(f.smallest.user), Some(f.largest.user), start)
  }

  /** PickCompaction, for a file chosen by size or by seeks: at level 0 take all files that overlap it. */
  method StartFrom(v: Version, level: nat, f: File, ghost lastSequence: nat, ghost nextFile: nat) returns (start: seq<File>)
    requires Shape(v, lastSequence, nextFile) && level < NUM_LEVELS && f in v[level]
    ensures Startable(v, level, start) && f in start && StartsWith(v, level, f, start)
  {
    LevelFilesValid(v, lastSequence, nextFile, level);
    assert Ordered(v[level]);
    hide Shape;
    start := [f];
    if level == 0 {
      var smallest, largest := GetRange(start);
      ghost var lo, hi;
      start, lo, hi := GetOverlappingInputs(v[0], 0, Some(smallest.user), Some(largest.user));
      assert InRange(f, lo, hi);
      SelectOrdered(v[0], lo, hi);
    } else {
      forall g | g in v[level] && Between(f, g, f) ensures g == f {
        RowPair(v[level], lastSequence, g, f);
      }
    }
  }

  lemma {:induction false} SelectOrdered(files: seq<File>, lo: Option<UserKey>, hi: Option<UserKey>)
    requires Ordered(files)
    ensures Ordered(Select(files, lo, hi))
  {
    if files != [] {
      var n := |files| - 1;
      SelectOrdered(files[..n], lo, hi);
      forall f | f in files[..n] ensures FileOrder(f, files[n]) {}
    }
  }

  /** The first files up to a total size: one more than what stays below it, or all. */
  ghost predicate CutOff(files: seq<File>, limit: nat, start: seq<File>) {
    && start <= files
    && (start == files || (start != [] && TotalFileSize(start) >= limit))
    && (|start| > 1 ==> TotalFileSize(start[..|start| - 1]) < limit)
  }

  method CutAt(inputs: seq<File>, limit: nat) returns (start: seq<File>)
    ensures CutOff(inputs, limit, start) && (start == [] <==> inputs == [])
  {
    start := inputs;
    var total, i := 0, 0;
    while i < |inputs|
      invariant i <= |inputs| && total == TotalFileSize(inputs[..i]) && (i > 0 ==> total < limit)
    {
      assert inputs[..i + 1][..i] == inputs[..i];
      total := total + inputs[i].size;
      if total >= limit {
        start := inputs[..i + 1];
        return;
      }
      i := i + 1;
    }
    if inputs != [] {
      ShorterIsSmaller(inputs);
    }
    assert inputs[..i] == inputs;
  }

  lemma ShorterIsSmaller(files: seq<File>)
    requires files != []
    ensures TotalFileSize(files[..|files| - 1]) <= TotalFileSize(files)
  {
  }

  /** The overlapping files of the level, below level 0 up to the size limit. */
  ghost predicate StartsInRange(v: Version, level: nat, begin: Option<UserKey>, end: Option<UserKey>, limit: nat, start: seq<File>) {
    level < NUM_LEVELS && exists files :: Overlapping(v[level], level, begin, end, files) && if level > 0 then CutOff(files, limit, start) else start == files
  }

  /** The start of a manual compaction: the overlapping files, cut off once they are large enough. */
  method StartRange(v: Version, level: nat, begin: Option<UserKey>, end: Option<UserKey>, limit: nat, ghost lastSequence: nat, ghost nextFile: nat)
    returns (start: seq<File>)
    requires Shape(v, lastSequence, nextFile) && level < NUM_LEVELS
    ensures start == [] || Startable(v, level, start)
    ensures start == [] <==> forall f :: f in v[level] ==> !InRange(f, begin, end)
    ensures level > 0 ==> CutOff(Select(v[level], begin, end), limit, start)
    ensures level == 0 ==> exists lo, hi :: LeastClosed(v[0], begin, end, lo, hi) && start == Select(v[0], lo, hi)
    ensures StartsInRange(v, level, begin, end, limit, start)
  {
    LevelFilesValid(v, lastSequence, nextFile, level);
    assert Ordered(v[level]);
    hide Shape;
    var inputs, lo, hi := GetOverlappingInputs(v[level], level, begin, end);
    SelectOrdered(v[level], lo, hi);
    start := inputs;
    assert Overlapping(v[level], level, begin, end, inputs);
    if level > 0 {
      start := CutAt(inputs, limit);
      PrefixConvex(v[level], lastSequence, lo, hi, start);
    }
    EmptyMeansNone(v[level], begin, end, lo, hi, inputs);
  }

  lemma EmptyMeansNone(files: seq<File>, begin: Option<UserKey>, end: Option<UserKey>, lo: Option<UserKey>, hi: Option<UserKey>, inputs: seq<File>)
    requires inputs == Select(files, lo, hi) && Wider(begin, end, lo, hi)
    requires (lo == begin && hi == end) || LeastClosed(files, begin, end, lo, hi)
    ensures inputs == [] <==> forall f :: f in files ==> !InRange(f, begin, end)
  {
    if inputs == [] {
      forall f | f in files ensures !InRange(f, begin, end) {
        assert f !in inputs;
      }
    } else {
      assert inputs[0] in inputs;
      if forall f :: f in files ==> !InRange(f, begin, end) {
        assert Closed(files, begin, end);
        assert Wider(lo, hi, begin, end);
      }
    }
  }

  lemma ApartStarts(files: seq<File>, lastSequence: nat, g: File, h: File)
    requires Row(files, lastSequence) && g in files && h in files && g != h
    ensures Less(g.smallest, h.smallest) || Less(h.smallest, g.smallest)
  {
    RowPair(files, lastSequence, g, h);
  }

  lemma PrefixConvex(files: seq<File>, lastSequence: nat, lo: Option<UserKey>, hi: Option<UserKey>, start: seq<File>)
    requires Row(files, lastSequence) && start <= Select(files, lo, hi)
    ensures Convex(files, start)
  {
    var inputs := Select(files, lo, hi);
    SelectConvex(files, lastSequence, lo, hi);
    SelectOrdered(files, lo, hi);
    hide Row, Select, Apart;
    forall f, g, h | f in start && h in start && g in files && Between(f, g, h) ensures g in start {
      assert f in inputs && h in inputs;
      var j: nat :| j < |inputs| && inputs[j] == g;
      var i: nat :| i < |start| && start[i] == h;
      if g != h {
        ApartStarts(files, lastSequence, g, h);
      }
      assert FileOrder(g, h) || g == h ==> j <= i;
      assert j < |start|;
      assert start[j] == g;
    }
  }

  // ----- what a compaction takes

  /** The compaction that a file leads to. */
  ghost predicate PickedFrom(v: Version, level: nat, f: File, maxFileSize: nat, c: Inputs) {
    exists start :: StartsWith(v, level, f, start) && Picked(v, level, start, maxFileSize, c)
  }

  /** The compaction that a range leads to. */
  ghost predicate PickedInRange(v: Version, level: nat, begin: Option<UserKey>, end: Option<UserKey>, maxFileSize: nat, c: Inputs) {
    exists start :: StartsInRange(v, level, begin, end, maxFileSize, start) && Picked(v, level, start, maxFileSize, c)
  }

  /** At level 0 it takes every file of the range, and below the first ones up to the size limit; any
      other file of the level overlaps one taken already at level 0, begins with the last key of
      another one, or comes with an expansion below its limit. */
  lemma RangeIsTaken(v: Version, level: nat, begin: Option<UserKey>, end: Option<UserKey>, maxFileSize: nat, c: Inputs, lastSequence: nat, nextFile: nat)
      returns (start: seq<File>)
    requires Shape(v, lastSequence, nextFile) && PickedInRange(v, level, begin, end, maxFileSize, c)
    ensures level < NUM_LEVELS && Within(start, c.inputs0) && Within(start, v[level])
    ensures level > 0 ==> CutOff(Select(v[level], begin, end), maxFileSize, start)
    ensures level == 0 ==> forall f :: f in v[0] && InRange(f, begin, end) ==> f in start
    ensures level == 0 ==> exists lo, hi :: LeastClosed(v[0], begin, end, lo, hi) && start == Select(v[0], lo, hi)
    ensures forall f :: f in c.inputs0 ==> Accounted(c, start, f, maxFileSize)
  {
    hide Shape, Picked, CutOff, LeastClosed, Accounted;
    start :| StartsInRange(v, level, begin, end, maxFileSize, start) && Picked(v, level, start, maxFileSize, c);
    var files :| Overlapping(v[level], level, begin, end, files) && if level > 0 then CutOff(files, maxFileSize, start) else start == files;
    OverlappingFacts(v[level], level, begin, end, files);
    if level > 0 {
      CutOffWithin(files, maxFileSize, start);
    }
    hide Overlapping, StartsInRange;
    PickedHasStart(v, level, start, maxFileSize, c, lastSequence, nextFile);
    forall f | f in c.inputs0 ensures Accounted(c, start, f, maxFileSize) {
      PickedIsBounded(v, level, start, maxFileSize, c, f, lastSequence, nextFile);
    }
  }

  lemma OverlappingFacts(files: seq<File>, level: nat, begin: Option<UserKey>, end: Option<UserKey>, inputs: seq<File>)
    requires Overlapping(files, level, begin, end, inputs)
    ensures Within(inputs, files) && forall f :: f in files && InRange(f, begin, end) ==> f in inputs
  {
    if level == 0 {
      var lo, hi :| LeastClosed(files, begin, end, lo, hi) && inputs == Select(files, lo, hi);
      LeastClosedWider(files, begin, end, lo, hi);
      hide LeastClosed, InRange;
    }
  }

  lemma CutOffWithin(files: seq<File>, limit: nat, start: seq<File>)
    requires CutOff(files, limit, start)
    ensures Within(start, files)
  {
  }

  lemma PickedHasStart(v: Version, level: nat, start: seq<File>, maxFileSize: nat, c: Inputs, lastSequence: nat, nextFile: nat)
    requires Shape(v, lastSequence, nextFile) && Picked(v, level, start, maxFileSize, c) && level < NUM_LEVELS && Within(start, v[level])
    ensures Within(start, c.inputs0)
  {
    hide *;
    var narrow := PickedNarrow(v, level, start, maxFileSize, c);
    LevelFilesValid(v, lastSequence, nextFile, level);
    FollowedWithin(v[level], start, narrow.inputs0);
    WidenedWithin(v, narrow, c, maxFileSize);
    WithinWithin(start, narrow.inputs0, c.inputs0);
  }

  lemma WidenedWithin(v: Version, narrow: Inputs, c: Inputs, maxFileSize: nat)
    requires Widened(v, narrow, c, maxFileSize)
    requires narrow.level < NUM_LEVELS && Within(narrow.inputs0, v[narrow.level]) && forall f :: f in v[narrow.level] ==> !Less(f.largest, f.smallest)
    ensures Within(narrow.inputs0, c.inputs0)
  {
    hide Expansion, TotalFileSize, Within, Describes, Less;
    if c != narrow {
      var expanded :| Expansion(v, narrow, expanded) && TakenIfCheap(v, narrow, expanded, c, maxFileSize);
      ExpansionHolds(v, narrow, expanded);
    } else {
      WithinSelf(c.inputs0);
    }
  }

  lemma WithinSelf(files: seq<File>)
    ensures Within(files, files)
  {
  }

  lemma WithinWithin(a: seq<File>, b: seq<File>, c: seq<File>)
    requires Within(a, b) && Within(b, c)
    ensures Within(a, c)
  {
  }
}
