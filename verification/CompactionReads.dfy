/** What a compaction drops, and exactly when reads survive it (DBImpl::DoCompactionWork). */
module CompactionReads {
  import opened Format
  import opened Versions
  import opened Steps

  /** IsBaseLevelForKey: no file two or more levels down spans the key. */
  ghost predicate IsBase(v: Version, level: nat, user: UserKey) {
    forall l, f :: level + 2 <= l < NUM_LEVELS && f in v[l] ==> !(f.smallest.user <= user <= f.largest.user)
  }

  /** Rule (A): the entry before this one has the same user key and every live snapshot sees it. */
  predicate Hidden(input: seq<Entry>, i: nat, snapshot: nat)
    requires i < |input|
  {
    i > 0 && input[i - 1].key.user == input[i].key.user && input[i - 1].key.seqno <= snapshot
  }

  ghost predicate Obsolete(v: Version, level: nat, e: Entry, snapshot: nat) {
    e.key.kind.Deletion? && e.key.seqno <= snapshot && IsBase(v, level, e.key.user)
  }

  ghost predicate Dropped(v: Version, level: nat, input: seq<Entry>, i: nat, snapshot: nat)
    requires i < |input|
  {
    Hidden(input, i, snapshot) || Obsolete(v, level, input[i], snapshot)
  }

  ghost predicate Kept(v: Version, level: nat, input: seq<Entry>, snapshot: nat, e: Entry) {
    exists i :: 0 <= i < |input| && input[i] == e && !Dropped(v, level, input, i, snapshot)
  }

  /** The merging iterator yields the entries of the inputs, each once, in key order. */
  ghost predicate Merged(c: Inputs, input: seq<Entry>) {
    Sorted(input) && forall e :: e in input <==> InputEntry(c, e)
  }

  ghost predicate StaysEntry(v: Version, c: Inputs, e: Entry) {
    exists l, f :: 0 <= l < NUM_LEVELS && Stays(v, c, l, f) && e in f.entries
  }

  /** The outputs hold exactly the entries that were not dropped. */
  ghost predicate OutputsKept(v: Version, c: Inputs, input: seq<Entry>, snapshot: nat, outputs: seq<File>) {
    forall e :: Holds(outputs, e) <==> Kept(v, c.level, input, snapshot, e)
  }

  /** In a sorted input rule (A) hides exactly the entries with a newer version all snapshots see. */
  lemma HiddenIff(input: seq<Entry>, i: nat, snapshot: nat)
    requires Sorted(input) && i < |input|
    ensures Hidden(input, i, snapshot) <==>
      exists o :: o in input && o.key.user == input[i].key.user && input[i].key.seqno < o.key.seqno <= snapshot
  {
    if Hidden(input, i, snapshot) {
      assert input[i - 1] in input && Before(input[i - 1].key, input[i].key);
    }
    forall o | o in input && o.key.user == input[i].key.user && input[i].key.seqno < o.key.seqno <= snapshot
      ensures Hidden(input, i, snapshot)
    {
      var j :| 0 <= j < |input| && input[j] == o;
      SameKeyOrder(input, i, j);
      assert j < i - 1 ==> Before(input[j].key, input[i - 1].key);
      assert Before(input[i - 1].key, input[i].key);
    }
  }

  /** An entry of an input is kept unless it is hidden or obsolete. */
  lemma KeptIff(v: Version, level: nat, input: seq<Entry>, snapshot: nat, e: Entry)
    requires Sorted(input) && e in input
    ensures Kept(v, level, input, snapshot, e) <==>
      && !Obsolete(v, level, e, snapshot)
      && !exists o :: o in input && o.key.user == e.key.user && e.key.seqno < o.key.seqno <= snapshot
  {
    var i :| 0 <= i < |input| && input[i] == e;
    HiddenIff(input, i, snapshot);
    forall j | 0 <= j < |input| && input[j] == e ensures j == i {
      SameKeyOrder(input, i, j);
    }
  }

  /** Where the entries of the version after the compaction come from. */
  lemma AfterCompaction(v: Version, c: Inputs, input: seq<Entry>, snapshot: nat, outputs: seq<File>, w: Version, e: Entry)
    requires c.level + 1 < NUM_LEVELS && Replaced(v, c, outputs, w) && OutputsKept(v, c, input, snapshot, outputs)
    ensures e in Contents(w) <==> StaysEntry(v, c, e) || Kept(v, c.level, input, snapshot, e)
  {
    if e in Contents(w) {
      var l, f :| 0 <= l < NUM_LEVELS && f in w[l] && e in f.entries;
      assert Stays(v, c, l, f) || f in outputs;
    }
    if StaysEntry(v, c, e) {
      var l, f :| 0 <= l < NUM_LEVELS && Stays(v, c, l, f) && e in f.entries;
      assert Holds(w[l], e);
    }
    if Kept(v, c.level, input, snapshot, e) {
      assert Holds(outputs, e);
      var f :| f in outputs && e in f.entries;
      var l := c.level + 1;
      assert Holds(w[l], e);
    }
  }

  lemma BeforeCompaction(v: Version, c: Inputs, e: Entry)
    requires WellChosen(v, c)
    ensures e in Contents(v) <==> StaysEntry(v, c, e) || InputEntry(c, e)
  {
    if e in Contents(v) {
      var l, f :| 0 <= l < NUM_LEVELS && f in v[l] && e in f.entries;
      assert Stays(v, c, l, f) || f in c.inputs0 || f in c.inputs1;
    }
    if StaysEntry(v, c, e) {
      var l, f :| 0 <= l < NUM_LEVELS && Stays(v, c, l, f) && e in f.entries;
      assert Holds(v[l], e);
    }
    if InputEntry(c, e) {
      var f :| (f in c.inputs0 || f in c.inputs1) && e in f.entries;
      assert Holds(v[c.level], e) || Holds(v[c.level + 1], e);
    }
  }

  /** A sorted level of valid, disjoint files. */
  ghost predicate Row(files: seq<File>, lastSequence: nat) {
    Ordered(files) && Disjoint(files) && forall f :: f in files ==> ValidFile(f, lastSequence)
  }

  ghost predicate Spanned(files: seq<File>, chosen: seq<File>, lo: UserKey, hi: UserKey) {
    && (forall g :: g in chosen ==> g in files && Overlaps(g, lo, hi))
    && (forall g :: g in files && Overlaps(g, lo, hi) ==> g in chosen)
  }

  lemma NextLevel(v: Version, c: Inputs, lastSequence: nat, nextFile: nat)
    requires Shape(v, lastSequence, nextFile) && WellChosen(v, c)
    ensures Row(v[c.level + 1], lastSequence) && Spanned(v[c.level + 1], c.inputs1, c.lo, c.hi)
  {}

  /** A cut in a level between a chosen and an unchosen file, through one user key.
      SetupOtherInputs closes the inputs over such cuts for `level` but not for the next level. */
  ghost predicate Cut(files: seq<File>, chosen: seq<File>, i: nat) {
    && i + 1 < |files| && files[i] in chosen && files[i + 1] !in chosen
    && files[i].largest.user == files[i + 1].smallest.user
  }

  /** The guard of the failing branch: the newest entry of the cut key is an obsolete deletion in
      the inputs, and the file left behind starts with a value for that key. */
  ghost predicate Exposed(v: Version, c: Inputs, snapshot: nat, k: UserKey)
    requires c.level + 1 < NUM_LEVELS
  {
    var files := v[c.level + 1];
    exists i: nat, e ::
      && Cut(files, c.inputs1, i) && files[i].largest.user == k
      && |files[i + 1].entries| > 0 && files[i + 1].entries[0].key.kind.Put?
      && IsNewest(Contents(v), k, snapshot, e) && InputEntry(c, e) && Obsolete(v, c.level, e, snapshot)
  }

  lemma Follow(files: seq<File>, lastSequence: nat, i: nat, j: nat)
    requires Row(files, lastSequence) && i <= j < |files|
    ensures i < j ==> Before(files[i].largest, files[j].smallest)
    ensures files[i].smallest.user <= files[i].largest.user
    ensures files[j].smallest.user <= files[j].largest.user
    ensures ValidFile(files[i], lastSequence) && ValidFile(files[j], lastSequence)
  {
    if i < j {
      FilesFollow(files, lastSequence, i, j);
    }
    assert files[i] in files && files[j] in files;
    EntryInRange(files[i], lastSequence, files[i].entries[0]);
    EntryInRange(files[j], lastSequence, files[j].entries[0]);
  }

  /** The chosen files of a level are consecutive. */
  lemma ChosenConsecutive(files: seq<File>, chosen: seq<File>, lo: UserKey, hi: UserKey, lastSequence: nat, a: nat, i: nat, b: nat)
    requires Row(files, lastSequence) && Spanned(files, chosen, lo, hi)
    requires a <= i <= b < |files| && files[a] in chosen && files[b] in chosen
    ensures files[i] in chosen
  {
    Follow(files, lastSequence, a, i);
    Follow(files, lastSequence, i, b);
    hide Row;
    assert files[i] in files;
  }

  /** Walking from a chosen file to one left behind crosses a cut, if both hold the key. */
  lemma FirstCut(files: seq<File>, chosen: seq<File>, lastSequence: nat, a: nat, b: nat, e: Entry, d: Entry) returns (i: nat)
    requires Row(files, lastSequence) && a < b < |files| && files[a] in chosen && files[b] !in chosen
    requires e in files[a].entries && d in files[b].entries && d.key.user == e.key.user
    ensures a <= i < b && Cut(files, chosen, i) && files[i].largest.user == e.key.user
  {
    i := a;
    while files[i + 1] in chosen
      invariant a <= i < b && files[i] in chosen
      decreases b - i
    {
      i := i + 1;
    }
    Follow(files, lastSequence, a, b);
    Follow(files, lastSequence, a, i);
    Follow(files, lastSequence, i, i + 1);
    Follow(files, lastSequence, i + 1, b);
    hide Row;
    EntryInRange(files[a], lastSequence, e);
    EntryInRange(files[b], lastSequence, d);
  }

  /** No file left behind beyond a cut holds a newer entry of the cut key than the first one. */
  lemma LeftBehindFrom(files: seq<File>, chosen: seq<File>, lo: UserKey, hi: UserKey, lastSequence: nat, a: nat, b: nat, i: nat, d: Entry)
    requires Row(files, lastSequence) && Spanned(files, chosen, lo, hi) && Cut(files, chosen, i)
    requires a < b < |files| && files[a] in chosen && files[b] !in chosen
    requires d in files[b].entries && d.key.user == files[i].largest.user
    ensures d.key.seqno <= files[i + 1].smallest.seqno
  {
    if b <= i {
      ChosenConsecutive(files, chosen, lo, hi, lastSequence, a, b, i);
    }
    Follow(files, lastSequence, i + 1, b);
    hide Row, Spanned;
    EntryInRange(files[b], lastSequence, d);
  }

  /** The file left behind beyond a cut holds only older entries of the key than the chosen files. */
  lemma LeftBehindIsOlder(files: seq<File>, chosen: seq<File>, lo: UserKey, hi: UserKey, lastSequence: nat, i: nat, f: File, e: Entry)
    requires Row(files, lastSequence) && Spanned(files, chosen, lo, hi) && Cut(files, chosen, i)
    requires f in chosen && e in f.entries && e.key.user == files[i].largest.user
    ensures files[i + 1].smallest.seqno < e.key.seqno
  {
    var a: nat :| a < |files| && files[a] == f;
    if a >= i + 1 {
      ChosenConsecutive(files, chosen, lo, hi, lastSequence, i, i + 1, a);
    }
    Follow(files, lastSequence, a, i + 1);
    hide Row, Spanned;
    EntryInRange(f, lastSequence, e);
  }

  lemma FileBefore(files: seq<File>, lastSequence: nat, f: File, g: File, e: Entry, d: Entry) returns (a: nat, b: nat)
    requires Row(files, lastSequence)
    requires f in files && g in files && f != g && e in f.entries && d in g.entries
    requires d.key.user == e.key.user && d.key.seqno < e.key.seqno
    ensures a < b < |files| && files[a] == f && files[b] == g
  {
    a :| 0 <= a < |files| && files[a] == f;
    b :| 0 <= b < |files| && files[b] == g;
    EntryInRange(f, lastSequence, e);
    EntryInRange(g, lastSequence, d);
    if b < a {
      Follow(files, lastSequence, b, a);
    }
  }

  lemma LeftBehindLevel(v: Version, c: Inputs, lastSequence: nat, l: nat, f: File, m: nat, g: File, e: Entry, d: Entry)
    requires LevelsByAge(v) && WellChosen(v, c) && ValidFile(f, lastSequence) && ValidFile(g, lastSequence)
    requires l == c.level || l == c.level + 1
    requires f in v[l] && e in f.entries && if l == c.level then f in c.inputs0 else f in c.inputs1
    requires m < NUM_LEVELS && Stays(v, c, m, g) && d in g.entries
    requires d.key.user == e.key.user && d.key.seqno < e.key.seqno && IsBase(v, c.level, e.key.user)
    ensures l == m == c.level + 1
  {
    EntryInRange(f, lastSequence, e);
    EntryInRange(g, lastSequence, d);
    assert m >= c.level + 2 ==> !(g.smallest.user <= e.key.user <= g.largest.user);
    assert l == c.level && m == c.level + 1 ==> Overlaps(g, c.lo, c.hi);
    var older := Newer(g, f);
  }

  /** Data older than an obsolete deletion can only be left behind in the next level, further on. */
  lemma OlderLeftBehind(v: Version, c: Inputs, lastSequence: nat, nextFile: nat, e: Entry, d: Entry) returns (a: nat, b: nat)
    requires Shape(v, lastSequence, nextFile) && WellChosen(v, c)
    requires InputEntry(c, e) && StaysEntry(v, c, d)
    requires d.key.user == e.key.user && d.key.seqno < e.key.seqno && IsBase(v, c.level, e.key.user)
    ensures a < b < |v[c.level + 1]|
    ensures v[c.level + 1][a] in c.inputs1 && e in v[c.level + 1][a].entries
    ensures v[c.level + 1][b] !in c.inputs1 && d in v[c.level + 1][b].entries
  {
    var l, f := InputFile(v, c, lastSequence, nextFile, e);
    var m: nat, g :| m < NUM_LEVELS && Stays(v, c, m, g) && d in g.entries;
    assert ValidFile(g, lastSequence);
    NextLevel(v, c, lastSequence, nextFile);
    assert LevelsByAge(v);
    hide Shape, LevelsByAge, Row, Spanned, IsBase, StaysEntry, InputEntry, WellChosen;
    LeftBehindLevel(v, c, lastSequence, l, f, m, g, e, d);
    a, b := FileBefore(v[c.level + 1], lastSequence, f, g, e, d);
  }

  /** Everything a compaction starts from and produces. */
  ghost predicate Compacted(v: Version, c: Inputs, input: seq<Entry>, snapshot: nat, outputs: seq<File>, w: Version,
                            lastSequence: nat, nextFile: nat) {
    && Shape(v, lastSequence, nextFile) && WellChosen(v, c) && Merged(c, input)
    && OutputsKept(v, c, input, snapshot, outputs) && Replaced(v, c, outputs, w)
  }

  lemma StaysOrInput(v: Version, c: Inputs, lastSequence: nat, nextFile: nat, e: Entry)
    requires Shape(v, lastSequence, nextFile) && WellChosen(v, c) && InputEntry(c, e)
    ensures !StaysEntry(v, c, e)
  {
    var l, f := InputFile(v, c, lastSequence, nextFile, e);
    hide Shape;
    forall m: nat, g | m < NUM_LEVELS && Stays(v, c, m, g) && e in g.entries ensures false {
      if l <= m {
        FilesDistinct(v, lastSequence, nextFile, l, m, f, g, e, e);
      } else {
        FilesDistinct(v, lastSequence, nextFile, m, l, g, f, e, e);
      }
    }
  }

  lemma ContentsShrink(v: Version, c: Inputs, input: seq<Entry>, snapshot: nat, outputs: seq<File>, w: Version,
                       lastSequence: nat, nextFile: nat, e: Entry)
    requires Compacted(v, c, input, snapshot, outputs, w, lastSequence, nextFile) && e in Contents(w)
    ensures e in Contents(v)
    ensures !StaysEntry(v, c, e) ==> e in input && Kept(v, c.level, input, snapshot, e)
  {
    AfterCompaction(v, c, input, snapshot, outputs, w, e);
    BeforeCompaction(v, c, e);
    hide Shape, WellChosen, OutputsKept, Replaced, InVersion;
  }

  /** Below a dropped deletion that was newest, only data left behind remains visible. */
  lemma OnlyLeftBehind(v: Version, c: Inputs, input: seq<Entry>, snapshot: nat, outputs: seq<File>, w: Version,
                       lastSequence: nat, nextFile: nat, e: Entry, d: Entry)
    requires Compacted(v, c, input, snapshot, outputs, w, lastSequence, nextFile)
    requires IsNewest(Contents(v), e.key.user, snapshot, e) && InputEntry(c, e) && Obsolete(v, c.level, e, snapshot)
    requires d in Contents(w) && Visible(d, e.key.user, snapshot)
    ensures StaysEntry(v, c, d) && d.key.seqno < e.key.seqno
  {
    assert e in input && Sorted(input);
    hide Shape, WellChosen, Replaced, OutputsKept, Merged, InVersion, Sorted, Kept, StaysEntry;
    ContentsShrink(v, c, input, snapshot, outputs, w, lastSequence, nextFile, d);
    StaysOrInput(v, c, lastSequence, nextFile, e);
    ContentsUnique(v, lastSequence, nextFile);
    KeptIff(v, c.level, input, snapshot, e);
    if d in input {
      KeptIff(v, c.level, input, snapshot, d);
    }
  }

  /** What every compaction keeps of a cut: the file left behind starts with the newest survivor. */
  lemma NewestLeftBehind(v: Version, c: Inputs, input: seq<Entry>, snapshot: nat, outputs: seq<File>, w: Version,
                         lastSequence: nat, nextFile: nat, e: Entry, i: nat, first: Entry)
    requires Compacted(v, c, input, snapshot, outputs, w, lastSequence, nextFile)
    requires IsNewest(Contents(v), e.key.user, snapshot, e) && InputEntry(c, e) && Obsolete(v, c.level, e, snapshot)
    requires c.level + 1 < NUM_LEVELS && Cut(v[c.level + 1], c.inputs1, i) && v[c.level + 1][i].largest.user == e.key.user
    requires |v[c.level + 1][i + 1].entries| > 0 && first == v[c.level + 1][i + 1].entries[0]
    ensures IsNewest(Contents(w), e.key.user, snapshot, first)
  {
    LeftBehindVisible(v, c, input, snapshot, outputs, w, lastSequence, nextFile, e, i, first);
    hide Compacted, Contents, InputEntry, Obsolete, Cut;
    forall d | d in Contents(w) && Visible(d, e.key.user, snapshot) ensures d.key.seqno <= first.key.seqno {
      NoNewerLeftBehind(v, c, input, snapshot, outputs, w, lastSequence, nextFile, e, i, d);
    }
  }

  lemma NoNewerLeftBehind(v: Version, c: Inputs, input: seq<Entry>, snapshot: nat, outputs: seq<File>, w: Version,
                          lastSequence: nat, nextFile: nat, e: Entry, i: nat, d: Entry)
    requires Compacted(v, c, input, snapshot, outputs, w, lastSequence, nextFile)
    requires IsNewest(Contents(v), e.key.user, snapshot, e) && InputEntry(c, e) && Obsolete(v, c.level, e, snapshot)
    requires c.level + 1 < NUM_LEVELS && Cut(v[c.level + 1], c.inputs1, i) && v[c.level + 1][i].largest.user == e.key.user
    requires d in Contents(w) && Visible(d, e.key.user, snapshot)
    ensures d.key.seqno <= v[c.level + 1][i + 1].smallest.seqno
  {
    hide Shape, WellChosen, Replaced, OutputsKept, InVersion, StaysEntry, Sorted, InputEntry, Stays, IsNewest, IsBase, Row, Spanned;
    OnlyLeftBehind(v, c, input, snapshot, outputs, w, lastSequence, nextFile, e, d);
    var a, b := OlderLeftBehind(v, c, lastSequence, nextFile, e, d);
    NextLevel(v, c, lastSequence, nextFile);
    LeftBehindFrom(v[c.level + 1], c.inputs1, c.lo, c.hi, lastSequence, a, b, i, d);
  }

  lemma CutEntryIsOlder(v: Version, c: Inputs, lastSequence: nat, nextFile: nat, e: Entry, i: nat)
    requires Shape(v, lastSequence, nextFile) && WellChosen(v, c) && InputEntry(c, e)
    requires Cut(v[c.level + 1], c.inputs1, i) && v[c.level + 1][i].largest.user == e.key.user
    ensures v[c.level + 1][i + 1].smallest.seqno < e.key.seqno
    ensures ValidFile(v[c.level + 1][i + 1], lastSequence) && StaysEntry(v, c, v[c.level + 1][i + 1].entries[0])
  {
    var files := v[c.level + 1];
    var g := files[i + 1];
    var l, f := InputFile(v, c, lastSequence, nextFile, e);
    NextLevel(v, c, lastSequence, nextFile);
    Follow(files, lastSequence, i + 1, i + 1);
    hide Shape, Row, InputEntry;
    EntryInRange(f, lastSequence, e);
    assert Stays(v, c, c.level + 1, g);
    assert l == c.level ==> Overlaps(g, c.lo, c.hi);
    hide WellChosen;
    LeftBehindIsOlder(files, c.inputs1, c.lo, c.hi, lastSequence, i, f, e);
  }

  lemma LeftBehindVisible(v: Version, c: Inputs, input: seq<Entry>, snapshot: nat, outputs: seq<File>, w: Version,
                          lastSequence: nat, nextFile: nat, e: Entry, i: nat, first: Entry)
    requires Compacted(v, c, input, snapshot, outputs, w, lastSequence, nextFile)
    requires InputEntry(c, e) && e.key.seqno <= snapshot
    requires c.level + 1 < NUM_LEVELS && Cut(v[c.level + 1], c.inputs1, i) && v[c.level + 1][i].largest.user == e.key.user
    requires |v[c.level + 1][i + 1].entries| > 0 && first == v[c.level + 1][i + 1].entries[0]
    ensures first.key == v[c.level + 1][i + 1].smallest && first.key.seqno < e.key.seqno
    ensures first in Contents(w) && Visible(first, e.key.user, snapshot)
  {
    hide Shape, WellChosen, Replaced, OutputsKept, InVersion, StaysEntry, Sorted, InputEntry, Stays, IsBase;
    CutEntryIsOlder(v, c, lastSequence, nextFile, e, i);
    AfterCompaction(v, c, input, snapshot, outputs, w, first);
  }

  /** A read that changes has crossed a cut whose newest deletion was dropped. */
  lemma ChangedIsExposed(v: Version, c: Inputs, input: seq<Entry>, snapshot: nat, outputs: seq<File>, w: Version,
                         lastSequence: nat, nextFile: nat, k: UserKey, s: nat)
    requires Compacted(v, c, input, snapshot, outputs, w, lastSequence, nextFile)
    requires s >= snapshot && Read(Contents(w), k, s) != Read(Contents(v), k, s)
    ensures c.level + 1 < NUM_LEVELS && Exposed(v, c, snapshot, k)
  {
    hide Shape, Merged, Replaced, OutputsKept, Contents, Read, Row, Spanned, InputEntry, StaysEntry, IsBase, InVersion;
    assert c.level + 1 < NUM_LEVELS;
    hide WellChosen;
    var e := DroppedNewest(v, c, input, snapshot, outputs, w, lastSequence, nextFile, k, s);
    var d := SurvivorPut(v, c, input, snapshot, outputs, w, lastSequence, nextFile, e, s);
    OnlyLeftBehind(v, c, input, snapshot, outputs, w, lastSequence, nextFile, e, d);
    var a, b := OlderLeftBehind(v, c, lastSequence, nextFile, e, d);
    NextLevel(v, c, lastSequence, nextFile);
    var i := FirstCut(v[c.level + 1], c.inputs1, lastSequence, a, b, e, d);
    CutEntryIsOlder(v, c, lastSequence, nextFile, e, i);
    hide Obsolete;
    FirstIsSurvivor(v, c, input, snapshot, outputs, w, lastSequence, nextFile, e, i, d);
  }

  lemma FirstIsSurvivor(v: Version, c: Inputs, input: seq<Entry>, snapshot: nat, outputs: seq<File>, w: Version,
                        lastSequence: nat, nextFile: nat, e: Entry, i: nat, d: Entry)
    requires Compacted(v, c, input, snapshot, outputs, w, lastSequence, nextFile)
    requires IsNewest(Contents(v), e.key.user, snapshot, e) && InputEntry(c, e) && Obsolete(v, c.level, e, snapshot)
    requires c.level + 1 < NUM_LEVELS && Cut(v[c.level + 1], c.inputs1, i) && v[c.level + 1][i].largest.user == e.key.user
    requires |v[c.level + 1][i + 1].entries| > 0
    requires IsNewest(Contents(w), e.key.user, snapshot, d)
    ensures d == v[c.level + 1][i + 1].entries[0]
  {
    hide Compacted, Contents, Obsolete, InputEntry;
    var first := v[c.level + 1][i + 1].entries[0];
    NewestLeftBehind(v, c, input, snapshot, outputs, w, lastSequence, nextFile, e, i, first);
    ContentsSmaller(v, c, input, snapshot, outputs, w, lastSequence, nextFile);
  }

  ghost predicate Subset(a: iset<Entry>, b: iset<Entry>) {
    forall e :: e in a ==> e in b
  }

  lemma ContentsSmaller(v: Version, c: Inputs, input: seq<Entry>, snapshot: nat, outputs: seq<File>, w: Version,
                        lastSequence: nat, nextFile: nat)
    requires Compacted(v, c, input, snapshot, outputs, w, lastSequence, nextFile)
    ensures Subset(Contents(w), Contents(v)) && Unique(Contents(w))
  {
    hide Compacted, Contents;
    forall e | e in Contents(w) ensures e in Contents(v) {
      ContentsShrink(v, c, input, snapshot, outputs, w, lastSequence, nextFile, e);
    }
    assert Unique(Contents(v)) by {
      UniqueBefore(v, c, input, snapshot, outputs, w, lastSequence, nextFile);
    }
  }

  lemma UniqueBefore(v: Version, c: Inputs, input: seq<Entry>, snapshot: nat, outputs: seq<File>, w: Version,
                     lastSequence: nat, nextFile: nat)
    requires Compacted(v, c, input, snapshot, outputs, w, lastSequence, nextFile)
    ensures Unique(Contents(v))
  {
    ContentsUnique(v, lastSequence, nextFile);
  }

  /** When a read changes, the newest entry was an obsolete deletion among the inputs. */
  lemma DroppedNewest(v: Version, c: Inputs, input: seq<Entry>, snapshot: nat, outputs: seq<File>, w: Version,
                      lastSequence: nat, nextFile: nat, k: UserKey, s: nat) returns (e: Entry)
    requires Compacted(v, c, input, snapshot, outputs, w, lastSequence, nextFile)
    requires s >= snapshot && Read(Contents(w), k, s) != Read(Contents(v), k, s)
    ensures e.key.user == k && IsNewest(Contents(v), k, s, e) && IsNewest(Contents(v), k, snapshot, e)
    ensures InputEntry(c, e) && Obsolete(v, c.level, e, snapshot)
  {
    hide Compacted, Contents, Obsolete, InputEntry, Read;
    UniqueBefore(v, c, input, snapshot, outputs, w, lastSequence, nextFile);
    ContentsSmaller(v, c, input, snapshot, outputs, w, lastSequence, nextFile);
    e := ReadsDiffer(Contents(v), Contents(w), k, s);
    NotKept(v, c, input, snapshot, outputs, w, lastSequence, nextFile, e, s);
    ObsoleteIsDeletion(v, c.level, e, snapshot);
  }

  lemma NotKept(v: Version, c: Inputs, input: seq<Entry>, snapshot: nat, outputs: seq<File>, w: Version,
                lastSequence: nat, nextFile: nat, e: Entry, s: nat)
    requires Compacted(v, c, input, snapshot, outputs, w, lastSequence, nextFile)
    requires s >= snapshot && IsNewest(Contents(v), e.key.user, s, e) && e !in Contents(w)
    ensures InputEntry(c, e) && Obsolete(v, c.level, e, snapshot)
  {
    hide Shape, Replaced, OutputsKept, Contents, StaysEntry, Sorted, InputEntry, Kept, IsBase;
    assert c.level + 1 < NUM_LEVELS;
    hide WellChosen;
    AfterCompaction(v, c, input, snapshot, outputs, w, e);
    BeforeCompaction(v, c, e);
    assert e in input && Sorted(input);
    KeptIff(v, c.level, input, snapshot, e);
    if o :| o in input && o.key.user == e.key.user && e.key.seqno < o.key.seqno <= snapshot {
      BeforeCompaction(v, c, o);
    }
  }

  /** If removing entries changes a read, the newest visible entry was removed. */
  lemma ReadsDiffer(es: iset<Entry>, less: iset<Entry>, k: UserKey, s: nat) returns (e: Entry)
    requires Unique(es) && Unique(less) && Subset(less, es) && Read(less, k, s) != Read(es, k, s)
    ensures IsNewest(es, k, s, e) && e !in less
  {
    if o :| o in es && Visible(o, k, s) {
      NewestExists(es, k, s, o);
      e :| IsNewest(es, k, s, e);
      ReadNewest(es, k, s, e);
      if e in less {
        ReadNewest(less, k, s, e);
      }
    }
  }

  lemma SurvivorPut(v: Version, c: Inputs, input: seq<Entry>, snapshot: nat, outputs: seq<File>, w: Version,
                    lastSequence: nat, nextFile: nat, e: Entry, s: nat) returns (d: Entry)
    requires Compacted(v, c, input, snapshot, outputs, w, lastSequence, nextFile)
    requires s >= snapshot && Read(Contents(w), e.key.user, s) != Read(Contents(v), e.key.user, s)
    requires IsNewest(Contents(v), e.key.user, s, e) && e.key.kind.Deletion? && e.key.seqno <= snapshot
    ensures IsNewest(Contents(w), e.key.user, snapshot, d) && d.key.kind.Put?
  {
    hide Compacted, Contents;
    UniqueBefore(v, c, input, snapshot, outputs, w, lastSequence, nextFile);
    ContentsSmaller(v, c, input, snapshot, outputs, w, lastSequence, nextFile);
    ReadNewest(Contents(v), e.key.user, s, e);
    d :| IsNewest(Contents(w), e.key.user, s, d) && d.key.kind.Put?;
  }

  lemma ObsoleteIsDeletion(v: Version, level: nat, e: Entry, snapshot: nat)
    requires Obsolete(v, level, e, snapshot)
    ensures e.key.kind.Deletion? && e.key.seqno <= snapshot
  {}

  /** An exposed key reads as deleted before the compaction and as a value after it. */
  lemma ExposedIsChanged(v: Version, c: Inputs, input: seq<Entry>, snapshot: nat, outputs: seq<File>, w: Version,
                         lastSequence: nat, nextFile: nat, k: UserKey)
    requires Compacted(v, c, input, snapshot, outputs, w, lastSequence, nextFile)
    requires c.level + 1 < NUM_LEVELS && Exposed(v, c, snapshot, k)
    ensures Read(Contents(v), k, snapshot) == None && Read(Contents(w), k, snapshot).Some?
  {
    hide Compacted, Contents, Obsolete, InputEntry;
    UniqueBefore(v, c, input, snapshot, outputs, w, lastSequence, nextFile);
    ContentsSmaller(v, c, input, snapshot, outputs, w, lastSequence, nextFile);
    var files := v[c.level + 1];
    var i: nat, e :|
      && i + 1 < |files| && files[i] in c.inputs1 && files[i + 1] !in c.inputs1
      && files[i].largest.user == files[i + 1].smallest.user && files[i].largest.user == k
      && |files[i + 1].entries| > 0 && files[i + 1].entries[0].key.kind.Put?
      && IsNewest(Contents(v), k, snapshot, e) && InputEntry(c, e) && Obsolete(v, c.level, e, snapshot);
    ObsoleteIsDeletion(v, c.level, e, snapshot);
    NewestLeftBehind(v, c, input, snapshot, outputs, w, lastSequence, nextFile, e, i, files[i + 1].entries[0]);
    ReadNewest(Contents(v), k, snapshot, e);
    ReadNewest(Contents(w), k, snapshot, files[i + 1].entries[0]);
  }

  /** Exactly when a compaction preserves every read at every snapshot it may not disturb. */
  lemma CompactionPreservesReadsIff(v: Version, c: Inputs, input: seq<Entry>, snapshot: nat, outputs: seq<File>, w: Version,
                                    lastSequence: nat, nextFile: nat)
    requires Compacted(v, c, input, snapshot, outputs, w, lastSequence, nextFile)
    ensures c.level + 1 < NUM_LEVELS
    ensures (forall k, s :: s >= snapshot ==> Read(Contents(w), k, s) == Read(Contents(v), k, s)) <==>
      (forall k :: !Exposed(v, c, snapshot, k))
  {
    assert c.level + 1 < NUM_LEVELS;
    hide Compacted, Contents, Read, Exposed;
    forall k, s | s >= snapshot && Read(Contents(w), k, s) != Read(Contents(v), k, s) ensures Exposed(v, c, snapshot, k) {
      ChangedIsExposed(v, c, input, snapshot, outputs, w, lastSequence, nextFile, k, s);
    }
    forall k | Exposed(v, c, snapshot, k) ensures Read(Contents(w), k, snapshot) != Read(Contents(v), k, snapshot) {
      ExposedIsChanged(v, c, input, snapshot, outputs, w, lastSequence, nextFile, k);
    }
  }
}
