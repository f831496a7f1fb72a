/** Table files, versions and the shape every version keeps (db/version_set.h, db/version_edit.h). */
module Versions {
  import opened Format

  const NUM_LEVELS := 7

  /** FileMetaData together with the contents of the table file it names. */
  datatype File = File(number: nat, size: nat, smallest: IKey, largest: IKey, entries: seq<Entry>)

  ghost predicate ValidFile(f: File, lastSequence: nat) {
    && |f.entries| > 0 && Sorted(f.entries)
    && f.smallest == f.entries[0].key && f.largest == f.entries[|f.entries| - 1].key
    && forall e :: e in f.entries ==> e.key.seqno <= lastSequence
  }

  lemma EntryInRange(f: File, lastSequence: nat, e: Entry)
    requires ValidFile(f, lastSequence) && e in f.entries
    ensures e.key == f.smallest || Before(f.smallest, e.key)
    ensures e.key == f.largest || Before(e.key, f.largest)
  {
    var i :| 0 <= i < |f.entries| && f.entries[i] == e;
  }

  /** Every entry of `f` is newer than every entry of `g` for the same user key. */
  ghost predicate Newer(f: File, g: File) {
    forall e, d :: e in f.entries && d in g.entries && e.key.user == d.key.user ==> e.key.seqno > d.key.seqno
  }

  ghost predicate Apart(f: File, g: File) {
    Before(f.largest, g.smallest) || Before(g.largest, f.smallest)
  }

  /** BySmallestKey. */
  predicate FileOrder(f: File, g: File) {
    Less(f.smallest, g.smallest) || (!Less(g.smallest, f.smallest) && f.number < g.number)
  }

  ghost predicate Ordered(files: seq<File>) {
    forall i, j :: 0 <= i < j < |files| ==> FileOrder(files[i], files[j])
  }

  ghost predicate Disjoint(files: seq<File>) {
    forall f, g :: f in files && g in files && f != g ==> Apart(f, g)
  }

  type Version = v: seq<seq<File>> | |v| == NUM_LEVELS witness seq(NUM_LEVELS, _ => [])

  ghost predicate ValidFiles(v: Version, lastSequence: nat, nextFile: nat) {
    forall l, f :: 0 <= l < NUM_LEVELS && f in v[l] ==> ValidFile(f, lastSequence) && f.number < nextFile
  }

  ghost predicate NumbersDistinct(v: Version) {
    forall l, m, f, g :: 0 <= l < NUM_LEVELS && 0 <= m < NUM_LEVELS && f in v[l] && g in v[m] && f.number == g.number ==>
      l == m && f == g
  }

  /** Entries never hop across levels: a shallower level holds the newer entries of a key. */
  ghost predicate LevelsByAge(v: Version) {
    forall l, m, f, g :: 0 <= l < m < NUM_LEVELS && f in v[l] && g in v[m] ==> Newer(f, g)
  }

  ghost predicate Level0ByAge(v: Version) {
    forall f, g :: f in v[0] && g in v[0] && f.number > g.number ==> Newer(f, g)
  }

  ghost predicate LevelsSorted(v: Version) {
    && (forall l :: 0 <= l < NUM_LEVELS ==> Ordered(v[l]))
    && (forall l :: 1 <= l < NUM_LEVELS ==> Disjoint(v[l]))
  }

  ghost predicate Shape(v: Version, lastSequence: nat, nextFile: nat) {
    && ValidFiles(v, lastSequence, nextFile)
    && NumbersDistinct(v)
    && LevelsSorted(v)
    && LevelsByAge(v)
    && Level0ByAge(v)
  }

  ghost predicate Holds(files: seq<File>, e: Entry) {
    exists f :: f in files && e in f.entries
  }

  ghost predicate InVersion(v: Version, e: Entry) {
    exists l :: 0 <= l < NUM_LEVELS && Holds(v[l], e)
  }

  ghost function Contents(v: Version): iset<Entry> {
    iset e: Entry | InVersion(v, e)
  }

  /** In a sorted level the files follow one another without overlap. */
  lemma FilesFollow(files: seq<File>, lastSequence: nat, i: nat, j: nat)
    requires Ordered(files) && Disjoint(files) && i < j < |files|
    requires forall f :: f in files ==> ValidFile(f, lastSequence)
    ensures Before(files[i].largest, files[j].smallest)
  {
    assert files[i] in files && files[j] in files;
    EntryInRange(files[i], lastSequence, files[i].entries[0]);
    EntryInRange(files[j], lastSequence, files[j].entries[0]);
    assert FileOrder(files[i], files[j]);
    assert files[i] != files[j];
  }

  /** Two files of a version: the same, or apart in age, or apart in keys. */
  lemma FilesApart(v: Version, lastSequence: nat, nextFile: nat, l: nat, m: nat, f: File, g: File)
    requires Shape(v, lastSequence, nextFile) && l <= m < NUM_LEVELS && f in v[l] && g in v[m]
    ensures (l == m && f == g) || Newer(f, g) || Newer(g, f) || Apart(f, g)
    ensures ValidFile(f, lastSequence) && ValidFile(g, lastSequence)
  {
    hide Newer, Apart, ValidFile, Ordered;
    if l == m > 0 {
      assert Disjoint(v[l]);
    }
  }

  lemma OneFile(f: File, lastSequence: nat, a: Entry, b: Entry)
    requires ValidFile(f, lastSequence) && a in f.entries && b in f.entries
    requires a.key.user == b.key.user && a.key.seqno == b.key.seqno
    ensures a == b
  {
    var i: nat :| i < |f.entries| && f.entries[i] == a;
    var j: nat :| j < |f.entries| && f.entries[j] == b;
    SameKeyOrder(f.entries, i, j);
  }

  lemma FilesDistinct(v: Version, lastSequence: nat, nextFile: nat, l: nat, m: nat, f: File, g: File, a: Entry, b: Entry)
    requires Shape(v, lastSequence, nextFile) && l <= m < NUM_LEVELS && f in v[l] && g in v[m]
    requires a in f.entries && b in g.entries
    requires a.key.user == b.key.user && a.key.seqno == b.key.seqno
    ensures l == m && f == g && a == b
  {
    hide Shape, ValidFile;
    FilesApart(v, lastSequence, nextFile, l, m, f, g);
    EntryInRange(f, lastSequence, a);
    EntryInRange(g, lastSequence, b);
    assert l == m && f == g;
    OneFile(f, lastSequence, a, b);
  }

  lemma ContentsUnique(v: Version, lastSequence: nat, nextFile: nat)
    requires Shape(v, lastSequence, nextFile)
    ensures Unique(Contents(v))
  {
    hide Shape;
    forall a, b | a in Contents(v) && b in Contents(v) && a.key.user == b.key.user && a.key.seqno == b.key.seqno
      ensures a == b
    {
      var l: nat, f :| l < NUM_LEVELS && f in v[l] && a in f.entries;
      var m: nat, g :| m < NUM_LEVELS && g in v[m] && b in g.entries;
      if l <= m {
        FilesDistinct(v, lastSequence, nextFile, l, m, f, g, a, b);
      } else {
        FilesDistinct(v, lastSequence, nextFile, m, l, g, f, b, a);
      }
    }
  }
}
