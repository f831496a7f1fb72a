/** What a flush, a trivial move and a compaction do to a version, and why the shape survives
    (db/db_impl.cc, db/version_set.cc). */
module Steps {
  import opened Format
  import opened Versions

  /** The files a compaction of `level` reads, and the user keys its `level` inputs span. */
  datatype Inputs = Inputs(level: nat, inputs0: seq<File>, inputs1: seq<File>, lo: UserKey, hi: UserKey)

  /** Neither completely before nor completely after the user keys `lo..hi`. */
  predicate Overlaps(f: File, lo: UserKey, hi: UserKey) {
    !(f.largest.user < lo) && !(f.smallest.user > hi)
  }

  /** What picking inputs has to achieve: no older file of `level` is left behind for a key that
      moves down, and every file of the next level that the moving range overlaps comes along. */
  ghost predicate WellChosen(v: Version, c: Inputs) {
    && c.level + 1 < NUM_LEVELS
    && |c.inputs0| > 0
    && (forall f :: f in c.inputs0 ==> f in v[c.level] && c.lo <= f.smallest.user && f.largest.user <= c.hi)
    && (forall f, g :: f in c.inputs0 && g in v[c.level] && g !in c.inputs0 ==> Newer(g, f))
    && (forall g :: g in c.inputs1 ==> g in v[c.level + 1] && Overlaps(g, c.lo, c.hi))
    && (forall l, g :: l == c.level + 1 && g in v[l] && Overlaps(g, c.lo, c.hi) ==> g in c.inputs1)
  }

  ghost predicate InputEntry(c: Inputs, e: Entry) {
    Holds(c.inputs0, e) || Holds(c.inputs1, e)
  }

  /** Files that stay where they are. */
  ghost predicate Stays(v: Version, c: Inputs, l: nat, f: File)
    requires l < NUM_LEVELS
  {
    f in v[l] && (l == c.level ==> f !in c.inputs0) && (l == c.level + 1 ==> f !in c.inputs1)
  }

  ghost predicate GoodOutputs(v: Version, c: Inputs, outputs: seq<File>, lastSequence: nat, nextFile: nat) {
    && (forall o :: o in outputs ==> ValidFile(o, lastSequence) && o.number < nextFile)
    && (forall o, e :: o in outputs && e in o.entries ==> InputEntry(c, e))
    && Disjoint(outputs)
    && (forall o, p :: o in outputs && p in outputs && o.number == p.number ==> o == p)
    && (forall l, f, o :: 0 <= l < NUM_LEVELS && Stays(v, c, l, f) && o in outputs ==> f.number != o.number)
  }

  /** The version edit of a compaction: delete the inputs, add the outputs one level down. */
  ghost predicate Replaced(v: Version, c: Inputs, outputs: seq<File>, w: Version)
    requires c.level + 1 < NUM_LEVELS
  {
    && (forall l, f :: 0 <= l < NUM_LEVELS ==> (f in w[l] <==> Stays(v, c, l, f) || (l == c.level + 1 && f in outputs)))
    && (forall l :: 0 <= l < NUM_LEVELS ==> Ordered(w[l]))
  }

  /** A file of the next level that is not an input lies entirely to one side of every input. */
  lemma UnselectedBeside(v: Version, c: Inputs, lastSequence: nat, nextFile: nat, g: File)
    requires Shape(v, lastSequence, nextFile) && WellChosen(v, c)
    requires g in v[c.level + 1] && g !in c.inputs1
    ensures (forall e :: InputEntry(c, e) ==> Before(e.key, g.smallest)) || (forall e :: InputEntry(c, e) ==> Before(g.largest, e.key))
  {
    hide NumbersDistinct, LevelsByAge, Level0ByAge, Sorted, Ordered;
    assert Disjoint(v[c.level + 1]);
    assert !Overlaps(g, c.lo, c.hi);
    EntryInRange(g, lastSequence, g.entries[0]);
    if g.largest.user < c.lo {
      forall e | InputEntry(c, e) ensures Before(g.largest, e.key) {
        var f :| (f in c.inputs0 || f in c.inputs1) && e in f.entries;
        assert ValidFile(f, lastSequence) by { assert f in v[c.level] || f in v[c.level + 1]; }
        EntryInRange(f, lastSequence, e);
        if f !in c.inputs0 {
          assert Apart(f, g);
        }
      }
    } else {
      forall e | InputEntry(c, e) ensures Before(e.key, g.smallest) {
        var f :| (f in c.inputs0 || f in c.inputs1) && e in f.entries;
        assert ValidFile(f, lastSequence) by { assert f in v[c.level] || f in v[c.level + 1]; }
        EntryInRange(f, lastSequence, e);
        if f !in c.inputs0 {
          assert Apart(f, g);
        }
      }
    }
  }

  lemma OutputApart(v: Version, c: Inputs, outputs: seq<File>, lastSequence: nat, nextFile: nat, nextFile': nat, g: File, o: File)
    requires Shape(v, lastSequence, nextFile) && WellChosen(v, c) && GoodOutputs(v, c, outputs, lastSequence, nextFile')
    requires Stays(v, c, c.level + 1, g) && o in outputs
    ensures Apart(g, o)
  {
    UnselectedBeside(v, c, lastSequence, nextFile, g);
    hide Shape, WellChosen, InputEntry;
    assert o.entries[0] in o.entries && o.entries[|o.entries| - 1] in o.entries;
  }

  /** Every output entry comes from an input file, which is a valid file of its level. */
  lemma InputFile(v: Version, c: Inputs, lastSequence: nat, nextFile: nat, e: Entry) returns (l: nat, f: File)
    requires ValidFiles(v, lastSequence, nextFile) && WellChosen(v, c) && InputEntry(c, e)
    ensures l == c.level || l == c.level + 1
    ensures f in v[l] && e in f.entries && ValidFile(f, lastSequence)
    ensures if l == c.level then f in c.inputs0 else f in c.inputs1
  {
    if Holds(c.inputs0, e) {
      f :| f in c.inputs0 && e in f.entries;
      l := c.level;
    } else {
      f :| f in c.inputs1 && e in f.entries;
      l := c.level + 1;
    }
  }

  lemma StaysNewer(v: Version, c: Inputs, outputs: seq<File>, lastSequence: nat, nextFile: nat, nextFile': nat,
                   l: nat, g: File, o: File)
    requires ValidFiles(v, lastSequence, nextFile) && LevelsByAge(v)
    requires WellChosen(v, c) && GoodOutputs(v, c, outputs, lastSequence, nextFile')
    requires l < NUM_LEVELS && Stays(v, c, l, g) && o in outputs && l != c.level + 1
    ensures if l <= c.level then Newer(g, o) else Newer(o, g)
  {
    forall e, d | e in g.entries && d in o.entries && e.key.user == d.key.user
      ensures if l <= c.level then e.key.seqno > d.key.seqno else d.key.seqno > e.key.seqno
    {
      var m, f := InputFile(v, c, lastSequence, nextFile, d);
      hide GoodOutputs, ValidFiles;
      assert if l <= c.level then Newer(g, f) else Newer(f, g);
    }
  }

  lemma ReplacedByAge(v: Version, c: Inputs, outputs: seq<File>, w: Version, lastSequence: nat, nextFile: nat, nextFile': nat)
    requires ValidFiles(v, lastSequence, nextFile) && LevelsByAge(v)
    requires WellChosen(v, c) && GoodOutputs(v, c, outputs, lastSequence, nextFile') && Replaced(v, c, outputs, w)
    ensures LevelsByAge(w)
  {
    forall l, m, f, g | 0 <= l < m < NUM_LEVELS && f in w[l] && g in w[m] ensures Newer(f, g) {
      if Stays(v, c, l, f) && Stays(v, c, m, g) {
      } else if Stays(v, c, l, f) {
        if l == c.level + 1 { assert false; }
        StaysNewer(v, c, outputs, lastSequence, nextFile, nextFile', l, f, g);
      } else {
        if m == c.level + 1 { assert false; }
        StaysNewer(v, c, outputs, lastSequence, nextFile, nextFile', m, g, f);
      }
    }
  }

  lemma ReplacedSorted(v: Version, c: Inputs, outputs: seq<File>, w: Version, lastSequence: nat, nextFile: nat, nextFile': nat)
    requires Shape(v, lastSequence, nextFile)
    requires WellChosen(v, c) && GoodOutputs(v, c, outputs, lastSequence, nextFile') && Replaced(v, c, outputs, w)
    ensures LevelsSorted(w)
  {
    forall l, f, g | 1 <= l < NUM_LEVELS && f in w[l] && g in w[l] && f != g ensures Apart(f, g) {
      if Stays(v, c, l, f) && Stays(v, c, l, g) {
        assert Disjoint(v[l]);
      } else if Stays(v, c, l, f) {
        OutputApart(v, c, outputs, lastSequence, nextFile, nextFile', f, g);
      } else if Stays(v, c, l, g) {
        OutputApart(v, c, outputs, lastSequence, nextFile, nextFile', g, f);
      }
    }
  }

  lemma ReplacedNumbers(v: Version, c: Inputs, outputs: seq<File>, w: Version, lastSequence: nat, nextFile: nat)
    requires NumbersDistinct(v) && c.level + 1 < NUM_LEVELS
    requires GoodOutputs(v, c, outputs, lastSequence, nextFile) && Replaced(v, c, outputs, w)
    ensures NumbersDistinct(w)
  {
    forall l, m, f, g | 0 <= l < NUM_LEVELS && 0 <= m < NUM_LEVELS && f in w[l] && g in w[m] && f.number == g.number
      ensures l == m && f == g
    {
      var fStays, gStays := Stays(v, c, l, f), Stays(v, c, m, g);
    }
  }

  lemma ReplacedLevel0(v: Version, c: Inputs, outputs: seq<File>, w: Version)
    requires Level0ByAge(v) && c.level + 1 < NUM_LEVELS && Replaced(v, c, outputs, w)
    ensures Level0ByAge(w)
  {
    forall f, g | f in w[0] && g in w[0] && f.number > g.number ensures Newer(f, g) {
      assert Stays(v, c, 0, f) && Stays(v, c, 0, g);
    }
  }

  lemma ReplacedFiles(v: Version, c: Inputs, outputs: seq<File>, w: Version, lastSequence: nat, nextFile: nat, nextFile': nat)
    requires ValidFiles(v, lastSequence, nextFile) && nextFile <= nextFile' && c.level + 1 < NUM_LEVELS
    requires GoodOutputs(v, c, outputs, lastSequence, nextFile') && Replaced(v, c, outputs, w)
    ensures ValidFiles(w, lastSequence, nextFile')
  {}

  /** A compaction keeps the shape of the version, whatever it drops and wherever it cuts outputs. */
  lemma ReplacedShape(v: Version, c: Inputs, outputs: seq<File>, w: Version, lastSequence: nat, nextFile: nat, nextFile': nat)
    requires Shape(v, lastSequence, nextFile) && nextFile <= nextFile'
    requires WellChosen(v, c) && GoodOutputs(v, c, outputs, lastSequence, nextFile') && Replaced(v, c, outputs, w)
    ensures Shape(w, lastSequence, nextFile')
  {
    ReplacedByAge(v, c, outputs, w, lastSequence, nextFile, nextFile');
    ReplacedSorted(v, c, outputs, w, lastSequence, nextFile, nextFile');
    ReplacedFiles(v, c, outputs, w, lastSequence, nextFile, nextFile');
    ReplacedNumbers(v, c, outputs, w, lastSequence, nextFile');
    ReplacedLevel0(v, c, outputs, w);
    hide *;
  }
}
