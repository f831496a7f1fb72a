/** The version set: it logs each edit before it installs the version the edit leads to
    (VersionSet::LogAndApply, WriteSnapshot). */
module VersionSets {
  import opened Format
  import opened Versions
  import opened Coding
  import opened Builder
  import opened EditFormat
  import opened LogFormat
  import opened LogWriting
  import opened LogReading
  import opened Manifest

  // ----- snapshots of a version

  function PointersFrom(pointers: seq<seq<byte>>, l: nat): seq<(nat, seq<byte>)>
    requires l <= |pointers|
  {
    if l == 0 then [] else PointersFrom(pointers, l - 1) + if pointers[l - 1] != [] then [(l - 1, pointers[l - 1])] else []
  }

  function LevelFiles(files: seq<File>, l: nat, metaOf: File -> FileMeta): (r: seq<(nat, FileMeta)>)
    ensures |r| == |files| && forall i :: 0 <= i < |files| ==> r[i] == (l, metaOf(files[i]))
  {
    seq(|files|, i requires 0 <= i < |files| => (l, metaOf(files[i])))
  }

  function FilesFrom(v: Version, l: nat, metaOf: File -> FileMeta): seq<(nat, FileMeta)>
    requires l <= NUM_LEVELS
  {
    if l == 0 then [] else FilesFrom(v, l - 1, metaOf) + LevelFiles(v[l - 1], l - 1, metaOf)
  }

  /** The edit that describes a whole version. */
  function Snapshot(comparator: seq<byte>, pointers: seq<seq<byte>>, v: Version, metaOf: File -> FileMeta): WireEdit
    requires |pointers| == NUM_LEVELS
  {
    EMPTY_EDIT.(comparator := Some(comparator), compactPointers := PointersFrom(pointers, NUM_LEVELS), added := FilesFrom(v, NUM_LEVELS, metaOf))
  }

  /** A file can be described and found again. */
  ghost predicate Describable(open: FileMeta -> File, metaOf: File -> FileMeta, l: nat, f: File) {
    open(metaOf(f)) == f && metaOf(f).number == f.number && FieldFits(NewFile(l, metaOf(f)))
  }

  ghost predicate AllDescribable(open: FileMeta -> File, metaOf: File -> FileMeta, v: Version) {
    forall l, f :: 0 <= l < NUM_LEVELS && f in v[l] ==> Describable(open, metaOf, l, f)
  }

  ghost predicate OwnNumbers(v: Version) {
    forall l, f, g :: 0 <= l < NUM_LEVELS && f in v[l] && g in v[l] && f.number == g.number ==> f == g
  }

  lemma {:induction false} FilesFromMembers(v: Version, l: nat, metaOf: File -> FileMeta, m: nat, meta: FileMeta)
    requires l <= NUM_LEVELS
    ensures (m, meta) in FilesFrom(v, l, metaOf) <==> m < l && exists f :: f in v[m] && metaOf(f) == meta
    decreases l
  {
    if l > 0 {
      FilesFromMembers(v, l - 1, metaOf, m, meta);
      var here := LevelFiles(v[l - 1], l - 1, metaOf);
      if (m, meta) in here {
        var i :| 0 <= i < |here| && here[i] == (m, meta);
        assert v[l - 1][i] in v[l - 1];
      }
      if m == l - 1 {
        if f :| f in v[m] && metaOf(f) == meta {
          var i :| 0 <= i < |v[m]| && v[m][i] == f;
          assert here[i] == (m, meta);
        }
      }
    }
  }

  lemma SnapshotAdds(open: FileMeta -> File, metaOf: File -> FileMeta, comparator: seq<byte>, pointers: seq<seq<byte>>, v: Version, l: nat, f: File)
    requires |pointers| == NUM_LEVELS && AllDescribable(open, metaOf, v)
    ensures Adds(Opened(open, Snapshot(comparator, pointers, v, metaOf)), l, f) <==> l < NUM_LEVELS && f in v[l]
  {
    var e := Snapshot(comparator, pointers, v, metaOf);
    var added := Opened(open, e).added;
    if Adds(Opened(open, e), l, f) {
      var i :| 0 <= i < |added| && added[i] == (l, f);
      FilesFromMembers(v, NUM_LEVELS, metaOf, l, e.added[i].1);
      assert e.added[i] in e.added;
      var g :| g in v[l] && metaOf(g) == e.added[i].1;
      assert Describable(open, metaOf, l, g);
    }
    if l < NUM_LEVELS && f in v[l] {
      FilesFromMembers(v, NUM_LEVELS, metaOf, l, metaOf(f));
      var i :| 0 <= i < |e.added| && e.added[i] == (l, metaOf(f));
      assert Describable(open, metaOf, l, f);
      assert added[i] == (l, f);
    }
  }

  /** A snapshot stands for the version it was taken of. */
  lemma SnapshotReflects(open: FileMeta -> File, metaOf: File -> FileMeta, comparator: seq<byte>, pointers: seq<seq<byte>>, v: Version)
    requires |pointers| == NUM_LEVELS && AllDescribable(open, metaOf, v) && forall l :: 0 <= l < NUM_LEVELS ==> Ordered(v[l])
    ensures Reflects(open, [Snapshot(comparator, pointers, v, metaOf)], v)
  {
    var e := Snapshot(comparator, pointers, v, metaOf);
    hide Ordered, AllDescribable, Adds;
    forall l: nat, f | l < NUM_LEVELS ensures f in v[l] <==> LiveIn(open, [e], l, f) {
      SnapshotAdds(open, metaOf, comparator, pointers, v, l, f);
      assert [e][..0] == [];
    }
  }

  lemma {:induction false} PointersApplied(pointers: seq<seq<byte>>, l: nat)
    requires |pointers| == NUM_LEVELS && l <= NUM_LEVELS
    ensures forall i :: 0 <= i < |PointersFrom(pointers, l)| ==> PointersFrom(pointers, l)[i].0 < l
    ensures ApplyPointers(seq(NUM_LEVELS, _ => []), PointersFrom(pointers, l)) == pointers[..l] + seq(NUM_LEVELS - l, _ => [])
    decreases l
  {
    if l > 0 {
      PointersApplied(pointers, l - 1);
      var ps := PointersFrom(pointers, l);
      var before: seq<seq<byte>> := pointers[..l - 1] + seq(NUM_LEVELS - (l - 1), _ => []);
      var after: seq<seq<byte>> := pointers[..l] + seq(NUM_LEVELS - l, _ => []);
      assert before[l - 1 := pointers[l - 1]] == after;
      if pointers[l - 1] != [] {
        assert ps[..|ps| - 1] == PointersFrom(pointers, l - 1);
      } else {
        assert before == after && ps == PointersFrom(pointers, l - 1);
      }
    }
  }

  lemma {:induction false} PointersFromFit(pointers: seq<seq<byte>>, l: nat)
    requires |pointers| == NUM_LEVELS && l <= NUM_LEVELS && forall i :: 0 <= i < NUM_LEVELS ==> |pointers[i]| < TWO_TO_32
    ensures forall p :: p in PointersFrom(pointers, l) ==> p.0 < NUM_LEVELS && |p.1| < TWO_TO_32
    decreases l
  {
    if l > 0 {
      PointersFromFit(pointers, l - 1);
    }
  }

  lemma SnapshotFits(open: FileMeta -> File, metaOf: File -> FileMeta, comparator: seq<byte>, pointers: seq<seq<byte>>, v: Version)
    requires |comparator| < TWO_TO_32 && |pointers| == NUM_LEVELS && forall i :: 0 <= i < NUM_LEVELS ==> |pointers[i]| < TWO_TO_32
    requires AllDescribable(open, metaOf, v)
    ensures WireOk(comparator, Snapshot(comparator, pointers, v, metaOf))
  {
    var e := Snapshot(comparator, pointers, v, metaOf);
    PointersFromFit(pointers, NUM_LEVELS);
    forall p | p in e.added ensures p.0 < NUM_LEVELS && FieldFits(NewFile(p.0, p.1)) {
      FilesFromMembers(v, NUM_LEVELS, metaOf, p.0, p.1);
      assert p == (p.0, p.1);
      var f :| f in v[p.0] && metaOf(f) == p.1;
      assert Describable(open, metaOf, p.0, f);
    }
    FieldsFit(e);
  }

  /** An edit fits if its parts do. */
  lemma FieldsFit(e: WireEdit)
    requires e.comparator.Some? ==> |e.comparator.value| < TWO_TO_32
    requires forall c :: Count(e, c).Some? ==> Count(e, c).value < TWO_TO_64
    requires forall p :: p in e.compactPointers ==> p.0 < NUM_LEVELS && |p.1| < TWO_TO_32
    requires forall p :: p in e.deleted ==> p.0 < NUM_LEVELS && p.1 < TWO_TO_64
    requires forall p :: p in e.added ==> p.0 < NUM_LEVELS && FieldFits(NewFile(p.0, p.1))
    ensures forall i :: 0 <= i < |FieldsOf(e)| ==> FieldFits(FieldsOf(e)[i])
  {
    HeadFits(e);
    var fs := FieldsOf(e);
    hide HeadFields;
    forall f | f in fs ensures FieldFits(f) {
      if f in PointerFields(e.compactPointers) {
        var i :| 0 <= i < |e.compactPointers| && PointerFields(e.compactPointers)[i] == f;
        assert e.compactPointers[i] in e.compactPointers;
      } else if f in DeletedFields(e.deleted) {
        var i :| 0 <= i < |e.deleted| && DeletedFields(e.deleted)[i] == f;
        assert e.deleted[i] in e.deleted;
      } else if f in AddedFields(e.added) {
        var i :| 0 <= i < |e.added| && AddedFields(e.added)[i] == f;
        assert e.added[i] in e.added;
      }
    }
  }

  lemma HeadFits(e: WireEdit)
    requires e.comparator.Some? ==> |e.comparator.value| < TWO_TO_32
    requires forall c :: Count(e, c).Some? ==> Count(e, c).value < TWO_TO_64
    ensures forall f :: f in HeadFields(e) ==> FieldFits(f)
  {
    assert Count(e, TheLog) == e.logNumber && Count(e, ThePrevLog) == e.prevLogNumber;
    assert Count(e, TheNextFile) == e.nextFile && Count(e, TheLastSequence) == e.lastSequence;
  }

  // ----- LogAndApply

  /** The edit as it is logged: with the numbers the version set fills in. */
  function Filled(e: WireEdit, log: nat, prevLog: nat, nextFile: nat, lastSequence: nat): WireEdit {
    e.(logNumber := if e.logNumber.Some? then e.logNumber else Some(log),
       prevLogNumber := if e.prevLogNumber.Some? then e.prevLogNumber else Some(prevLog),
       nextFile := Some(nextFile),
       lastSequence := Some(lastSequence))
  }

  /** What a caller may log on top of a version. */
  ghost predicate Acceptable(open: FileMeta -> File, metaOf: File -> FileMeta, v: Version, nextFile: nat, e: WireEdit) {
    && e.comparator == None && LevelsFit(e) && PairsOrdered(e.deleted)
    && (forall p :: p in e.compactPointers ==> |p.1| < TWO_TO_32)
    && (forall p :: p in e.deleted ==> p.1 < TWO_TO_64)
    && (forall p :: p in e.added ==> p.1.number < nextFile && metaOf(open(p.1)) == p.1 && open(p.1).number == p.1.number && FieldFits(NewFile(p.0, p.1)))
    && FreshFor(v, Opened(open, e))
  }

  lemma FilledFits(comparator: seq<byte>, open: FileMeta -> File, metaOf: File -> FileMeta, v: Version, e: WireEdit, log: nat, prevLog: nat, nextFile: nat, lastSequence: nat)
    requires Acceptable(open, metaOf, v, nextFile, e)
    requires (if e.logNumber.Some? then e.logNumber.value else log) < TWO_TO_64
    requires (if e.prevLogNumber.Some? then e.prevLogNumber.value else prevLog) < TWO_TO_64
    requires nextFile < TWO_TO_64 && lastSequence < TWO_TO_64
    ensures WireOk(comparator, Filled(e, log, prevLog, nextFile, lastSequence))
    ensures Opened(open, Filled(e, log, prevLog, nextFile, lastSequence)) == Opened(open, e)
  {
    hide FreshFor, FieldFits, PairsOrdered;
    FieldsFit(Filled(e, log, prevLog, nextFile, lastSequence));
  }

  /** The files of the new version can be described too, and their numbers were handed out. */
  lemma AppliedDescribable(open: FileMeta -> File, metaOf: File -> FileMeta, v: Version, nextFile: nat, e: WireEdit, w: Version)
    requires Acceptable(open, metaOf, v, nextFile, e) && AllDescribable(open, metaOf, v) && OwnNumbers(v)
    requires EditApplied(v, Opened(open, e), w)
    requires forall l, f :: 0 <= l < NUM_LEVELS && f in v[l] ==> f.number < nextFile
    ensures AllDescribable(open, metaOf, w) && OwnNumbers(w)
    ensures forall l, f :: 0 <= l < NUM_LEVELS && f in w[l] ==> f.number < nextFile
  {
    hide LevelsFit, PairsOrdered, LevelsInRange, Ordered;
    forall l: nat, f | Adds(Opened(open, e), l, f) ensures Describable(open, metaOf, l, f) && f.number < nextFile {
      var added := Opened(open, e).added;
      var i :| 0 <= i < |added| && added[i] == (l, f);
      assert e.added[i] in e.added;
    }
    hide Opened, Adds, Deletes, Describable;
  }

  /** Logging one more edit keeps the manifest true to the version. */
  lemma ReflectsMore(open: FileMeta -> File, edits: seq<WireEdit>, v: Version, e: WireEdit, w: Version)
    requires Reflects(open, edits, v) && EditApplied(v, Opened(open, e), w)
    ensures Reflects(open, edits + [e], w)
  {
    hide Opened, Adds, Deletes, Ordered;
    assert (edits + [e])[..|edits|] == edits;
  }

  /** An edit on top of a snapshot names files as uniquely as the version and the edit do. */
  lemma SnapshotNamed(open: FileMeta -> File, metaOf: File -> FileMeta, comparator: seq<byte>, pointers: seq<seq<byte>>, v: Version, e: WireEdit)
    requires |pointers| == NUM_LEVELS && AllDescribable(open, metaOf, v) && OwnNumbers(v) && FreshFor(v, Opened(open, e))
    ensures Named(open, [Snapshot(comparator, pointers, v, metaOf)] + [e])
  {
    var s := Snapshot(comparator, pointers, v, metaOf);
    forall l: nat, f ensures EverAdded(open, [s] + [e], l, f) <==> (l < NUM_LEVELS && f in v[l]) || Adds(Opened(open, e), l, f) {
      EverAddedMore(open, [s], e, l, f);
      EverAddedMore(open, [], s, l, f);
      assert [] + [s] == [s];
      SnapshotAdds(open, metaOf, comparator, pointers, v, l, f);
    }
    hide Opened, Adds, EverAdded, AllDescribable, LevelsInRange;
  }

  lemma RecordsMore(edits: seq<WireEdit>, e: WireEdit)
    ensures Records(edits + [e]) == Records(edits) + [EditBytes(e)]
  {
  }

  function LastPointer(ps: seq<(nat, seq<byte>)>, l: nat): Option<seq<byte>> {
    if ps == [] then None else if ps[|ps| - 1].0 == l then Some(ps[|ps| - 1].1) else LastPointer(ps[..|ps| - 1], l)
  }

  lemma {:induction false} PointersAt(pointers: seq<seq<byte>>, ps: seq<(nat, seq<byte>)>, l: nat)
    requires |pointers| == NUM_LEVELS && l < NUM_LEVELS && forall i :: 0 <= i < |ps| ==> ps[i].0 < NUM_LEVELS
    ensures ApplyPointers(pointers, ps)[l] == match LastPointer(ps, l) case None => pointers[l] case Some(key) => key
    decreases |ps|
  {
    if ps != [] {
      PointersAt(pointers, ps[..|ps| - 1], l);
    }
  }

  /** A snapshot taken after the pointers moved is not changed by moving them again. */
  lemma PointersTwice(pointers: seq<seq<byte>>, ps: seq<(nat, seq<byte>)>)
    requires |pointers| == NUM_LEVELS && forall i :: 0 <= i < |ps| ==> ps[i].0 < NUM_LEVELS
    ensures ApplyPointers(ApplyPointers(pointers, ps), ps) == ApplyPointers(pointers, ps)
  {
    forall l: nat | l < NUM_LEVELS ensures ApplyPointers(ApplyPointers(pointers, ps), ps)[l] == ApplyPointers(pointers, ps)[l] {
      PointersAt(pointers, ps, l);
      PointersAt(ApplyPointers(pointers, ps), ps, l);
    }
  }

  lemma {:induction false} PointersStayShort(pointers: seq<seq<byte>>, ps: seq<(nat, seq<byte>)>)
    requires |pointers| == NUM_LEVELS && forall i :: 0 <= i < |ps| ==> ps[i].0 < NUM_LEVELS && |ps[i].1| < TWO_TO_32
    requires forall i :: 0 <= i < NUM_LEVELS ==> |pointers[i]| < TWO_TO_32
    ensures forall i :: 0 <= i < NUM_LEVELS ==> |ApplyPointers(pointers, ps)[i]| < TWO_TO_32
    decreases |ps|
  {
    if ps != [] {
      PointersStayShort(pointers, ps[..|ps| - 1]);
    }
  }

  lemma PointersAlone(comparator: seq<byte>, pointers: seq<seq<byte>>, v: Version, metaOf: File -> FileMeta)
    requires |pointers| == NUM_LEVELS && LevelsFit(Snapshot(comparator, pointers, v, metaOf))
    ensures PointersAre([Snapshot(comparator, pointers, v, metaOf)], pointers)
  {
    hide FilesFrom;
    var s := Snapshot(comparator, pointers, v, metaOf);
    PointersApplied(pointers, NUM_LEVELS);
    PointersMore([], s);
    assert [] + [s] == [s];
    assert pointers[..NUM_LEVELS] + seq(NUM_LEVELS - NUM_LEVELS, _ => []) == pointers;
  }

  ghost predicate PointersAre(edits: seq<WireEdit>, pointers: seq<seq<byte>>) {
    (forall i :: 0 <= i < |edits| ==> LevelsFit(edits[i])) && Pointers(edits) == pointers
  }

  // ----- the state of a version set

  datatype Live = Live(version: Version, log: nat, prevLog: nat, nextFile: nat, lastSequence: nat, pointers: seq<seq<byte>>)

  /** The state by itself is in order. */
  ghost predicate StateOk(open: FileMeta -> File, metaOf: File -> FileMeta, s: Live) {
    && |s.pointers| == NUM_LEVELS && (forall i :: 0 <= i < NUM_LEVELS ==> |s.pointers[i]| < TWO_TO_32)
    && (forall l :: 0 <= l < NUM_LEVELS ==> Ordered(s.version[l]))
    && AllDescribable(open, metaOf, s.version) && OwnNumbers(s.version)
    && (forall l, f :: 0 <= l < NUM_LEVELS && f in s.version[l] ==> f.number < s.nextFile)
    && s.log < s.nextFile < TWO_TO_64 && s.prevLog < TWO_TO_64 && s.lastSequence < TWO_TO_64
  }

  /** The edits of a manifest stand for the state: recovery will find its files and its numbers,
      with a next file number above everything in use. */
  ghost predicate Stands(open: FileMeta -> File, comparator: seq<byte>, edits: seq<WireEdit>, s: Live) {
    && Replayable(open, comparator, edits)
    && Reflects(open, edits, s.version)
    && Latest(edits, TheLog) == Some(s.log) && Latest(edits, ThePrevLog) == Some(s.prevLog)
    && Latest(edits, TheNextFile).Some? && s.log < Latest(edits, TheNextFile).value <= s.nextFile
    && (forall l, f :: 0 <= l < NUM_LEVELS && f in s.version[l] ==> f.number < Latest(edits, TheNextFile).value)
    && Latest(edits, TheLastSequence).Some? && Latest(edits, TheLastSequence).value <= s.lastSequence
    && PointersAre(edits, s.pointers)
  }

  /** What an edit makes of the state. */
  ghost predicate Applied(open: FileMeta -> File, s: Live, e: WireEdit, t: Live) {
    && EditApplied(s.version, Opened(open, e), t.version)
    && t.log == (if e.logNumber.Some? then e.logNumber.value else s.log)
    && t.prevLog == (if e.prevLogNumber.Some? then e.prevLogNumber.value else s.prevLog)
    && t.nextFile == s.nextFile && t.lastSequence == s.lastSequence
    && |s.pointers| == NUM_LEVELS && (forall i :: 0 <= i < |e.compactPointers| ==> e.compactPointers[i].0 < NUM_LEVELS)
    && t.pointers == ApplyPointers(s.pointers, e.compactPointers)
  }

  ghost predicate NumbersOk(s: Live, e: WireEdit) {
    && (e.logNumber.Some? ==> s.log <= e.logNumber.value < s.nextFile)
    && (e.prevLogNumber.Some? ==> e.prevLogNumber.value < TWO_TO_64)
  }

  /** The counters in the last edit. */
  ghost predicate LoggedAs(edits: seq<WireEdit>, nextFile: nat, lastSequence: nat) {
    Latest(edits, TheNextFile) == Some(nextFile) && Latest(edits, TheLastSequence) == Some(lastSequence)
  }

  function FilledIn(s: Live, e: WireEdit): WireEdit {
    Filled(e, s.log, s.prevLog, s.nextFile, s.lastSequence)
  }

  lemma AppliedOk(open: FileMeta -> File, metaOf: File -> FileMeta, s: Live, e: WireEdit, t: Live)
    requires StateOk(open, metaOf, s) && Acceptable(open, metaOf, s.version, s.nextFile, e) && NumbersOk(s, e) && Applied(open, s, e, t)
    ensures StateOk(open, metaOf, t)
  {
    hide Opened, AllDescribable, OwnNumbers, Ordered;
    AppliedDescribable(open, metaOf, s.version, s.nextFile, e, t.version);
    forall i | 0 <= i < |e.compactPointers| ensures |e.compactPointers[i].1| < TWO_TO_32 {
      assert e.compactPointers[i] in e.compactPointers;
    }
    PointersStayShort(s.pointers, e.compactPointers);
  }

  lemma ReplayableMore(open: FileMeta -> File, comparator: seq<byte>, edits: seq<WireEdit>, e: WireEdit, e': WireEdit)
    requires forall i :: 0 <= i < |edits| ==> WireOk(comparator, edits[i])
    requires Named(open, edits + [e]) && WireOk(comparator, e') && Opened(open, e') == Opened(open, e)
    ensures Replayable(open, comparator, edits + [e'])
  {
    hide Opened, WireOk, Adds, EverAdded;
    forall l: nat, f ensures EverAdded(open, edits + [e'], l, f) <==> EverAdded(open, edits + [e], l, f) {
      EverAddedMore(open, edits, e, l, f);
      EverAddedMore(open, edits, e', l, f);
    }
  }

  lemma LatestFilled(edits: seq<WireEdit>, s: Live, e: WireEdit)
    ensures var es := edits + [FilledIn(s, e)];
      && Latest(es, TheLog) == Some(if e.logNumber.Some? then e.logNumber.value else s.log)
      && Latest(es, ThePrevLog) == Some(if e.prevLogNumber.Some? then e.prevLogNumber.value else s.prevLog)
      && LoggedAs(es, s.nextFile, s.lastSequence)
  {
    LatestMore(edits, FilledIn(s, e), TheLog);
    LatestMore(edits, FilledIn(s, e), ThePrevLog);
    LatestMore(edits, FilledIn(s, e), TheNextFile);
    LatestMore(edits, FilledIn(s, e), TheLastSequence);
  }

  lemma FilledOk(open: FileMeta -> File, metaOf: File -> FileMeta, comparator: seq<byte>, s: Live, e: WireEdit)
    requires StateOk(open, metaOf, s) && Acceptable(open, metaOf, s.version, s.nextFile, e) && NumbersOk(s, e)
    ensures WireOk(comparator, FilledIn(s, e)) && Opened(open, FilledIn(s, e)) == Opened(open, e) && LevelsFit(FilledIn(s, e))
  {
    hide Opened, AllDescribable, OwnNumbers, Ordered, Acceptable;
    FilledFits(comparator, open, metaOf, s.version, e, s.log, s.prevLog, s.nextFile, s.lastSequence);
  }

  /** Logging the edit keeps the manifest true, when what is in it so far has the old files and
      the new pointers or the old ones. */
  lemma StandsMore(open: FileMeta -> File, metaOf: File -> FileMeta, comparator: seq<byte>, edits: seq<WireEdit>, s: Live, e: WireEdit, t: Live)
    requires StateOk(open, metaOf, s) && Acceptable(open, metaOf, s.version, s.nextFile, e) && NumbersOk(s, e) && Applied(open, s, e, t)
    requires forall i :: 0 <= i < |edits| ==> WireOk(comparator, edits[i])
    requires Named(open, edits + [e]) && Reflects(open, edits, s.version)
    requires PointersAre(edits, s.pointers) || PointersAre(edits, t.pointers)
    ensures Stands(open, comparator, edits + [FilledIn(s, e)], t)
  {
    AppliedOk(open, metaOf, s, e, t);
    FilledOk(open, metaOf, comparator, s, e);
    var e' := FilledIn(s, e);
    assert EditApplied(s.version, Opened(open, e'), t.version) && s.log < s.nextFile && t.pointers == ApplyPointers(s.pointers, e.compactPointers);
    assert forall l, f :: 0 <= l < NUM_LEVELS && f in t.version[l] ==> f.number < s.nextFile;
    LatestFilled(edits, s, e);
    PointersTwice(s.pointers, e.compactPointers);
    hide StateOk, Acceptable, Opened, EditApplied, Reflects, Named, WireOk, LevelsFit, Latest;
    ReplayableMore(open, comparator, edits, e, e');
    ReflectsMore(open, edits, s.version, e', t.version);
    PointersMore(edits, e');
    hide Pointers, ApplyPointers, Replayable;
  }

  class VersionSet {
    const open: FileMeta -> File
    const metaOf: File -> FileMeta
    const comparator: seq<byte>
    var current: Version
    var logNumber: nat
    var prevLogNumber: nat
    var nextFileNumber: nat
    var lastSequence: nat
    var compactPointer: seq<seq<byte>>
    var descriptor: Writer?
    /** Everything the manifest holds, and the state when its last edit was logged. */
    ghost var edits: seq<WireEdit>
    ghost var logged: Live

    function St(): Live
      reads this
    {
      Live(current, logNumber, prevLogNumber, nextFileNumber, lastSequence, compactPointer)
    }

    ghost predicate Valid()
      reads this, descriptor
    {
      && |comparator| < TWO_TO_32 && StateOk(open, metaOf, St())
      && (descriptor != null ==> descriptor.Valid() && descriptor.records == Records(edits) && Stands(open, comparator, edits, St()))
      && (descriptor != null ==> LoggedAs(edits, logged.nextFile, logged.lastSequence))
    }

    /** A version set with this state and no manifest of its own yet. */
    constructor (open: FileMeta -> File, metaOf: File -> FileMeta, comparator: seq<byte>, s: Live)
      requires |comparator| < TWO_TO_32 && StateOk(open, metaOf, s)
      ensures Valid() && descriptor == null && St() == s
      ensures this.open == open && this.metaOf == metaOf && this.comparator == comparator
    {
      this.open, this.metaOf, this.comparator := open, metaOf, comparator;
      current, logNumber, prevLogNumber, nextFileNumber := s.version, s.log, s.prevLog, s.nextFile;
      lastSequence, compactPointer, descriptor, edits, logged := s.lastSequence, s.pointers, null, [], s;
    }

    method NewFileNumber() returns (number: nat)
      requires Valid() && nextFileNumber + 1 < TWO_TO_64
      modifies this`nextFileNumber
      ensures Valid() && number == old(nextFileNumber) && St() == old(St()).(nextFile := number + 1)
    {
      hide AllDescribable, OwnNumbers, Ordered, Replayable, Reflects, Latest, Writer.Valid;
      number := nextFileNumber;
      nextFileNumber := nextFileNumber + 1;
    }

    /** SetLastSequence: the numbers writers use up between two edits. */
    method SetLastSequence(s: nat)
      requires Valid() && lastSequence <= s < TWO_TO_64
      modifies this`lastSequence
      ensures Valid() && St() == old(St()).(lastSequence := s)
    {
      hide AllDescribable, OwnNumbers, Ordered, Replayable, Reflects, Latest, Writer.Valid;
      lastSequence := s;
    }

    method WriteSnapshot(log: Writer)
      requires |compactPointer| == NUM_LEVELS && log.Valid()
      modifies log
      ensures log.Valid() && log.records == old(log.records) + [EditBytes(Snapshot(comparator, compactPointer, current, metaOf))]
    {
      hide Writer.Valid, Snapshot;
      var record := EncodeTo(Snapshot(comparator, compactPointer, current, metaOf));
      log.AddRecord(record);
    }

    /** Logs the edit, after a snapshot when the manifest is new, and installs what it leads to. */
    method LogAndApply(edit: WireEdit)
      requires Valid() && Acceptable(open, metaOf, current, nextFileNumber, edit) && NumbersOk(St(), edit)
      requires descriptor != null ==> Named(open, edits + [edit])
      modifies this, descriptor
      ensures Valid() && descriptor != null && (if old(descriptor) == null then fresh(descriptor) else descriptor == old(descriptor))
      ensures Applied(open, old(St()), edit, St()) && logged == St() && LoggedAs(edits, logged.nextFile, logged.lastSequence)
    {
      hide StateOk, Acceptable, Stands, Writer.Valid, Snapshot, Applied, Records, EditBytes, NumbersOk, LoggedAs, Latest, Named, LogBytes, Pointers;
      ghost var s := St();
      var e := Filled(edit, logNumber, prevLogNumber, nextFileNumber, lastSequence);
      FilledNumbers(s, edit);
      var v, pointers := ApplyTo(edit);
      ghost var t := Live(v, e.logNumber.value, e.prevLogNumber.value, nextFileNumber, lastSequence, pointers);
      AppliedOk(open, metaOf, s, edit, t);
      if descriptor != null {
        NextStands(open, metaOf, comparator, edits, s, edit, t);
      }
      compactPointer := pointers;
      OpenManifest(s, edit, t);
      LogEdit(descriptor, e, edits);
      LatestFilled(edits, s, edit);
      edits := edits + [e];
      current, logNumber, prevLogNumber := v, e.logNumber.value, e.prevLogNumber.value;
      logged := St();
    }

    /** Creates the manifest when there is none: it starts with a snapshot of the current version. */
    method OpenManifest(ghost s: Live, ghost edit: WireEdit, ghost t: Live)
      requires |comparator| < TWO_TO_32 && StateOk(open, metaOf, s) && Acceptable(open, metaOf, s.version, s.nextFile, edit) && NumbersOk(s, edit) && Applied(open, s, edit, t)
      requires current == s.version && compactPointer == t.pointers
      requires descriptor != null ==> descriptor.Valid() && descriptor.records == Records(edits) && Stands(open, comparator, edits + [FilledIn(s, edit)], t)
      modifies `descriptor, `edits
      ensures if old(descriptor) == null then fresh(descriptor) else descriptor == old(descriptor)
      ensures descriptor != null && descriptor.Valid() && descriptor.records == Records(edits) && Stands(open, comparator, edits + [FilledIn(s, edit)], t)
    {
      hide StateOk, Acceptable, Stands, Writer.Valid, Snapshot, Applied, Records, NumbersOk, Filled;
      if descriptor == null {
        FirstStands(open, metaOf, comparator, s, edit, t);
        edits := [Snapshot(comparator, compactPointer, current, metaOf)];
        descriptor := NewManifest();
      }
    }

    /** A new manifest starts with a snapshot. */
    method NewManifest() returns (log: Writer)
      requires |compactPointer| == NUM_LEVELS
      ensures fresh(log) && log.Valid() && log.records == Records([Snapshot(comparator, compactPointer, current, metaOf)])
    {
      hide Writer.Valid, LogBytes, Snapshot, EditBytes;
      LogOfNothing();
      log := new Writer([], []);
      WriteSnapshot(log);
    }

    /** Builder::Apply and SaveTo: the new version and the new compaction pointers. */
    method ApplyTo(edit: WireEdit) returns (v: Version, pointers: seq<seq<byte>>)
      requires StateOk(open, metaOf, St()) && Acceptable(open, metaOf, current, nextFileNumber, edit)
      ensures Applied(open, St(), edit, Live(v, if edit.logNumber.Some? then edit.logNumber.value else logNumber,
        if edit.prevLogNumber.Some? then edit.prevLogNumber.value else prevLogNumber, nextFileNumber, lastSequence, pointers))
    {
      assert forall i :: 0 <= i < |edit.compactPointers| ==> edit.compactPointers[i] in edit.compactPointers;
      assert FreshFor(current, Opened(open, edit)) && LevelsFit(edit) && |compactPointer| == NUM_LEVELS;
      assert forall l :: 0 <= l < NUM_LEVELS ==> Ordered(current[l]);
      hide StateOk, Acceptable, Opened, EditApplied, FreshFor, Ordered, ApplyPointers;
      v := ApplyEdit(current, Opened(open, edit));
      pointers := SetCompactPointers(compactPointer, edit.compactPointers);
    }
  }

  lemma FilledNumbers(s: Live, e: WireEdit)
    ensures FilledIn(s, e).logNumber == Some(if e.logNumber.Some? then e.logNumber.value else s.log)
    ensures FilledIn(s, e).prevLogNumber == Some(if e.prevLogNumber.Some? then e.prevLogNumber.value else s.prevLog)
  {
  }

  method LogEdit(log: Writer, e: WireEdit, ghost edits: seq<WireEdit>)
    requires log.Valid() && log.records == Records(edits)
    modifies log
    ensures log.Valid() && log.records == Records(edits + [e])
  {
    hide Writer.Valid, EditBytes, Records;
    var record := EncodeTo(e);
    log.AddRecord(record);
    RecordsMore(edits, e);
  }

  lemma NextStands(open: FileMeta -> File, metaOf: File -> FileMeta, comparator: seq<byte>, edits: seq<WireEdit>, s: Live, e: WireEdit, t: Live)
    requires StateOk(open, metaOf, s) && Acceptable(open, metaOf, s.version, s.nextFile, e) && NumbersOk(s, e) && Applied(open, s, e, t)
    requires Stands(open, comparator, edits, s) && Named(open, edits + [e])
    ensures Stands(open, comparator, edits + [FilledIn(s, e)], t)
  {
    hide StateOk, Acceptable, Applied, Reflects, Named, WireOk, Latest, PointersAre, NumbersOk;
    StandsMore(open, metaOf, comparator, edits, s, e, t);
  }

  /** The first edit of a manifest comes after a snapshot of the version it is applied to. */
  lemma FirstStands(open: FileMeta -> File, metaOf: File -> FileMeta, comparator: seq<byte>, s: Live, e: WireEdit, t: Live)
    requires StateOk(open, metaOf, s) && Acceptable(open, metaOf, s.version, s.nextFile, e) && NumbersOk(s, e) && Applied(open, s, e, t)
    requires |comparator| < TWO_TO_32
    ensures |t.pointers| == NUM_LEVELS
    ensures Stands(open, comparator, [Snapshot(comparator, t.pointers, s.version, metaOf)] + [FilledIn(s, e)], t)
  {
    AppliedOk(open, metaOf, s, e, t);
    assert AllDescribable(open, metaOf, s.version) && OwnNumbers(s.version) && forall l :: 0 <= l < NUM_LEVELS ==> Ordered(s.version[l]);
    assert FreshFor(s.version, Opened(open, e)) && |t.pointers| == NUM_LEVELS && forall i :: 0 <= i < NUM_LEVELS ==> |t.pointers[i]| < TWO_TO_32;
    hide StateOk, Acceptable, Applied, Reflects, Named, Storable, LevelsFit, NumbersOk, AllDescribable, OwnNumbers, Ordered, FreshFor, Opened;
    var snapshot := Snapshot(comparator, t.pointers, s.version, metaOf);
    SnapshotFits(open, metaOf, comparator, t.pointers, s.version);
    SnapshotNamed(open, metaOf, comparator, t.pointers, s.version, e);
    SnapshotReflects(open, metaOf, comparator, t.pointers, s.version);
    PointersAlone(comparator, t.pointers, s.version, metaOf);
    StandsMore(open, metaOf, comparator, [snapshot], s, e, t);
  }

  // ----- recovery

  /** Reading a whole manifest back gives the files, the log numbers and the compaction pointers of
      the live state, the last sequence as of the last edit that was logged, and a next file number
      just above every number handed out by then. */
  method Reopen(vs: VersionSet) returns (r: Recovered)
    requires vs.Valid() && vs.descriptor != null
    ensures r.version == vs.current && r.log == vs.logNumber && r.prevLog == vs.prevLogNumber && r.pointers == vs.compactPointer
    ensures r.lastSequence == vs.logged.lastSequence <= vs.lastSequence && r.nextFile == vs.logged.nextFile + 1
    ensures r.log < r.nextFile && forall l, f :: 0 <= l < NUM_LEVELS && f in vs.current[l] ==> f.number < r.nextFile
  {
    hide StateOk, Stands, LogBytes, EndInside, Complete, Means, Reflects, Records, Replayable, Latest, Writer.Valid;
    WriterDest(vs.descriptor);
    StandsReplayable(vs.open, vs.comparator, vs.edits, vs.St());
    ghost var n := SomeInside(Records(vs.edits), |vs.descriptor.dest|);
    AllInside(Records(vs.edits), n);
    var found := Recover(vs.descriptor.dest, vs.open, vs.comparator, vs.edits, n);
    assert vs.edits[..n] == vs.edits;
    r := found.value;
    MeansLive(vs.open, vs.comparator, vs.edits, vs.St(), r);
  }

  lemma StandsReplayable(open: FileMeta -> File, comparator: seq<byte>, edits: seq<WireEdit>, s: Live)
    requires Stands(open, comparator, edits, s)
    ensures Replayable(open, comparator, edits) && Complete(edits)
  {
    hide Replayable, Reflects, Latest, PointersAre;
  }

  /** What recovery makes of a manifest is the state the manifest stands for. */
  lemma MeansLive(open: FileMeta -> File, comparator: seq<byte>, edits: seq<WireEdit>, s: Live, r: Recovered)
    requires Stands(open, comparator, edits, s) && forall i :: 0 <= i < |edits| ==> LevelsFit(edits[i])
    requires Means(open, edits, r)
    ensures r.version == s.version && r.log == s.log && r.prevLog == s.prevLog && r.pointers == s.pointers
    ensures Latest(edits, TheLastSequence) == Some(r.lastSequence) && r.lastSequence <= s.lastSequence
    ensures Latest(edits, TheNextFile).Some? && r.nextFile == Latest(edits, TheNextFile).value + 1
    ensures r.log < r.nextFile && forall l, f :: 0 <= l < NUM_LEVELS && f in s.version[l] ==> f.number < r.nextFile
  {
    hide Replayable, Latest, Pointers, Ordered, LiveIn, LevelsFit;
    forall l: nat | l < NUM_LEVELS ensures r.version[l] == s.version[l] {
      OrderedUnique(r.version[l], s.version[l]);
    }
  }
}
