/** The manifest: a log of version edits that recovery replays (VersionSet::LogAndApply, Recover). */
module Manifest {
  import opened Format
  import opened Versions
  import opened Coding
  import opened Builder
  import opened EditFormat
  import opened LogFormat
  import opened LogReading

  /** An edit with its files opened. */
  function Opened(open: FileMeta -> File, e: WireEdit): Edit {
    NO_EDIT.(deleted := e.deleted, added := seq(|e.added|, i requires 0 <= i < |e.added| => (e.added[i].0, open(e.added[i].1))))
  }

  /** A file of a level after these edits: added, and not deleted since. */
  ghost predicate LiveIn(open: FileMeta -> File, edits: seq<WireEdit>, l: nat, f: File) {
    edits != [] &&
    var e := Opened(open, edits[|edits| - 1]);
    Adds(e, l, f) || (LiveIn(open, edits[..|edits| - 1], l, f) && !Deletes(e, l, f.number))
  }

  ghost predicate EverAdded(open: FileMeta -> File, edits: seq<WireEdit>, l: nat, f: File) {
    exists i :: 0 <= i < |edits| && Adds(Opened(open, edits[i]), l, f)
  }

  /** At each level a file number always names the same file. */
  ghost predicate Named(open: FileMeta -> File, edits: seq<WireEdit>) {
    forall l, f, g :: EverAdded(open, edits, l, f) && EverAdded(open, edits, l, g) && f.number == g.number ==> f == g
  }

  ghost predicate Reflects(open: FileMeta -> File, edits: seq<WireEdit>, v: Version) {
    && (forall l :: 0 <= l < NUM_LEVELS ==> Ordered(v[l]))
    && (forall l, f :: 0 <= l < NUM_LEVELS ==> (f in v[l] <==> LiveIn(open, edits, l, f)))
  }

  /** The numbers an edit may carry. */
  datatype Counter = TheLog | ThePrevLog | TheNextFile | TheLastSequence

  function Count(e: WireEdit, c: Counter): Option<nat> {
    match c
    case TheLog => e.logNumber
    case ThePrevLog => e.prevLogNumber
    case TheNextFile => e.nextFile
    case TheLastSequence => e.lastSequence
  }

  /** The latest value the edits give a number, if any does. */
  function Latest(edits: seq<WireEdit>, c: Counter): Option<nat> {
    if edits == [] then None
    else if Count(edits[|edits| - 1], c).Some? then Count(edits[|edits| - 1], c)
    else Latest(edits[..|edits| - 1], c)
  }

  /** Builder::Apply on the compaction pointers. */
  function ApplyPointers(pointers: seq<seq<byte>>, ps: seq<(nat, seq<byte>)>): (r: seq<seq<byte>>)
    requires |pointers| == NUM_LEVELS && forall i :: 0 <= i < |ps| ==> ps[i].0 < NUM_LEVELS
    ensures |r| == NUM_LEVELS
  {
    if ps == [] then pointers
    else ApplyPointers(pointers, ps[..|ps| - 1])[ps[|ps| - 1].0 := ps[|ps| - 1].1]
  }

  ghost predicate WireOk(comparator: seq<byte>, e: WireEdit) {
    Storable(e) && LevelsFit(e) && (e.comparator.Some? ==> e.comparator.value == comparator)
  }

  ghost predicate LevelsFit(e: WireEdit) {
    && (forall p :: p in e.compactPointers ==> p.0 < NUM_LEVELS)
    && (forall p :: p in e.deleted ==> p.0 < NUM_LEVELS)
    && (forall p :: p in e.added ==> p.0 < NUM_LEVELS)
  }

  function Pointers(edits: seq<WireEdit>): (r: seq<seq<byte>>)
    requires forall i :: 0 <= i < |edits| ==> LevelsFit(edits[i])
    ensures |r| == NUM_LEVELS
  {
    if edits == [] then seq(NUM_LEVELS, _ => [])
    else
      assert LevelsFit(edits[|edits| - 1]);
      ApplyPointers(Pointers(edits[..|edits| - 1]), edits[|edits| - 1].compactPointers)
  }

  function Records(edits: seq<WireEdit>): (rs: seq<seq<byte>>)
    ensures |rs| == |edits| && forall i :: 0 <= i < |edits| ==> rs[i] == EditBytes(edits[i])
  {
    seq(|edits|, i requires 0 <= i < |edits| => EditBytes(edits[i]))
  }

  /** What the builder holds when it has applied these edits to an empty version. */
  ghost predicate Built(open: FileMeta -> File, edits: seq<WireEdit>, deleted: seq<set<nat>>, added: seq<seq<File>>) {
    && |deleted| == NUM_LEVELS && |added| == NUM_LEVELS
    && (forall l, f :: 0 <= l < NUM_LEVELS ==> (f in added[l] <==> EverAdded(open, edits, l, f)))
    && (forall l, f :: 0 <= l < NUM_LEVELS && f in added[l] ==> (f.number !in deleted[l] <==> LiveIn(open, edits, l, f)))
  }

  lemma EverAddedMore(open: FileMeta -> File, edits: seq<WireEdit>, e: WireEdit, l: nat, f: File)
    ensures EverAdded(open, edits + [e], l, f) <==> EverAdded(open, edits, l, f) || Adds(Opened(open, e), l, f)
  {
    var more := edits + [e];
    assert more[|edits|] == e;
    if EverAdded(open, edits, l, f) {
      var i :| 0 <= i < |edits| && Adds(Opened(open, edits[i]), l, f);
      assert more[i] == edits[i];
    }
  }

  /** One more Apply: the builder stays true to the edits, as numbers always name the same file. */
  lemma BuiltMore(open: FileMeta -> File, edits: seq<WireEdit>, e: WireEdit,
      deleted: seq<set<nat>>, added: seq<seq<File>>, deleted': seq<set<nat>>, added': seq<seq<File>>)
    requires Built(open, edits, deleted, added) && Named(open, edits + [e]) && |deleted'| == NUM_LEVELS && |added'| == NUM_LEVELS
    requires forall l, n :: 0 <= l < NUM_LEVELS ==>
      (n in deleted'[l] <==> (n in deleted[l] || Deletes(Opened(open, e), l, n)) && !AddsNumber(Opened(open, e), l, n))
    requires forall l, f :: 0 <= l < NUM_LEVELS ==> (f in added'[l] <==> f in added[l] || Adds(Opened(open, e), l, f))
    ensures Built(open, edits + [e], deleted', added')
  {
    var o := Opened(open, e);
    hide Opened, Adds, Deletes, EverAdded;
    assert (edits + [e])[..|edits|] == edits;
    forall l: nat, f | l < NUM_LEVELS ensures f in added'[l] <==> EverAdded(open, edits + [e], l, f) {
      EverAddedMore(open, edits, e, l, f);
    }
    forall l: nat, f | l < NUM_LEVELS && f in added'[l] ensures f.number !in deleted'[l] <==> LiveIn(open, edits + [e], l, f) {
      EverAddedMore(open, edits, e, l, f);
      NumberMeansFile(open, edits, e, l, f);
    }
  }

  lemma NumberMeansFile(open: FileMeta -> File, edits: seq<WireEdit>, e: WireEdit, l: nat, f: File)
    requires Named(open, edits + [e]) && EverAdded(open, edits + [e], l, f)
    ensures AddsNumber(Opened(open, e), l, f.number) <==> Adds(Opened(open, e), l, f)
  {
    hide Opened, Adds, EverAdded;
    if AddsNumber(Opened(open, e), l, f.number) {
      var g :| Adds(Opened(open, e), l, g) && g.number == f.number;
      EverAddedMore(open, edits, e, l, g);
    }
  }

  lemma NamesForApply(open: FileMeta -> File, edits: seq<WireEdit>, e: WireEdit, added: seq<seq<File>>, deleted: seq<set<nat>>)
    requires Built(open, edits, deleted, added) && Named(open, edits + [e])
    ensures NumbersNameFiles(added, Opened(open, e))
  {
    hide Opened, Adds, EverAdded;
    forall l: nat, f ensures EverAdded(open, edits + [e], l, f) <==> EverAdded(open, edits, l, f) || Adds(Opened(open, e), l, f) {
      EverAddedMore(open, edits, e, l, f);
    }
  }

  lemma LiveWasAdded(open: FileMeta -> File, edits: seq<WireEdit>, l: nat, f: File)
    requires LiveIn(open, edits, l, f)
    ensures EverAdded(open, edits, l, f)
  {
    var n := |edits| - 1;
    assert edits == edits[..n] + [edits[n]];
    EverAddedMore(open, edits[..n], edits[n], l, f);
    if !Adds(Opened(open, edits[n]), l, f) {
      LiveWasAdded(open, edits[..n], l, f);
    }
  }

  /** SaveTo on an empty base gives the live files. */
  lemma BuiltReflects(open: FileMeta -> File, edits: seq<WireEdit>, deleted: seq<set<nat>>, added: seq<seq<File>>, base: Version, v: Version)
    requires Built(open, edits, deleted, added)
    requires forall l :: 0 <= l < NUM_LEVELS ==> base[l] == [] && Saved(base[l], added[l], deleted[l], v[l])
    ensures Reflects(open, edits, v)
  {
    hide Ordered, Opened, EverAdded;
    forall l: nat, f | l < NUM_LEVELS ensures f in v[l] <==> LiveIn(open, edits, l, f) {
      assert Saved(base[l], added[l], deleted[l], v[l]);
      if LiveIn(open, edits, l, f) {
        LiveWasAdded(open, edits, l, f);
      }
    }
    forall l: nat | l < NUM_LEVELS ensures Ordered(v[l]) {
      assert Saved(base[l], added[l], deleted[l], v[l]);
    }
  }

  /** There is one order for the files of a level: same files, same list. */
  lemma {:induction false} OrderedUnique(a: seq<File>, b: seq<File>)
    requires Ordered(a) && Ordered(b) && forall f :: f in a <==> f in b
    ensures a == b
    decreases |a|
  {
    if a == [] {
      if b != [] {
        var f := HasMember(b);
      }
    } else {
      assert a[0] in b;
      var n, m := |a| - 1, |b| - 1;
      assert a[n] in b && b[m] in a;
      var i :| 0 <= i < |b| && b[i] == a[n];
      var j :| 0 <= j < |a| && a[j] == b[m];
      LastIsGreatest(b, i);
      LastIsGreatest(a, j);
      assert a[n] == b[m];
      forall f ensures f in a[..n] <==> f in b[..m] {
        Others(a, f);
        Others(b, f);
      }
      OrderedUnique(a[..n], b[..m]);
      assert a == a[..n] + [a[n]] && b == b[..m] + [b[m]];
    }
  }

  lemma HasMember(a: seq<File>) returns (f: File)
    requires a != []
    ensures f in a
  {
    f := a[0];
  }

  lemma LastIsGreatest(a: seq<File>, i: nat)
    requires Ordered(a) && i < |a|
    ensures i == |a| - 1 || FileOrder(a[i], a[|a| - 1])
  {
  }

  lemma Others(a: seq<File>, f: File)
    requires Ordered(a) && a != []
    ensures f in a[..|a| - 1] <==> f in a && f != a[|a| - 1]
  {
    var n := |a| - 1;
    if f in a[..n] {
      var i :| 0 <= i < n && a[..n][i] == f;
      assert FileOrder(a[i], a[n]);
    }
  }

  // ----- the version set

  /** The edits a manifest may hold: they fit, belong to this comparator, and name files uniquely. */
  ghost predicate Replayable(open: FileMeta -> File, comparator: seq<byte>, edits: seq<WireEdit>) {
    Named(open, edits) && forall i :: 0 <= i < |edits| ==> WireOk(comparator, edits[i])
  }

  lemma ReplayablePrefix(open: FileMeta -> File, comparator: seq<byte>, edits: seq<WireEdit>, n: nat)
    requires Replayable(open, comparator, edits) && n <= |edits|
    ensures Replayable(open, comparator, edits[..n])
  {
    hide Opened, Adds, WireOk;
    forall l, f | EverAdded(open, edits[..n], l, f) ensures EverAdded(open, edits, l, f) {
      var i :| 0 <= i < n && Adds(Opened(open, edits[..n][i]), l, f);
      assert edits[..n][i] == edits[i];
    }
  }

  /** What recovery knows once it has read these edits. */
  datatype Recovered = Recovered(version: Version, log: nat, prevLog: nat, nextFile: nat, manifestFile: nat, lastSequence: nat, pointers: seq<seq<byte>>)

  ghost predicate Complete(edits: seq<WireEdit>) {
    Latest(edits, TheNextFile).Some? && Latest(edits, TheLog).Some? && Latest(edits, TheLastSequence).Some?
  }

  /** The state these edits stand for. */
  ghost predicate Means(open: FileMeta -> File, edits: seq<WireEdit>, r: Recovered) {
    && (forall i :: 0 <= i < |edits| ==> LevelsFit(edits[i]))
    && Complete(edits) && Reflects(open, edits, r.version)
    && r.log == Latest(edits, TheLog).value && r.lastSequence == Latest(edits, TheLastSequence).value
    && r.prevLog == (if Latest(edits, ThePrevLog).Some? then Latest(edits, ThePrevLog).value else 0)
    && r.manifestFile == Latest(edits, TheNextFile).value && r.nextFile == r.manifestFile + 1
    && r.pointers == Pointers(edits)
  }

  lemma LatestMore(edits: seq<WireEdit>, e: WireEdit, c: Counter)
    ensures Latest(edits + [e], c) == if Count(e, c).Some? then Count(e, c) else Latest(edits, c)
  {
    assert (edits + [e])[..|edits|] == edits;
  }

  lemma PointersMore(edits: seq<WireEdit>, e: WireEdit)
    requires forall i :: 0 <= i < |edits| ==> LevelsFit(edits[i])
    requires LevelsFit(e)
    ensures forall i :: 0 <= i < |edits + [e]| ==> LevelsFit((edits + [e])[i])
    ensures forall p :: p in e.compactPointers ==> p.0 < NUM_LEVELS
    ensures Pointers(edits + [e]) == ApplyPointers(Pointers(edits), e.compactPointers)
  {
    assert (edits + [e])[..|edits|] == edits;
  }

  lemma OpenedFits(open: FileMeta -> File, e: WireEdit)
    requires LevelsFit(e)
    ensures LevelsInRange(Opened(open, e))
  {
    forall p | p in Opened(open, e).added ensures p.0 < NUM_LEVELS {
      var i :| 0 <= i < |e.added| && p == (e.added[i].0, open(e.added[i].1));
      assert e.added[i] in e.added;
    }
  }

  method SetCompactPointers(pointers: seq<seq<byte>>, ps: seq<(nat, seq<byte>)>) returns (r: seq<seq<byte>>)
    requires |pointers| == NUM_LEVELS && forall i :: 0 <= i < |ps| ==> ps[i].0 < NUM_LEVELS
    ensures r == ApplyPointers(pointers, ps)
  {
    r := pointers;
    for i := 0 to |ps|
      invariant r == ApplyPointers(pointers, ps[..i])
    {
      assert ps[..i + 1][..i] == ps[..i];
      r := r[ps[i].0 := ps[i].1];
    }
    assert ps[..|ps|] == ps;
  }

  /** VersionSet::Recover: one builder applies every edit of the manifest, however much of it there
      is; `n` is how many edits the file holds whole, and there is one such number for any cut. */
  method Recover(file: seq<byte>, open: FileMeta -> File, comparator: seq<byte>, ghost edits: seq<WireEdit>, ghost n: nat)
      returns (r: Option<Recovered>)
    requires file <= LogBytes(Records(edits)) && Replayable(open, comparator, edits)
    requires n <= |edits| && EndInside(Records(edits), |file|, n)
    ensures forall i :: 0 <= i < |edits| ==> LevelsFit(edits[i])
    ensures r.Some? <==> Complete(edits[..n])
    ensures r.Some? ==> Means(open, edits[..n], r.value)
  {
    hide LogBytes, EndInside, Opened, LiveIn, EverAdded, Named, Built, Storable, Reflects, Latest, Pointers, EditBytes, DecodeFields;
    var records, drops := ReadLog(file, true, Records(edits));
    EndInsideOnce(Records(edits), |file|, |records|, n);
    var base: Version := seq(NUM_LEVELS, _ => []);
    var builder := new Builder(base);
    var log: Option<nat>, prevLog: Option<nat>, nextFile: Option<nat>, lastSequence: Option<nat> := None, None, None, None;
    var pointers: seq<seq<byte>> := seq(NUM_LEVELS, _ => []);
    NothingApplied(open, edits[..0], builder.deleted, builder.added, pointers);
    if drops > 0 {
      return None;
    }
    for i := 0 to |records|
      invariant builder.Valid() && builder.base == base && Built(open, edits[..i], builder.deleted, builder.added)
      invariant log == Latest(edits[..i], TheLog) && prevLog == Latest(edits[..i], ThePrevLog)
      invariant nextFile == Latest(edits[..i], TheNextFile) && lastSequence == Latest(edits[..i], TheLastSequence)
      invariant pointers == Pointers(edits[..i])
    {
      assert edits[..i + 1] == edits[..i] + [edits[i]];
      ghost var e := edits[i];
      EditRoundTrip(e);
      var edit := DecodeFrom(records[i]);
      if edit == None || (edit.value.comparator.Some? && edit.value.comparator.value != comparator) {
        assert false;
      }
      ReplayablePrefix(open, comparator, edits, i + 1);
      NamesForApply(open, edits[..i], e, builder.added, builder.deleted);
      OpenedFits(open, e);
      PointersMore(edits[..i], e);
      ghost var deleted, added := builder.deleted, builder.added;
      builder.Apply(Opened(open, edit.value));
      BuiltMore(open, edits[..i], e, deleted, added, builder.deleted, builder.added);
      pointers := SetCompactPointers(pointers, edit.value.compactPointers);
      LatestMore(edits[..i], e, TheLog);
      LatestMore(edits[..i], e, ThePrevLog);
      LatestMore(edits[..i], e, TheNextFile);
      LatestMore(edits[..i], e, TheLastSequence);
      if edit.value.logNumber.Some? {
        log := edit.value.logNumber;
      }
      if edit.value.prevLogNumber.Some? {
        prevLog := edit.value.prevLogNumber;
      }
      if edit.value.nextFile.Some? {
        nextFile := edit.value.nextFile;
      }
      if edit.value.lastSequence.Some? {
        lastSequence := edit.value.lastSequence;
      }
    }
    if nextFile == None || log == None || lastSequence == None {
      return None;
    }
    var version := builder.SaveTo();
    BuiltReflects(open, edits[..n], builder.deleted, builder.added, base, version);
    r := Some(Recovered(version, log.value, if prevLog.Some? then prevLog.value else 0, nextFile.value + 1, nextFile.value, lastSequence.value, pointers));
  }

  lemma NothingApplied(open: FileMeta -> File, none: seq<WireEdit>, deleted: seq<set<nat>>, added: seq<seq<File>>, pointers: seq<seq<byte>>)
    requires none == [] && |deleted| == NUM_LEVELS && |added| == NUM_LEVELS && pointers == seq(NUM_LEVELS, _ => [])
    requires forall l :: 0 <= l < NUM_LEVELS ==> deleted[l] == {} && added[l] == []
    ensures Built(open, none, deleted, added) && pointers == Pointers(none)
    ensures forall c :: Latest(none, c) == None
  {
  }
}
