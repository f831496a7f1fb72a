/** Applying version edits (db/version_edit.h, VersionSet::Builder). */
module Builder {
  import opened Format
  import opened Versions

  /** VersionEdit, over the form keys and files have in it: parsed, or as in the manifest.  The
      deleted (level, number) pairs are an ordered set. */
  datatype EditOf<K, F> = Edit(
    comparator: Option<seq<byte>>,
    logNumber: Option<nat>,
    prevLogNumber: Option<nat>,
    nextFile: Option<nat>,
    lastSequence: Option<nat>,
    compactPointers: seq<(nat, K)>,
    deleted: seq<(nat, nat)>,
    added: seq<(nat, F)>)

  type Edit = EditOf<IKey, File>

  const NO_EDIT: Edit := Edit(None, None, None, None, None, [], [], [])

  predicate PairLess(p: (nat, nat), q: (nat, nat)) {
    p.0 < q.0 || (p.0 == q.0 && p.1 < q.1)
  }

  /** DeleteFile: insert into the ordered set of deleted files. */
  function InsertPair(s: seq<(nat, nat)>, p: (nat, nat)): (r: seq<(nat, nat)>)
    ensures forall q :: q in r <==> q in s || q == p
  {
    if s == [] || PairLess(s[|s| - 1], p) then s + [p]
    else if s[|s| - 1] == p then s
    else InsertPair(s[..|s| - 1], p) + [s[|s| - 1]]
  }

  /** FileSet::insert: ordered by smallest key, then number; an equal element is not inserted. */
  function InsertFile(s: seq<File>, f: File): (r: seq<File>)
    ensures |s| <= |r|
  {
    if s == [] || FileOrder(s[|s| - 1], f) then s + [f]
    else if !FileOrder(f, s[|s| - 1]) then s
    else InsertFile(s[..|s| - 1], f) + [s[|s| - 1]]
  }

  lemma {:induction false} InsertFileOrdered(s: seq<File>, f: File)
    requires Ordered(s)
    requires forall g :: g in s && g.number == f.number ==> g == f
    ensures Ordered(InsertFile(s, f))
    ensures forall g :: g in InsertFile(s, f) <==> g in s || g == f
  {
    if s != [] {
      var n := |s| - 1;
      assert s == s[..n] + [s[n]];
      if !FileOrder(s[n], f) && FileOrder(f, s[n]) {
        InsertFileOrdered(s[..n], f);
        var r := InsertFile(s[..n], f);
        assert InsertFile(s, f) == r + [s[n]];
        forall g | g in r ensures FileOrder(g, s[n]) {
          if g in s[..n] {
            var i :| 0 <= i < n && s[i] == g;
          }
        }
      } else if FileOrder(s[n], f) {
        forall g | g in s ensures FileOrder(g, f) {}
      }
    }
  }

  /** Half way through SaveTo: the first `b` base files and `a` added files have been merged. */
  ghost predicate Merging(base: seq<File>, b: nat, added: seq<File>, a: nat, deleted: set<nat>, files: seq<File>) {
    && b <= |base| && a <= |added| && Ordered(files)
    && (forall f, j :: f in files && b <= j < |base| ==> FileOrder(f, base[j]))
    && (forall f, j :: f in files && a <= j < |added| ==> FileOrder(f, added[j]))
    && (forall f :: f in files <==> (f in base[..b] || f in added[..a]) && f.number !in deleted)
  }

  function MaybeAddFile(files: seq<File>, f: File, deleted: set<nat>): seq<File> {
    if f.number in deleted then files else files + [f]
  }

  lemma TakeBase(base: seq<File>, b: nat, added: seq<File>, a: nat, deleted: set<nat>, files: seq<File>)
    requires Merging(base, b, added, a, deleted, files) && Ordered(base) && Ordered(added) && b < |base|
    requires a < |added| ==> FileOrder(base[b], added[a])
    ensures Merging(base, b + 1, added, a, deleted, MaybeAddFile(files, base[b], deleted))
  {
    assert base[..b + 1] == base[..b] + [base[b]];
    forall j | a <= j < |added| ensures FileOrder(base[b], added[j]) {
      assert a < j ==> FileOrder(added[a], added[j]);
    }
  }

  lemma TakeAdded(base: seq<File>, b: nat, added: seq<File>, a: nat, deleted: set<nat>, files: seq<File>)
    requires Merging(base, b, added, a, deleted, files) && Ordered(base) && Ordered(added) && a < |added|
    requires b < |base| ==> FileOrder(added[a], base[b])
    ensures Merging(base, b, added, a + 1, deleted, MaybeAddFile(files, added[a], deleted))
  {
    assert added[..a + 1] == added[..a] + [added[a]];
    forall j | b <= j < |base| ensures FileOrder(added[a], base[j]) {
      assert b < j ==> FileOrder(base[b], base[j]);
    }
  }

  lemma MergeDone(base: seq<File>, added: seq<File>, deleted: set<nat>, files: seq<File>)
    requires Merging(base, |base|, added, |added|, deleted, files)
    ensures Saved(base, added, deleted, files)
  {
    assert base[..|base|] == base && added[..|added|] == added;
  }

  lemma MergeStart(base: seq<File>, added: seq<File>, deleted: set<nat>)
    ensures Merging(base, 0, added, 0, deleted, [])
  {}

  /** One level after SaveTo: base and added files that are not marked deleted, in order. */
  ghost predicate Saved(base: seq<File>, added: seq<File>, deleted: set<nat>, files: seq<File>) {
    Ordered(files) && forall f :: f in files <==> (f in base || f in added) && f.number !in deleted
  }

  /** SaveTo for one level: merge the added files into the base files, leaving out deleted ones. */
  method SaveLevel(base: seq<File>, added: seq<File>, deleted: set<nat>) returns (files: seq<File>)
    requires Ordered(base) && Ordered(added)
    requires forall f, g :: f in base && g in added ==> f.number != g.number
    ensures Saved(base, added, deleted, files)
  {
    hide Ordered, Merging, MaybeAddFile;
    files := [];
    MergeStart(base, added, deleted);
    var b := 0;
    for a := 0 to |added|
      invariant 0 <= b <= |base| && Merging(base, b, added, a, deleted, files)
    {
      while b < |base| && !FileOrder(added[a], base[b])
        invariant 0 <= b <= |base| && Merging(base, b, added, a, deleted, files)
      {
        assert base[b].number != added[a].number;
        TakeBase(base, b, added, a, deleted, files);
        files := MaybeAddFile(files, base[b], deleted);
        b := b + 1;
      }
      TakeAdded(base, b, added, a, deleted, files);
      files := MaybeAddFile(files, added[a], deleted);
    }
    while b < |base|
      invariant 0 <= b <= |base| && Merging(base, b, added, |added|, deleted, files)
    {
      TakeBase(base, b, added, |added|, deleted, files);
      files := MaybeAddFile(files, base[b], deleted);
      b := b + 1;
    }
    MergeDone(base, added, deleted, files);
  }

  /** Which numbers an edit deletes and adds at a level. */
  predicate Deletes(edit: Edit, l: nat, number: nat) {
    (l, number) in edit.deleted
  }

  ghost predicate Adds(edit: Edit, l: nat, f: File) {
    (l, f) in edit.added
  }

  ghost predicate AddsNumber(edit: Edit, l: nat, number: nat) {
    exists f :: Adds(edit, l, f) && f.number == number
  }

  ghost predicate LevelsInRange(edit: Edit) {
    && (forall p :: p in edit.deleted ==> p.0 < NUM_LEVELS)
    && (forall p :: p in edit.added ==> p.0 < NUM_LEVELS)
  }

  /** At each level a file number stands for one file, in `files` and in the edit together. */
  ghost predicate NumbersNameFiles(files: seq<seq<File>>, edit: Edit)
    requires |files| == NUM_LEVELS
  {
    && (forall l, f, g :: 0 <= l < NUM_LEVELS && f in files[l] && Adds(edit, l, g) && f.number == g.number ==> f == g)
    && (forall l, f, g :: Adds(edit, l, f) && Adds(edit, l, g) && f.number == g.number ==> f == g)
  }

  class Builder {
    const base: Version
    var deleted: seq<set<nat>>
    var added: seq<seq<File>>

    ghost predicate Valid()
      reads this
    {
      && |deleted| == NUM_LEVELS && |added| == NUM_LEVELS
      && (forall l :: 0 <= l < NUM_LEVELS ==> Ordered(added[l]) && Ordered(base[l]))
    }

    constructor (base: Version)
      requires forall l :: 0 <= l < NUM_LEVELS ==> Ordered(base[l])
      ensures Valid() && this.base == base
      ensures forall l :: 0 <= l < NUM_LEVELS ==> deleted[l] == {} && added[l] == []
    {
      this.base := base;
      deleted := seq(NUM_LEVELS, _ => {});
      added := seq(NUM_LEVELS, _ => []);
    }

    /** The deletions of an edit. */
    method MarkDeleted(edit: Edit)
      requires Valid() && LevelsInRange(edit)
      modifies this`deleted
      ensures Valid()
      ensures forall l, n :: 0 <= l < NUM_LEVELS ==> (n in deleted[l] <==> n in old(deleted)[l] || Deletes(edit, l, n))
    {
      for i := 0 to |edit.deleted|
        invariant |deleted| == NUM_LEVELS
        invariant forall l, n :: 0 <= l < NUM_LEVELS ==> (n in deleted[l] <==> n in old(deleted)[l] || (l, n) in edit.deleted[..i])
      {
        var (level, number) := edit.deleted[i];
        assert (level, number) in edit.deleted;
        deleted := deleted[level := deleted[level] + {number}];
      }
      assert edit.deleted[..|edit.deleted|] == edit.deleted;
    }

    /** Apply: deletions first, then every added file loses its deletion mark and joins its level. */
    method Apply(edit: Edit)
      requires Valid() && LevelsInRange(edit) && NumbersNameFiles(added, edit)
      modifies this
      ensures Valid()
      ensures forall l, n :: 0 <= l < NUM_LEVELS ==>
        (n in deleted[l] <==> (n in old(deleted)[l] || Deletes(edit, l, n)) && !AddsNumber(edit, l, n))
      ensures forall l, f :: 0 <= l < NUM_LEVELS ==> (f in added[l] <==> f in old(added)[l] || Adds(edit, l, f))
    {
      MarkDeleted(edit);
      ghost var marked := deleted;
      for i := 0 to |edit.added|
        invariant Valid()
        invariant forall l, n :: 0 <= l < NUM_LEVELS ==> (n in deleted[l] <==> n in marked[l] && !NumberedIn(edit.added[..i], l, n))
        invariant forall l, f :: 0 <= l < NUM_LEVELS ==> (f in added[l] <==> f in old(added)[l] || (l, f) in edit.added[..i])
      {
        var (level, f) := edit.added[i];
        assert Adds(edit, level, f) && edit.added[i] in edit.added;
        assert edit.added[..i + 1] == edit.added[..i] + [edit.added[i]];
        deleted := deleted[level := deleted[level] - {f.number}];
        forall g | g in added[level] && g.number == f.number ensures g == f {
          assert g in old(added)[level] || Adds(edit, level, g);
        }
        InsertFileOrdered(added[level], f);
        added := added[level := InsertFile(added[level], f)];
      }
      assert edit.added[..|edit.added|] == edit.added;
    }

    /** SaveTo. */
    method SaveTo() returns (v: Version)
      requires Valid()
      requires forall l, f, g :: 0 <= l < NUM_LEVELS && f in base[l] && g in added[l] ==> f.number != g.number
      ensures forall l :: 0 <= l < NUM_LEVELS ==> Saved(base[l], added[l], deleted[l], v[l])
    {
      var files: seq<seq<File>> := [];
      for l := 0 to NUM_LEVELS
        invariant |files| == l
        invariant forall m :: 0 <= m < l ==> Saved(base[m], added[m], deleted[m], files[m])
      {
        var level := SaveLevel(base[l], added[l], deleted[l]);
        files := files + [level];
      }
      v := files;
    }
  }

  /** An edit never adds a file under a number the level already uses. */
  ghost predicate FreshFor(base: Version, edit: Edit) {
    && LevelsInRange(edit)
    && (forall l, f, g :: 0 <= l < NUM_LEVELS && f in base[l] && Adds(edit, l, g) ==> f.number != g.number)
    && (forall l, f, g :: Adds(edit, l, f) && Adds(edit, l, g) && f.number == g.number ==> f == g)
  }

  /** What one edit makes of a version. */
  ghost predicate EditApplied(base: Version, edit: Edit, v: Version) {
    && (forall l :: 0 <= l < NUM_LEVELS ==> Ordered(v[l]))
    && (forall l, f :: 0 <= l < NUM_LEVELS ==> (f in v[l] <==> (f in base[l] && !Deletes(edit, l, f.number)) || Adds(edit, l, f)))
  }

  /** The version part of LogAndApply: a builder on the current version, one Apply, one SaveTo. */
  method ApplyEdit(base: Version, edit: Edit) returns (v: Version)
    requires forall l :: 0 <= l < NUM_LEVELS ==> Ordered(base[l])
    requires FreshFor(base, edit)
    ensures EditApplied(base, edit, v)
  {
    var builder := new Builder(base);
    builder.Apply(edit);
    v := builder.SaveTo();
    forall l, f | 0 <= l < NUM_LEVELS ensures f in v[l] <==> (f in base[l] && !Deletes(edit, l, f.number)) || Adds(edit, l, f) {
      assert Saved(base[l], builder.added[l], builder.deleted[l], v[l]);
      assert f in builder.added[l] <==> Adds(edit, l, f);
      assert Adds(edit, l, f) ==> AddsNumber(edit, l, f.number);
      assert f.number in builder.deleted[l] <==> Deletes(edit, l, f.number) && !AddsNumber(edit, l, f.number);
    }
  }

  ghost predicate NumberedIn(added: seq<(nat, File)>, l: nat, number: nat) {
    exists f :: (l, f) in added && f.number == number
  }
}
