/** Point lookups: the level-by-level search of Version::Get against the flat meaning of a read. */
module Reading {
  import opened Format
  import opened Versions
  import opened Steps
  import opened CompactionReads
  import opened Overlap
  import opened Picking

  ghost predicate NoneVisible(f: File, k: UserKey, s: nat) {
    forall e :: e in f.entries ==> !Visible(e, k, s)
  }

  /** A seek followed by a check of the user key: MemTable::Get and TableCache::Get with SaveValue. */
  function Lookup(es: seq<Entry>, k: UserKey, s: nat): Option<Entry> {
    var i := SeekIndex(es, SeekKey(k, s));
    if i < |es| && es[i].key.user == k then Some(es[i]) else None
  }

  /** The seek lands on the newest visible entry of the key, if there is one. */
  lemma LookupNewest(es: seq<Entry>, k: UserKey, s: nat)
    requires Sorted(es)
    ensures Lookup(es, k, s) == None ==> forall e :: e in es ==> !Visible(e, k, s)
    ensures Lookup(es, k, s).Some? ==> Lookup(es, k, s).value in es && Visible(Lookup(es, k, s).value, k, s)
    ensures Lookup(es, k, s).Some? ==> forall e :: e in es && Visible(e, k, s) ==> e.key.seqno <= Lookup(es, k, s).value.key.seqno
  {
    var i := SeekIndex(es, SeekKey(k, s));
    forall e | e in es && Visible(e, k, s)
      ensures i < |es| && es[i].key.user == k && e.key.seqno <= es[i].key.seqno
    {
      var j :| 0 <= j < |es| && es[j] == e;
      assert !Less(e.key, SeekKey(k, s));
      assert i <= j;
      assert i < j ==> Before(es[i].key, es[j].key);
    }
  }

  function TableGet(f: File, k: UserKey, s: nat): Option<Entry> {
    Lookup(f.entries, k, s)
  }

  lemma TableGetNewest(f: File, lastSequence: nat, k: UserKey, s: nat)
    requires ValidFile(f, lastSequence)
    ensures TableGet(f, k, s) == None ==> NoneVisible(f, k, s)
    ensures TableGet(f, k, s).Some? ==> TableGet(f, k, s).value in f.entries && Visible(TableGet(f, k, s).value, k, s)
    ensures TableGet(f, k, s).Some? ==>
      forall e :: e in f.entries && Visible(e, k, s) ==> e.key.seqno <= TableGet(f, k, s).value.key.seqno
  {
    LookupNewest(f.entries, k, s);
  }

  /** Nothing in the first `l` levels is visible. */
  ghost predicate NoneAbove(v: Version, l: nat, k: UserKey, s: nat)
    requires l <= NUM_LEVELS
  {
    forall m, g :: 0 <= m < l && g in v[m] ==> NoneVisible(g, k, s)
  }

  /** `e` is in `f`, and everything visible elsewhere in the level is older. */
  ghost predicate NewestOfLevel(files: seq<File>, f: File, k: UserKey, s: nat, e: Entry) {
    && f in files && e in f.entries && Visible(e, k, s)
    && forall g, o :: g in files && o in g.entries && Visible(o, k, s) ==> o.key.seqno <= e.key.seqno
  }

  lemma NewestOfVersion(v: Version, l: nat, f: File, k: UserKey, s: nat, e: Entry)
    requires LevelsByAge(v) && l < NUM_LEVELS && NoneAbove(v, l, k, s) && NewestOfLevel(v[l], f, k, s, e)
    ensures IsNewest(Contents(v), k, s, e)
  {
    assert Holds(v[l], e);
    forall o | o in Contents(v) && Visible(o, k, s) ensures o.key.seqno <= e.key.seqno {
      var m: nat, g :| m < NUM_LEVELS && g in v[m] && o in g.entries;
      assert m < l ==> NoneVisible(g, k, s);
      assert l < m ==> Newer(f, g);
    }
  }

  ghost predicate NewestFirst(files: seq<File>) {
    forall i, j :: 0 <= i < j < |files| ==> files[i].number >= files[j].number
  }

  lemma InsertKeepsOrder(sorted: seq<File>, p: nat, f: File)
    requires NewestFirst(sorted) && p <= |sorted|
    requires p > 0 ==> sorted[p - 1].number >= f.number
    requires p < |sorted| ==> sorted[p].number < f.number
    ensures NewestFirst(sorted[..p] + [f] + sorted[p..])
  {
    var more := sorted[..p] + [f] + sorted[p..];
    forall i, j | 0 <= i < j < |more| ensures more[i].number >= more[j].number {
      assert more[i] == if i < p then sorted[i] else if i == p then f else sorted[i - 1];
      assert more[j] == if j < p then sorted[j] else if j == p then f else sorted[j - 1];
    }
  }

  method InsertByNumber(sorted: seq<File>, f: File) returns (more: seq<File>)
    requires NewestFirst(sorted)
    ensures NewestFirst(more) && multiset(more) == multiset(sorted) + multiset{f}
  {
    var p := |sorted|;
    while p > 0 && sorted[p - 1].number < f.number
      invariant 0 <= p <= |sorted|
      invariant p < |sorted| ==> sorted[p].number < f.number
    {
      p := p - 1;
    }
    InsertKeepsOrder(sorted, p, f);
    hide NewestFirst;
    more := sorted[..p] + [f] + sorted[p..];
    assert multiset(sorted) == multiset(sorted[..p]) + multiset(sorted[p..]) by {
      assert sorted == sorted[..p] + sorted[p..];
    }
  }

  /** Sorting the level-0 candidates with NewestFirst. */
  method SortNewestFirst(files: seq<File>) returns (sorted: seq<File>)
    ensures NewestFirst(sorted) && multiset(sorted) == multiset(files)
  {
    sorted := [];
    for n := 0 to |files|
      invariant NewestFirst(sorted) && multiset(sorted) == multiset(files[..n])
    {
      assert files[..n + 1] == files[..n] + [files[n]];
      sorted := InsertByNumber(sorted, files[n]);
    }
    assert files[..|files|] == files;
  }

  /** The level-0 files that may hold the key, newest first. */
  method Candidates(files: seq<File>, k: UserKey) returns (sorted: seq<File>)
    ensures NewestFirst(sorted)
    ensures forall f :: f in sorted <==> f in files && f.smallest.user <= k <= f.largest.user
  {
    var tmp := [];
    for i := 0 to |files|
      invariant forall f :: f in tmp <==> f in files[..i] && f.smallest.user <= k <= f.largest.user
    {
      var f := files[i];
      if k >= f.smallest.user && k <= f.largest.user {
        tmp := tmp + [f];
      }
    }
    assert files[..|files|] == files;
    sorted := SortNewestFirst(tmp);
    assert forall f :: f in sorted <==> f in multiset(sorted);
    assert forall f :: f in tmp <==> f in multiset(tmp);
  }

  ghost predicate ByAge(files: seq<File>) {
    && (forall f, g :: f in files && g in files && f.number > g.number ==> Newer(f, g))
    && (forall f, g :: f in files && g in files && f.number == g.number ==> f == g)
  }

  /** The search of level 0: every overlapping file, newest first. */
  method GetLevel0(files: seq<File>, k: UserKey, s: nat, ghost lastSequence: nat) returns (found: Option<Entry>)
    requires forall f :: f in files ==> ValidFile(f, lastSequence)
    requires ByAge(files)
    ensures found == None ==> forall f :: f in files ==> NoneVisible(f, k, s)
    ensures found.Some? ==> exists f :: NewestOfLevel(files, f, k, s, found.value)
  {
    hide ByAge;
    var sorted := Candidates(files, k);
    forall f | f in files && f !in sorted ensures NoneVisible(f, k, s) {
      OutOfRange(f, lastSequence, k, s);
    }
    for i := 0 to |sorted|
      invariant forall j :: 0 <= j < i ==> NoneVisible(sorted[j], k, s)
    {
      var f := sorted[i];
      assert f in sorted;
      found := TableGet(f, k, s);
      TableGetNewest(f, lastSequence, k, s);
      if found.Some? {
        NewestOfLevel0(files, sorted, i, k, s, found.value);
        return;
      }
    }
    found := None;
  }

  lemma OutOfRange(f: File, lastSequence: nat, k: UserKey, s: nat)
    requires ValidFile(f, lastSequence) && !(f.smallest.user <= k <= f.largest.user)
    ensures NoneVisible(f, k, s)
  {
    forall e | e in f.entries ensures e.key.user != k {
      EntryInRange(f, lastSequence, e);
    }
  }

  lemma NewestOfLevel0(files: seq<File>, sorted: seq<File>, i: nat, k: UserKey, s: nat, e: Entry)
    requires ByAge(files) && NewestFirst(sorted)
    requires forall f :: f in sorted ==> f in files
    requires forall f :: f in files && f !in sorted ==> NoneVisible(f, k, s)
    requires i < |sorted| && forall j :: 0 <= j < i ==> NoneVisible(sorted[j], k, s)
    requires e in sorted[i].entries && Visible(e, k, s)
    requires forall o :: o in sorted[i].entries && Visible(o, k, s) ==> o.key.seqno <= e.key.seqno
    ensures NewestOfLevel(files, sorted[i], k, s, e)
  {
    var f := sorted[i];
    assert f in files;
    forall g, o | g in files && o in g.entries && Visible(o, k, s) ensures o.key.seqno <= e.key.seqno {
      assert g in sorted;
      var j :| 0 <= j < |sorted| && sorted[j] == g;
      assert i < j ==> f.number >= g.number;
      assert f.number > g.number ==> Newer(f, g);
    }
  }

  /** The search of a sorted level: one file, even if the key's entries span several. */
  method GetLevel(files: seq<File>, k: UserKey, s: nat, ghost lastSequence: nat) returns (found: Option<Entry>)
    requires Row(files, lastSequence)
    ensures found == None ==> forall f :: f in files ==> NoneVisible(f, k, s)
    ensures found.Some? ==> exists f :: NewestOfLevel(files, f, k, s, found.value)
  {
    RowLargestSorted(files, lastSequence);
    var index := FindFile(files, SeekKey(k, s));
    hide Row;
    forall i: nat | i < index ensures NoneVisible(files[i], k, s) {
      EndsBeforeSeek(files, lastSequence, i, k, s);
    }
    if index >= |files| {
      return None;
    }
    var f := files[index];
    Follow(files, lastSequence, index, index);
    if k < f.smallest.user {
      forall i: nat | index <= i < |files| ensures NoneVisible(files[i], k, s) {
        StartsAfter(files, lastSequence, index, i, k, s);
      }
      return None;
    }
    found := TableGet(f, k, s);
    TableGetNewest(f, lastSequence, k, s);
    if found.Some? {
      assert f in files;
      forall g, o | g in files && o in g.entries && Visible(o, k, s) ensures o.key.seqno <= found.value.key.seqno {
        var j: nat :| j < |files| && files[j] == g;
        var hidden := NoneVisible(files[j], k, s);
        if index < j {
          LaterIsOlder(files, lastSequence, index, j, found.value, o);
        }
      }
      assert NewestOfLevel(files, f, k, s, found.value);
    } else {
      forall i: nat | i < |files| ensures NoneVisible(files[i], k, s) {
        if index < i {
          PastKey(files, lastSequence, index, i, k, s);
        }
      }
    }
  }

  lemma EndsBeforeSeek(files: seq<File>, lastSequence: nat, i: nat, k: UserKey, s: nat)
    requires Row(files, lastSequence) && i < |files| && Less(files[i].largest, SeekKey(k, s))
    ensures NoneVisible(files[i], k, s)
  {
    Follow(files, lastSequence, i, i);
    hide Row;
    forall e | e in files[i].entries ensures !Visible(e, k, s) {
      EntryInRange(files[i], lastSequence, e);
    }
  }

  lemma StartsAfter(files: seq<File>, lastSequence: nat, index: nat, i: nat, k: UserKey, s: nat)
    requires Row(files, lastSequence) && index <= i < |files| && k < files[index].smallest.user
    ensures NoneVisible(files[i], k, s)
  {
    Follow(files, lastSequence, index, i);
    hide Row;
    OutOfRange(files[i], lastSequence, k, s);
  }

  lemma LaterIsOlder(files: seq<File>, lastSequence: nat, i: nat, j: nat, e: Entry, o: Entry)
    requires Row(files, lastSequence) && i < j < |files|
    requires e in files[i].entries && o in files[j].entries && e.key.user == o.key.user
    ensures o.key.seqno < e.key.seqno
  {
    Follow(files, lastSequence, i, j);
    hide Row;
    EntryInRange(files[i], lastSequence, e);
    EntryInRange(files[j], lastSequence, o);
  }

  lemma PastKey(files: seq<File>, lastSequence: nat, index: nat, i: nat, k: UserKey, s: nat)
    requires Row(files, lastSequence) && index < i < |files|
    requires !Less(files[index].largest, SeekKey(k, s)) && TableGet(files[index], k, s) == None
    ensures NoneVisible(files[i], k, s)
  {
    Follow(files, lastSequence, index, i);
    hide Row;
    var f := files[index];
    var at := SeekIndex(f.entries, SeekKey(k, s));
    assert at < |f.entries| by {
      assert f.entries[|f.entries| - 1].key == f.largest;
    }
    assert f.entries[at] in f.entries;
    EntryInRange(f, lastSequence, f.entries[at]);
    OutOfRange(files[i], lastSequence, k, s);
  }

  /** Version::Get returns exactly what a read means, for every key and snapshot. */
  method Get(v: Version, k: UserKey, s: nat, ghost lastSequence: nat, ghost nextFile: nat) returns (result: Option<Value>)
    requires Shape(v, lastSequence, nextFile)
    ensures result == Read(Contents(v), k, s)
  {
    ContentsUnique(v, lastSequence, nextFile);
    assert LevelsByAge(v);
    for level := 0 to NUM_LEVELS
      invariant NoneAbove(v, level, k, s)
    {
      var found;
      if level == 0 {
        Level0Facts(v, lastSequence, nextFile);
        hide Shape;
        found := GetLevel0(v[0], k, s, lastSequence);
      } else {
        LevelFilesValid(v, lastSequence, nextFile, level);
        hide Shape;
        found := GetLevel(v[level], k, s, lastSequence);
      }
      hide Shape, LevelsByAge, Contents, Read;
      if found.Some? {
        ghost var f :| NewestOfLevel(v[level], f, k, s, found.value);
        NewestOfVersion(v, level, f, k, s, found.value);
        ReadNewest(Contents(v), k, s, found.value);
        return if found.value.key.kind.Put? then Some(found.value.value) else None;
      }
    }
    NothingToRead(v, k, s);
    result := None;
  }

  lemma Level0Facts(v: Version, lastSequence: nat, nextFile: nat)
    requires Shape(v, lastSequence, nextFile)
    ensures forall f :: f in v[0] ==> ValidFile(f, lastSequence)
    ensures ByAge(v[0])
  {}

  lemma NothingToRead(v: Version, k: UserKey, s: nat)
    requires NoneAbove(v, NUM_LEVELS, k, s)
    ensures Read(Contents(v), k, s) == None
  {
    forall e | e in Contents(v) ensures !Visible(e, k, s) {
      var m: nat, g :| m < NUM_LEVELS && g in v[m] && e in g.entries;
      assert NoneVisible(g, k, s);
    }
  }
}
