/** The cursor over a skip list (db/skiplist.h) and the memtable on top of it (db/memtable.cc). */
module MemTables {
  import opened Format
  import opened Reading
  import opened SkipLists

  /** Splicing an entry in where a search for its key lands is inserting it in order. */
  lemma {:induction false} SpliceInserts(es: seq<Entry>, e: Entry)
    requires Sorted(es) && Comparable(es, e)
    ensures var at := SeekIndex(es, e.key); es[..at] + [e] + es[at..] == InsertEntry(es, e)
  {
    if es != [] {
      FirstSide(es, e);
      if Before(e.key, es[0].key) {
        assert es[..0] + [e] + es[0..] == [e] + es;
      } else {
        SpliceInserts(es[1..], e);
        SpliceLater(es, e, SeekIndex(es[1..], e.key));
      }
    }
  }

  lemma FirstSide(es: seq<Entry>, e: Entry)
    requires Sorted(es) && Comparable(es, e) && es != []
    ensures Before(e.key, es[0].key) <==> !Less(es[0].key, e.key)
    ensures Sorted(es[1..]) && Comparable(es[1..], e)
  {
    assert es[0] in es;
  }

  lemma SpliceLater(es: seq<Entry>, e: Entry, at: nat)
    requires at < |es|
    ensures es[..at + 1] + [e] + es[at + 1..] == [es[0]] + (es[1..][..at] + [e] + es[1..][at..])
  {
    assert es[..at + 1] == [es[0]] + es[1..][..at];
  }

  lemma DistinctAbsent(es: seq<Entry>, e: Entry)
    requires Comparable(es, e)
    ensures Absent(es, e.key)
  {
  }

  lemma NodeAfterHead(m: Moment, x: nat)
    requires LevelsOk(m) && x in m.levels[0]
    ensures 0 < x < |m.nodes| && Position(m.levels[0], x) > 0
  {
    assert LevelOk(m.nodes, 0, m.levels[0]);
  }

  /** Places and nodes of the bottom level correspond. */
  lemma PlaceOf(m: Moment, p: nat)
    requires LevelsOk(m) && p < |m.levels[0]|
    ensures var x := m.levels[0][p]; x in m.levels[0] && 0 < x < |m.nodes| && Position(m.levels[0], x) == p + 1
    ensures EntriesOf(m)[p] == m.nodes[m.levels[0][p]].entry
    ensures SeekIndex(EntriesOf(m), EntriesOf(m)[p].key) == p
  {
    assert LevelOk(m.nodes, 0, m.levels[0]);
    PositionUnique(m.nodes, 0, m.levels[0], p + 1);
    StopsAtSeek(m, EntriesOf(m)[p].key, p);
  }

  /** SkipList::Iterator. */
  class ListIterator {
    const list: SkipList
    var node: Option<nat>

    ghost predicate Ok()
      reads this, list
    {
      list.Valid() && (node.Some? ==> node.value in list.levels[0])
    }

    /** Where the cursor is in the sorted list; its length when the cursor is not valid. */
    ghost function Place(): (p: nat)
      requires Ok()
      reads this, list
      ensures p <= |list.levels[0]| && node == After(list.levels[0], p)
    {
      if node.Some? then
        NodeAfterHead(list.Now(), node.value);
        Position(list.levels[0], node.value) - 1
      else |list.levels[0]|
    }

    constructor (list: SkipList)
      requires list.Valid()
      ensures this.list == list && Ok() && node == None
    {
      this.list := list;
      node := None;
    }

    /** Stepping on: the same as moving one place along the sorted list. */
    method Next()
      requires Ok() && node.Some?
      modifies this
      ensures Ok() && Place() == old(Place()) + 1
    {
      ghost var p := Place();
      LoadAny(list.Now(), node.value, 0);
      PlaceOf(list.Now(), p);
      node := list.nodes[node.value].next[0];
      if p + 1 < |list.levels[0]| {
        PlaceOf(list.Now(), p + 1);
      }
    }

    /** Stepping back is a new search: it moves one place back, or off the front. */
    method Prev()
      requires Ok() && node.Some?
      modifies this
      ensures Ok()
      ensures if old(Place()) == 0 then node == None else node.Some? && Place() == old(Place()) - 1
    {
      ghost var p := Place();
      LoadAny(list.Now(), node.value, 0);
      PlaceOf(list.Now(), p);
      var x := list.FindLessThan(list.nodes[node.value].entry.key);
      node := Some(x);
      if p > 0 {
        PlaceOf(list.Now(), p - 1);
      }
      if x == 0 {
        node := None;
      }
    }

    method Seek(target: IKey)
      requires list.Valid()
      modifies this
      ensures Ok() && Place() == SeekIndex(list.Contents(), target)
    {
      ghost var prev, at;
      node, prev, at := list.FindGreaterOrEqual(target);
      ghost var p := SeekIndex(list.Contents(), target);
      if p < |list.levels[0]| {
        PlaceOf(list.Now(), p);
      }
    }

    method SeekToFirst()
      requires list.Valid()
      modifies this
      ensures Ok() && Place() == 0
    {
      LoadAny(list.Now(), 0, 0);
      node := list.nodes[0].next[0];
      if |list.levels[0]| > 0 {
        PlaceOf(list.Now(), 0);
      }
    }

    method SeekToLast()
      requires list.Valid()
      modifies this
      ensures Ok()
      ensures if list.Contents() == [] then node == None else node.Some? && Place() == |list.Contents()| - 1
    {
      var x := list.FindLast();
      node := Some(x);
      if |list.levels[0]| > 0 {
        PlaceOf(list.Now(), |list.levels[0]| - 1);
      }
      if x == 0 {
        node := None;
      }
    }

    /** The entry under the cursor. */
    method Current() returns (e: Entry)
      requires Ok() && node.Some?
      ensures Place() < |list.Contents()| && e == list.Contents()[Place()]
    {
      LoadAny(list.Now(), node.value, 0);
      e := list.nodes[node.value].entry;
    }
  }

  /** The memtable: entries of distinct sequence numbers per user key. */
  class MemTable {
    const table: SkipList

    ghost predicate Ok()
      reads this, table
    {
      table.Valid() && Sorted(table.Contents())
    }

    constructor (anyEntry: Entry)
      ensures fresh(table) && Ok() && table.Contents() == []
    {
      table := new SkipList(anyEntry);
    }

    /** Add. */
    method Add(seqno: nat, kind: Kind, user: UserKey, value: Value, memory: seq<Option<nat>>)
      requires Ok() && 1 <= |memory| <= MAX_HEIGHT
      requires Comparable(table.Contents(), Entry(IKey(user, seqno, kind), value))
      modifies table
      ensures Ok() && table.Contents() == InsertEntry(old(table.Contents()), Entry(IKey(user, seqno, kind), value))
    {
      var e := Entry(IKey(user, seqno, kind), value);
      DistinctAbsent(table.Contents(), e);
      SpliceInserts(table.Contents(), e);
      InsertEntrySorted(table.Contents(), e);
      ghost var history := table.Insert(e, memory);
    }

    /** Get: found, with a value or with the tombstone of a deleted key; or nothing here. */
    method Get(k: UserKey, s: nat) returns (found: bool, value: Option<Value>)
      requires Ok()
      ensures found <==> exists e :: e in table.Contents() && Visible(e, k, s)
      ensures found ==> value == Read((iset e | e in table.Contents()), k, s)
      ensures found <==> Lookup(table.Contents(), k, s).Some?
    {
      var iter := new ListIterator(table);
      iter.Seek(SeekKey(k, s));
      LookupNewest(table.Contents(), k, s);
      found, value := false, None;
      if iter.node.Some? {
        var e := iter.Current();
        if e.key.user == k {
          found := true;
          NewestHere(table.Contents(), k, s, e);
          match e.key.kind
          case Put => value := Some(e.value);
          case Deletion => value := None;
        }
      }
    }
  }

  lemma NewestHere(es: seq<Entry>, k: UserKey, s: nat, e: Entry)
    requires Sorted(es) && Lookup(es, k, s) == Some(e)
    ensures Read((iset o | o in es), k, s) == if e.key.kind.Put? then Some(e.value) else None
  {
    LookupNewest(es, k, s);
    var all := iset o | o in es;
    forall a, b | a in all && b in all && a.key.user == b.key.user && a.key.seqno == b.key.seqno ensures a == b {
      var i :| 0 <= i < |es| && es[i] == a;
      var j :| 0 <= j < |es| && es[j] == b;
      SameKeyOrder(es, i, j);
    }
    ReadNewest(all, k, s, e);
  }
}
