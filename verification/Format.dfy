/** Internal keys, entries and the meaning of a read (db/dbformat.h, db/dbformat.cc).

    The user comparator may be any total order on byte strings.  Byte strings are countable, and
    every countable total order embeds in the reals, so a user key is represented by its image
    under such an embedding: comparing reals is comparing user keys. */
module Format {
  newtype byte = x: int | 0 <= x < 256

  type UserKey = real
  type Value = seq<byte>

  datatype Option<+T> = None | Some(value: T)

  /** kTypeDeletion and kTypeValue. */
  datatype Kind = Deletion | Put

  datatype IKey = IKey(user: UserKey, seqno: nat, kind: Kind)

  datatype Entry = Entry(key: IKey, value: Value)

  const MAX_SEQUENCE: nat := 0xFF_FFFF_FFFF_FFFF

  /** PackSequenceAndType. */
  function Packed(k: IKey): nat {
    k.seqno * 256 + if k.kind.Put? then 1 else 0
  }

  /** InternalKeyComparator::Compare(a, b) < 0. */
  predicate Less(a: IKey, b: IKey) {
    a.user < b.user || (a.user == b.user && Packed(a) > Packed(b))
  }

  /** The order of entries that carry distinct sequence numbers. */
  predicate Before(a: IKey, b: IKey) {
    a.user < b.user || (a.user == b.user && a.seqno > b.seqno)
  }

  /** LookupKey: the key every entry of `k` visible at snapshot `s` is at or after. */
  function SeekKey(k: UserKey, s: nat): IKey {
    IKey(k, s, Put)
  }

  ghost predicate Sorted(es: seq<Entry>) {
    forall i, j :: 0 <= i < j < |es| ==> Before(es[i].key, es[j].key)
  }

  /** Among the entries of one key, later means older. */
  lemma SameKeyOrder(es: seq<Entry>, i: nat, j: nat)
    requires Sorted(es) && i < |es| && j < |es| && es[i].key.user == es[j].key.user
    ensures i < j <==> es[i].key.seqno > es[j].key.seqno
    ensures i == j <==> es[i].key.seqno == es[j].key.seqno
  {
    if i < j {
      assert Before(es[i].key, es[j].key);
    } else if j < i {
      assert Before(es[j].key, es[i].key);
    }
  }

  /** In a sorted sequence, order of keys is order of indices. */
  lemma OrderIff(es: seq<Entry>, i: nat, j: nat)
    requires Sorted(es) && i < |es| && j < |es|
    ensures Before(es[i].key, es[j].key) <==> i < j
  {
    if i < j {
      assert Before(es[i].key, es[j].key);
    } else if j < i {
      assert Before(es[j].key, es[i].key);
    }
  }

  /** Where a seek to `key` in a sorted run lands. */
  function SeekIndex(es: seq<Entry>, key: IKey): (i: nat)
    ensures i <= |es|
    ensures i < |es| ==> !Less(es[i].key, key)
    ensures forall j :: 0 <= j < i ==> Less(es[j].key, key)
  {
    if es == [] || !Less(es[0].key, key) then 0 else 1 + SeekIndex(es[1..], key)
  }

  lemma SeekIndexOfKey(es: seq<Entry>, i: nat)
    requires Sorted(es) && i < |es|
    ensures SeekIndex(es, es[i].key) == i
  {
    var s := SeekIndex(es, es[i].key);
    if s < |es| {
      OrderIff(es, s, i);
      OrderIff(es, i, s);
    }
  }

  /** Everything from the landing point on is at or after the target. */
  lemma SeekIndexSplits(es: seq<Entry>, key: IKey, j: nat)
    requires Sorted(es) && j < |es|
    ensures j < SeekIndex(es, key) <==> Less(es[j].key, key)
  {
    var s := SeekIndex(es, key);
    if s <= j {
      OrderIff(es, s, j);
    }
  }

  /** Insert an entry where its key belongs. */
  function InsertEntry(es: seq<Entry>, e: Entry): seq<Entry> {
    if es == [] || Before(e.key, es[0].key) then [e] + es else [es[0]] + InsertEntry(es[1..], e)
  }

  ghost predicate Comparable(es: seq<Entry>, e: Entry) {
    forall d :: d in es ==> Before(d.key, e.key) || Before(e.key, d.key)
  }

  lemma {:induction false} InsertEntrySorted(es: seq<Entry>, e: Entry)
    requires Sorted(es) && Comparable(es, e)
    ensures Sorted(InsertEntry(es, e))
    ensures forall d :: d in InsertEntry(es, e) <==> d in es || d == e
  {
    if es == [] {
    } else if Before(e.key, es[0].key) {
      forall i | 0 <= i < |es| ensures Before(e.key, es[i].key) {
        assert 0 < i ==> Before(es[0].key, es[i].key);
      }
      assert es == [es[0]] + es[1..];
    } else {
      var rest := InsertEntry(es[1..], e);
      assert es == [es[0]] + es[1..];
      assert Sorted(es[1..]);
      InsertEntrySorted(es[1..], e);
      forall d | d in rest ensures Before(es[0].key, d.key) {
        if d in es[1..] {
          var i :| 0 <= i < |es[1..]| && es[1..][i] == d;
          assert Before(es[0].key, es[i + 1].key);
        }
      }
    }
  }

  ghost predicate Visible(e: Entry, k: UserKey, s: nat) {
    e.key.user == k && e.key.seqno <= s
  }

  ghost predicate IsNewest(es: iset<Entry>, k: UserKey, s: nat, e: Entry) {
    && e in es && Visible(e, k, s)
    && forall o :: o in es && Visible(o, k, s) ==> o.key.seqno <= e.key.seqno
  }

  /** No two operations share a sequence number, so no two entries of a key do. */
  ghost predicate Unique(es: iset<Entry>) {
    forall a, b :: a in es && b in es && a.key.user == b.key.user && a.key.seqno == b.key.seqno ==> a == b
  }

  /** What a read of `k` at snapshot `s` means: the value of the newest visible entry,
      unless that entry is a deletion. */
  ghost function Read(es: iset<Entry>, k: UserKey, s: nat): Option<Value> {
    if exists e :: IsNewest(es, k, s, e) && e.key.kind.Put? then
      var e :| IsNewest(es, k, s, e) && e.key.kind.Put?;
      Some(e.value)
    else
      None
  }

  lemma ReadNewest(es: iset<Entry>, k: UserKey, s: nat, e: Entry)
    requires Unique(es) && IsNewest(es, k, s, e)
    ensures Read(es, k, s) == if e.key.kind.Put? then Some(e.value) else None
  {
    forall o | IsNewest(es, k, s, o) ensures o == e {}
  }

  lemma {:induction false} NewestExists(es: iset<Entry>, k: UserKey, s: nat, e: Entry)
    requires e in es && Visible(e, k, s)
    ensures exists n :: IsNewest(es, k, s, n)
    decreases s - e.key.seqno
  {
    if o :| o in es && Visible(o, k, s) && o.key.seqno > e.key.seqno {
      NewestExists(es, k, s, o);
    } else {
      assert IsNewest(es, k, s, e);
    }
  }
}
