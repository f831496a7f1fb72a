/** Prefix-compressed blocks (table/block_builder.cc).  Keys are byte strings; the comparator is
    given by the rank of a key, a real number: any total order on byte strings has such ranks. */
module BlockFormat {
  import opened Format
  import opened Coding

  datatype Pair = Pair(key: seq<byte>, value: seq<byte>)

  type Rank = seq<byte> -> real

  ghost predicate Increasing(rank: Rank, es: seq<Pair>) {
    forall i, j :: 0 <= i < j < |es| ==> rank(es[i].key) < rank(es[j].key)
  }

  /** How much of a key is the same as at the start of the key before. */
  function SharedPrefix(a: seq<byte>, b: seq<byte>): (n: nat)
    ensures n <= |a| && n <= |b| && a[..n] == b[..n]
  {
    if a == [] || b == [] || a[0] != b[0] then 0 else 1 + SharedPrefix(a[1..], b[1..])
  }

  ghost predicate IsRestart(restartAt: seq<nat>, i: nat) {
    i in restartAt
  }

  /** How much of the key before entry `i` it is stored relative to. */
  ghost function Shared(es: seq<Pair>, restartAt: seq<nat>, i: nat): (n: nat)
    requires i < |es|
    ensures n <= |es[i].key|
  {
    if i == 0 || IsRestart(restartAt, i) then 0 else SharedPrefix(es[i - 1].key, es[i].key)
  }

  function PairBytes(shared: nat, p: Pair): seq<byte>
    requires shared <= |p.key|
  {
    Varint(shared) + Varint(|p.key| - shared) + Varint(|p.value|) + p.key[shared..] + p.value
  }

  /** The stored form of the first `n` entries. */
  ghost function Data(es: seq<Pair>, restartAt: seq<nat>, n: nat): seq<byte>
    requires n <= |es|
  {
    if n == 0 then [] else Data(es, restartAt, n - 1) + PairBytes(Shared(es, restartAt, n - 1), es[n - 1])
  }

  /** Where entry `i` begins. */
  ghost function Offset(es: seq<Pair>, restartAt: seq<nat>, i: nat): nat
    requires i <= |es|
  {
    |Data(es, restartAt, i)|
  }

  function Fixed32s(ns: seq<nat>): (bytes: seq<byte>)
    requires forall i :: 0 <= i < |ns| ==> ns[i] < TWO_TO_32
    ensures |bytes| == 4 * |ns|
  {
    if ns == [] then [] else Fixed32s(ns[..|ns| - 1]) + EncodeFixed32(ns[|ns| - 1])
  }

  ghost function Points(es: seq<Pair>, restartAt: seq<nat>): (ps: seq<nat>)
    requires forall k :: 0 <= k < |restartAt| ==> restartAt[k] <= |es|
    ensures |ps| == |restartAt| && forall k :: 0 <= k < |ps| ==> ps[k] == Offset(es, restartAt, restartAt[k])
  {
    seq(|restartAt|, k requires 0 <= k < |restartAt| => Offset(es, restartAt, restartAt[k]))
  }

  /** The restart points: the first entry, and then any increasing choice of entries. */
  ghost predicate RestartsOk(es: seq<Pair>, restartAt: seq<nat>) {
    && |restartAt| > 0 && restartAt[0] == 0
    && (forall j, k :: 0 <= j < k < |restartAt| ==> restartAt[j] < restartAt[k])
    && (forall k :: 1 <= k < |restartAt| ==> restartAt[k] < |es|)
  }

  ghost predicate Sized(es: seq<Pair>) {
    forall i :: 0 <= i < |es| ==> |es[i].key| < TWO_TO_32 && |es[i].value| < TWO_TO_32
  }

  /** Lengths and offsets fit in 32 bits. */
  ghost predicate Fits(es: seq<Pair>, restartAt: seq<nat>) {
    && Sized(es) && Offset(es, restartAt, |es|) < TWO_TO_32 && |restartAt| < TWO_TO_32
  }

  lemma {:induction false} OffsetsGrow(es: seq<Pair>, restartAt: seq<nat>, i: nat, j: nat)
    requires i <= j <= |es|
    ensures Offset(es, restartAt, i) + 3 * (j - i) <= Offset(es, restartAt, j)
    ensures Data(es, restartAt, i) <= Data(es, restartAt, j)
    decreases j
  {
    hide Shared;
    if i < j {
      OffsetsGrow(es, restartAt, i, j - 1);
      PairNotEmpty(Shared(es, restartAt, j - 1), es[j - 1]);
    }
  }

  lemma PairNotEmpty(shared: nat, p: Pair)
    requires shared <= |p.key|
    ensures |PairBytes(shared, p)| >= 3 + |p.key| - shared + |p.value|
  {
  }

  /** An offset tells which entry it is of. */
  lemma OffsetOrder(es: seq<Pair>, restartAt: seq<nat>, i: nat, j: nat)
    requires i <= |es| && j <= |es|
    ensures Offset(es, restartAt, i) < Offset(es, restartAt, j) <==> i < j
  {
    hide Offset, Data;
    if i < j {
      OffsetsGrow(es, restartAt, i, j);
    } else {
      OffsetsGrow(es, restartAt, j, i);
    }
  }

  lemma PointsFit(es: seq<Pair>, restartAt: seq<nat>)
    requires RestartsOk(es, restartAt) && Fits(es, restartAt)
    ensures forall k :: 0 <= k < |restartAt| ==> restartAt[k] <= |es|
    ensures forall k :: 0 <= k < |restartAt| ==> Points(es, restartAt)[k] < TWO_TO_32
  {
    hide Data;
    forall k | 0 <= k < |restartAt| ensures restartAt[k] <= |es| && Offset(es, restartAt, restartAt[k]) < TWO_TO_32 {
      OffsetsGrow(es, restartAt, restartAt[k], |es|);
    }
  }

  /** A finished block. */
  ghost function BlockBytes(es: seq<Pair>, restartAt: seq<nat>): seq<byte>
    requires RestartsOk(es, restartAt) && Fits(es, restartAt)
  {
    PointsFit(es, restartAt);
    Data(es, restartAt, |es|) + Fixed32s(Points(es, restartAt)) + EncodeFixed32(|restartAt|)
  }

  /** A block of two entries, byte for byte: the second key shares its first byte with the first. */
  lemma BlockExample(es: seq<Pair>)
    requires es == [Pair([97, 98], [120]), Pair([97, 99], [121, 122])]
    ensures RestartsOk(es, [0]) && Fits(es, [0]) && BlockBytes(es, [0]) == [0, 2, 1, 97, 98, 120, 1, 1, 2, 99, 121, 122, 0, 0, 0, 0, 1, 0, 0, 0]
  {
    hide Data, Fixed32s, EncodeFixed32, Points, Increasing, Shared, PairBytes;
    DataExample(es);
    OneRestart(es);
    var data, points := Data(es, [0], 2), Fixed32s(Points(es, [0]));
    assert BlockBytes(es, [0]) == data + (points + EncodeFixed32(1));
    assert points + EncodeFixed32(1) == [0, 0, 0, 0, 1, 0, 0, 0];
  }

  lemma DataExample(es: seq<Pair>)
    requires es == [Pair([97, 98], [120]), Pair([97, 99], [121, 122])]
    ensures Data(es, [0], 2) == [0, 2, 1, 97, 98, 120, 1, 1, 2, 99, 121, 122]
  {
    PairExamples();
    SharedExample(es);
    hide PairBytes, Shared;
    assert Data(es, [0], 0) == [];
    assert Data(es, [0], 1) == PairBytes(0, es[0]);
  }

  lemma SharedExample(es: seq<Pair>)
    requires es == [Pair([97, 98], [120]), Pair([97, 99], [121, 122])]
    ensures Shared(es, [0], 0) == 0 && Shared(es, [0], 1) == 1
  {
    assert [97, 98][1..] == [98] && [97, 99][1..] == [99];
  }

  lemma PairExamples()
    ensures PairBytes(0, Pair([97, 98], [120])) == [0, 2, 1, 97, 98, 120] && PairBytes(1, Pair([97, 99], [121, 122])) == [1, 1, 2, 99, 121, 122]
  {
  }

  lemma OneRestart(es: seq<Pair>)
    ensures Points(es, [0]) == [0] && Fixed32s([0]) == [0, 0, 0, 0] && EncodeFixed32(|[0]|) == [1, 0, 0, 0]
  {
    assert [0][..0] == [];
    assert Fixed32s([0]) == EncodeFixed32(0);
  }

  /** Adding an entry changes nothing before it. */
  lemma {:induction false} DataOfMore(es: seq<Pair>, p: Pair, restartAt: seq<nat>, more: seq<nat>, n: nat)
    requires n <= |es| && forall i :: 0 < i < n ==> (IsRestart(more, i) <==> IsRestart(restartAt, i))
    ensures Data(es + [p], more, n) == Data(es, restartAt, n)
    decreases n
  {
    hide IsRestart, PairBytes;
    if n > 0 {
      DataOfMore(es, p, restartAt, more, n - 1);
      assert Shared(es + [p], more, n - 1) == Shared(es, restartAt, n - 1);
    }
  }

  lemma SharedMore(a: seq<byte>, b: seq<byte>, n: nat)
    requires n < |a| && n < |b| && a[n] == b[n]
    ensures SharedPrefix(a[n..], b[n..]) == 1 + SharedPrefix(a[n + 1..], b[n + 1..])
  {
    assert a[n..][1..] == a[n + 1..] && b[n..][1..] == b[n + 1..];
  }

  lemma SharedEnds(a: seq<byte>, b: seq<byte>, n: nat)
    requires n <= |a| && n <= |b| && (n == |a| || n == |b| || a[n] != b[n])
    ensures SharedPrefix(a[n..], b[n..]) == 0
  {
  }

  /** How long a prefix the key shares with the one before. */
  method CountShared(last: seq<byte>, key: seq<byte>) returns (shared: nat)
    ensures shared == SharedPrefix(last, key)
  {
    hide SharedPrefix;
    var minLength := if |last| < |key| then |last| else |key|;
    shared := 0;
    assert last[0..] == last && key[0..] == key;
    while shared < minLength && last[shared] == key[shared]
      invariant shared <= minLength && shared + SharedPrefix(last[shared..], key[shared..]) == SharedPrefix(last, key)
    {
      SharedMore(last, key, shared);
      shared := shared + 1;
    }
    SharedEnds(last, key, shared);
  }

  lemma StillIncreasing(rank: Rank, es: seq<Pair>, p: Pair)
    requires Increasing(rank, es) && (es != [] ==> rank(es[|es| - 1].key) < rank(p.key))
    ensures Increasing(rank, es + [p])
  {
    forall i | 0 <= i < |es| ensures rank(es[i].key) < rank(p.key) {
      assert i < |es| - 1 ==> rank(es[i].key) < rank(es[|es| - 1].key);
    }
  }

  /** The restart points when an entry is added, at a new restart point or not. */
  lemma AddedRestarts(es: seq<Pair>, p: Pair, restartAt: seq<nat>, more: seq<nat>)
    requires RestartsOk(es, restartAt) && (more == restartAt || (es != [] && more == restartAt + [|es|]))
    ensures RestartsOk(es + [p], more)
    ensures Points(es + [p], more) == if more == restartAt then Points(es, restartAt) else Points(es, restartAt) + [Offset(es, restartAt, |es|)]
    ensures IsRestart(more, |es|) <==> es == [] || more != restartAt
    ensures forall i :: 0 < i < |es| ==> (IsRestart(more, i) <==> IsRestart(restartAt, i))
  {
    hide Data;
    forall k | 0 <= k < |more| ensures Offset(es + [p], more, more[k]) == Offset(es, restartAt, more[k]) {
      DataOfMore(es, p, restartAt, more, more[k]);
    }
  }

  lemma AddedData(es: seq<Pair>, p: Pair, restartAt: seq<nat>, more: seq<nat>)
    requires forall i :: 0 < i < |es| ==> (IsRestart(more, i) <==> IsRestart(restartAt, i))
    ensures Data(es + [p], more, |es| + 1) == Data(es, restartAt, |es|) +
      PairBytes(if es == [] || IsRestart(more, |es|) then 0 else SharedPrefix(es[|es| - 1].key, p.key), p)
  {
    DataOfMore(es, p, restartAt, more, |es|);
  }

  class BlockBuilder {
    const interval: nat
    const rank: Rank
    var buffer: seq<byte>
    var restarts: seq<nat>
    var counter: nat
    var finished: bool
    var lastKey: seq<byte>
    ghost var entries: seq<Pair>
    ghost var restartAt: seq<nat>

    ghost predicate Valid()
      reads this
    {
      && interval >= 1 && counter <= interval
      && RestartsOk(entries, restartAt) && Increasing(rank, entries) && Sized(entries)
      && lastKey == (if entries == [] then [] else entries[|entries| - 1].key)
      && buffer == Data(entries, restartAt, |entries|) && restarts == Points(entries, restartAt)
      && (entries == [] ==> counter == 0)
    }

    constructor (interval: nat, rank: Rank)
      requires interval >= 1
      ensures Valid() && !finished && entries == [] && buffer == [] && restarts == [0] && this.rank == rank
    {
      this.interval, this.rank := interval, rank;
      buffer, restarts, counter, finished, lastKey := [], [0], 0, false, [];
      entries, restartAt := [], [0];
    }

    method Add(key: seq<byte>, value: seq<byte>)
      requires Valid() && !finished && |key| < TWO_TO_32 && |value| < TWO_TO_32
      requires entries != [] ==> rank(lastKey) < rank(key)
      modifies this
      ensures Valid() && !finished && entries == old(entries) + [Pair(key, value)]
      ensures |buffer| <= |old(buffer)| + 15 + |key| + |value| && |restarts| <= |old(restarts)| + 1
    {
      hide Data, PairBytes, SharedPrefix, Points, IsRestart, RestartsOk, Increasing;
      var shared := 0;
      ghost var es, p, more := entries, Pair(key, value), restartAt;
      if counter < interval {
        shared := CountShared(lastKey, key);
      } else {
        restarts := restarts + [|buffer|];
        counter := 0;
        more := restartAt + [|entries|];
      }
      AddedRestarts(es, p, restartAt, more);
      AddedData(es, p, restartAt, more);
      StillIncreasing(rank, es, p);
      AppendPair(shared, key, value);
      counter := counter + 1;
      entries, restartAt := es + [p], more;
    }

    method Reset()
      requires interval >= 1
      modifies this
      ensures Valid() && !finished && entries == [] && buffer == [] && restarts == [0]
    {
      buffer, restarts, counter, finished, lastKey := [], [0], 0, false, [];
      entries, restartAt := [], [0];
    }

    /** The size of the finished block, in bytes. */
    function CurrentSizeEstimate(): (size: nat)
      requires Valid()
      reads this
      ensures RestartsOk(entries, restartAt) && Fits(entries, restartAt) ==> size == |BlockBytes(entries, restartAt)|
    {
      |buffer| + 4 * |restarts| + 4
    }

    predicate Empty()
      reads this
      ensures Valid() ==> (Empty() <==> entries == [])
    {
      buffer == []
    }

    /** The lengths, the rest of the key and the value. */
    method AppendPair(shared: nat, key: seq<byte>, value: seq<byte>)
      requires shared <= |key| < TWO_TO_32 && |value| < TWO_TO_32 && shared <= |lastKey| && lastKey[..shared] == key[..shared]
      modifies this`buffer, this`lastKey
      ensures buffer == old(buffer) + PairBytes(shared, Pair(key, value)) && lastKey == key
      ensures |buffer| <= |old(buffer)| + 15 + |key| + |value|
    {
      hide Varint;
      ShortVarint(shared);
      ShortVarint(|key| - shared);
      ShortVarint(|value|);
      var delta := key[shared..];
      buffer := PutVarint32(buffer, shared);
      buffer := PutVarint32(buffer, |key| - shared);
      buffer := PutVarint32(buffer, |value|);
      buffer := buffer + delta;
      buffer := buffer + value;
      lastKey := lastKey[..shared] + delta;
    }

    /** Appends the restart points and their number. */
    method Finish() returns (block: seq<byte>)
      requires Valid() && !finished && Fits(entries, restartAt)
      modifies this`buffer, this`finished
      ensures finished && block == BlockBytes(entries, restartAt)
    {
      hide Data, Points, Increasing, EncodeFixed32;
      PointsFit(entries, restartAt);
      for i := 0 to |restarts|
        invariant forall k :: 0 <= k < |restarts| ==> restarts[k] < TWO_TO_32
        invariant buffer == Data(entries, restartAt, |entries|) + Fixed32s(restarts[..i])
      {
        assert restarts[..i + 1][..i] == restarts[..i];
        buffer := buffer + EncodeFixed32(restarts[i]);
      }
      assert restarts[..|restarts|] == restarts;
      buffer := buffer + EncodeFixed32(|restarts|);
      finished := true;
      block := buffer;
    }
  }
}
