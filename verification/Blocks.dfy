/** Reading a block: a bidirectional cursor with binary search over the restart points (table/block.cc). */
module Blocks {
  import opened Format
  import opened Coding
  import opened BlockFormat

  /** DecodeEntry: the three lengths at the front, and what follows them. */
  method DecodeEntry(input: seq<byte>, ghost shared: nat, ghost p: Pair, ghost tail: seq<byte>) returns (r: Option<(nat, nat, nat, seq<byte>)>)
    ensures r.Some? ==> r.value.0 < TWO_TO_32 && r.value.1 < TWO_TO_32 && r.value.2 < TWO_TO_32
    ensures PairFits(shared, p) && input == PairBytes(shared, p) + tail ==>
      r == Some((shared, |p.key| - shared, |p.value|, p.key[shared..] + p.value + tail))
  {
    hide Varint, GetVarint;
    ghost var good := PairFits(shared, p) && input == PairBytes(shared, p) + tail;
    if good {
      LengthsRead(shared, p, tail);
    }
    if |input| < 3 {
      return None;
    }
    var a, b, c, rest := 0, 0, 0, [];
    if input[0] < 128 && input[1] < 128 && input[2] < 128 {
      a, b, c, rest := input[0] as nat, input[1] as nat, input[2] as nat, input[3..];
    } else {
      var first := DecodeVarint(input, false);
      if first == None {
        return None;
      }
      var second := DecodeVarint(first.value.1, false);
      if second == None {
        return None;
      }
      var third := DecodeVarint(second.value.1, false);
      if third == None {
        return None;
      }
      a, b, c, rest := first.value.0, second.value.0, third.value.0, third.value.1;
    }
    if |rest| < (b + c) % TWO_TO_32 {
      return None;
    }
    return Some((a, b, c, rest));
  }

  ghost predicate PairFits(shared: nat, p: Pair) {
    shared <= |p.key| < TWO_TO_32 && |p.value| < TWO_TO_32 && |p.key| - shared + |p.value| < TWO_TO_32
  }

  ghost function AfterFirst(shared: nat, p: Pair, tail: seq<byte>): seq<byte>
    requires shared <= |p.key|
  {
    Varint(|p.key| - shared) + AfterSecond(shared, p, tail)
  }

  ghost function AfterSecond(shared: nat, p: Pair, tail: seq<byte>): seq<byte>
    requires shared <= |p.key|
  {
    Varint(|p.value|) + (p.key[shared..] + p.value + tail)
  }

  /** The lengths are read back, one by one, or at once when each is a single byte. */
  lemma LengthsRead(shared: nat, p: Pair, tail: seq<byte>)
    requires PairFits(shared, p)
    ensures var input, rest := PairBytes(shared, p) + tail, p.key[shared..] + p.value + tail;
      && |input| >= 3
      && GetVarint(input, false) == Some((shared, AfterFirst(shared, p, tail)))
      && GetVarint(AfterFirst(shared, p, tail), false) == Some((|p.key| - shared, AfterSecond(shared, p, tail)))
      && GetVarint(AfterSecond(shared, p, tail), false) == Some((|p.value|, rest))
      && (input[0] < 128 && input[1] < 128 && input[2] < 128 ==>
        input[0] as nat == shared && input[1] as nat == |p.key| - shared && input[2] as nat == |p.value| && input[3..] == rest)
  {
    hide Varint, GetVarint;
    var rest := p.key[shared..] + p.value + tail;
    assert PairBytes(shared, p) + tail == Varint(shared) + AfterFirst(shared, p, tail);
    VarintRoundTrip(shared, AfterFirst(shared, p, tail), false);
    VarintRoundTrip(|p.key| - shared, AfterSecond(shared, p, tail), false);
    VarintRoundTrip(|p.value|, rest, false);
    OneByte(shared, AfterFirst(shared, p, tail));
    OneByte(|p.key| - shared, AfterSecond(shared, p, tail));
    OneByte(|p.value|, rest);
    hide AfterFirst, AfterSecond, PairBytes;
    FastPath(PairBytes(shared, p) + tail, shared, AfterFirst(shared, p, tail), |p.key| - shared, AfterSecond(shared, p, tail), |p.value|, rest);
  }

  lemma FastPath(input: seq<byte>, a: nat, second: seq<byte>, b: nat, third: seq<byte>, c: nat, rest: seq<byte>)
    requires input != [] && (input[0] < 128 ==> input[0] as nat == a && input[1..] == second)
    requires second != [] && (second[0] < 128 ==> second[0] as nat == b && second[1..] == third)
    requires third != [] && (third[0] < 128 ==> third[0] as nat == c && third[1..] == rest)
    requires |second| < |input| && |third| < |second|
    ensures |input| >= 3
    ensures input[0] < 128 && input[1] < 128 && input[2] < 128 ==>
      input[0] as nat == a && input[1] as nat == b && input[2] as nat == c && input[3..] == rest
  {
    if input[0] < 128 {
      assert input[1] == second[0];
      if input[1] < 128 {
        assert input[2] == second[1] == third[0];
        assert input[3..] == second[2..] == third[1..];
      }
    }
  }

  lemma OneByte(n: nat, rest: seq<byte>)
    ensures var bytes := Varint(n) + rest; bytes != [] && (bytes[0] < 128 ==> bytes[0] as nat == n && bytes[1..] == rest)
  {
    VarintStep(n);
  }

  lemma SliceOfMiddle(a: seq<byte>, b: seq<byte>, c: seq<byte>, i: nat, j: nat)
    requires i <= j <= |b|
    ensures (a + b + c)[|a| + i..|a| + j] == b[i..j]
  {
  }

  lemma {:induction false} Fixed32At(ns: seq<nat>, i: nat)
    requires (forall k :: 0 <= k < |ns| ==> ns[k] < TWO_TO_32) && i < |ns|
    ensures Fixed32s(ns)[4 * i..4 * i + 4] == EncodeFixed32(ns[i])
    decreases |ns|
  {
    hide EncodeFixed32;
    var n := |ns| - 1;
    if i < n {
      Fixed32At(ns[..n], i);
      assert Fixed32s(ns)[4 * i..4 * i + 4] == Fixed32s(ns[..n])[4 * i..4 * i + 4];
    }
  }

  /** The stored form of entry `i` is where its offset says. */
  lemma PairAt(es: seq<Pair>, restartAt: seq<nat>, i: nat, data: seq<byte>)
    requires i < |es| && Data(es, restartAt, |es|) <= data
    ensures Offset(es, restartAt, i + 1) == Offset(es, restartAt, i) + |PairBytes(Shared(es, restartAt, i), es[i])|
    ensures Offset(es, restartAt, i + 1) <= Offset(es, restartAt, |es|) <= |data|
    ensures data[Offset(es, restartAt, i)..Offset(es, restartAt, i + 1)] == PairBytes(Shared(es, restartAt, i), es[i])
  {
    hide PairBytes, Shared;
    OffsetsGrow(es, restartAt, i + 1, |es|);
    var before, piece := Data(es, restartAt, i), PairBytes(Shared(es, restartAt, i), es[i]);
    assert Data(es, restartAt, i + 1) == before + piece;
  }

  /** A stored point can be read back. */
  lemma PointAt(es: seq<Pair>, restartAt: seq<nat>, i: nat)
    requires RestartsOk(es, restartAt) && Fits(es, restartAt) && i < |restartAt|
    ensures var n := Offset(es, restartAt, |es|);
      && |BlockBytes(es, restartAt)| == n + 4 * |restartAt| + 4 && restartAt[i] <= |es|
      && DecodeFixed32(BlockBytes(es, restartAt)[n + 4 * i..n + 4 * i + 4]) == Offset(es, restartAt, restartAt[i])
  {
    hide Data, EncodeFixed32, DecodeFixed32, Fixed32s, Points;
    PointsFit(es, restartAt);
    var ps, data := Points(es, restartAt), Data(es, restartAt, |es|);
    Fixed32At(ps, i);
    Fixed32RoundTrip(ps[i]);
    SliceOfMiddle(data, Fixed32s(ps), EncodeFixed32(|restartAt|), 4 * i, 4 * i + 4);
  }

  /** The number of restart points is at the very end. */
  lemma CountAt(es: seq<Pair>, restartAt: seq<nat>)
    requires RestartsOk(es, restartAt) && Fits(es, restartAt)
    ensures var block := BlockBytes(es, restartAt);
      |block| >= 4 && DecodeFixed32(block[|block| - 4..]) == |restartAt| && |block| - 4 - 4 * |restartAt| == Offset(es, restartAt, |es|)
  {
    hide Data, EncodeFixed32, DecodeFixed32, Fixed32s, Points;
    PointsFit(es, restartAt);
    Fixed32RoundTrip(|restartAt|);
    var block := BlockBytes(es, restartAt);
    assert block[|block| - 4..] == EncodeFixed32(|restartAt|);
  }

  lemma PairOk(es: seq<Pair>, restartAt: seq<nat>, i: nat)
    requires Fits(es, restartAt) && i < |es|
    ensures PairFits(Shared(es, restartAt, i), es[i])
  {
    hide Shared;
    OffsetsGrow(es, restartAt, i + 1, |es|);
    PairNotEmpty(Shared(es, restartAt, i), es[i]);
  }

  /** The input at an entry: its stored form, and then what follows. */
  lemma InputAt(es: seq<Pair>, restartAt: seq<nat>, i: nat, data: seq<byte>)
    requires i < |es| && Data(es, restartAt, |es|) <= data
    ensures Offset(es, restartAt, i) < Offset(es, restartAt, i + 1) <= Offset(es, restartAt, |es|) <= |data|
    ensures data[Offset(es, restartAt, i)..Offset(es, restartAt, |es|)] ==
      PairBytes(Shared(es, restartAt, i), es[i]) + data[Offset(es, restartAt, i + 1)..Offset(es, restartAt, |es|)]
  {
    hide PairBytes, Shared, Data;
    PairAt(es, restartAt, i, data);
    OffsetOrder(es, restartAt, i, i + 1);
  }

  ghost predicate IsBlock(data: seq<byte>, rank: Rank, es: seq<Pair>, restartAt: seq<nat>) {
    RestartsOk(es, restartAt) && Fits(es, restartAt) && Increasing(rank, es) && data == BlockBytes(es, restartAt)
  }

  /** Where the value of a decoded entry is. */
  lemma ValuePlace(data: seq<byte>, from: nat, to: nat, shared: nat, p: Pair, tail: seq<byte>)
    requires from <= to <= |data| && shared <= |p.key| && data[from..to] == PairBytes(shared, p) + tail
    ensures var start := to - |tail| - |p.value|; start >= 0 && data[start..start + |p.value|] == p.value
  {
    hide Varint;
    var header := Varint(shared) + Varint(|p.key| - shared) + Varint(|p.value|) + p.key[shared..];
    assert PairBytes(shared, p) == header + p.value;
    var start := |header|;
    assert data[from..to][start..start + |p.value|] == p.value;
    SliceOfSlice(data, from, to, start, start + |p.value|);
  }

  lemma SliceOfSlice(data: seq<byte>, from: nat, to: nat, i: nat, j: nat)
    requires from <= to <= |data| && i <= j <= to - from
    ensures data[from..to][i..j] == data[from + i..from + j]
  {
    var a, b := data[from..to][i..j], data[from + i..from + j];
    assert |a| == |b| && forall k :: 0 <= k < |a| ==> a[k] == b[k];
  }

  class BlockIter {
    const rank: Rank
    const data: seq<byte>
    const restarts: nat
    const numRestarts: nat
    var current: nat
    var restartIndex: nat
    var key: seq<byte>
    var valueStart: nat
    var valueLength: nat
    ghost const es: seq<Pair>
    ghost const restartAt: seq<nat>
    /** The entry the cursor is at; one past the end when it is not valid. */
    ghost var at: nat

    ghost predicate Over() {
      IsBlock(data, rank, es, restartAt) && restarts == Offset(es, restartAt, |es|) && numRestarts == |restartAt|
    }

    /** The restart point lies at or before entry `i`. */
    ghost predicate RestartsBefore(i: nat)
      reads this
    {
      restartIndex < |restartAt| && restartAt[restartIndex] <= i
    }

    ghost predicate Inv()
      reads this
    {
      && Over() && at <= |es|
      && (if at == |es| then current == restarts && restartIndex == numRestarts else
        && current == Offset(es, restartAt, at) && key == es[at].key
        && valueStart + valueLength == Offset(es, restartAt, at + 1) <= |data| && data[valueStart..valueStart + valueLength] == es[at].value
        && RestartsBefore(at) && (restartIndex + 1 < numRestarts ==> at <= restartAt[restartIndex + 1]))
    }

    /** The next entry to be parsed is `i`. */
    ghost predicate Ready(i: nat)
      reads this
    {
      && Over() && i <= |es| && valueStart + valueLength == Offset(es, restartAt, i) && RestartsBefore(i)
      && (i < |es| ==> Shared(es, restartAt, i) == 0 || (i > 0 && key == es[i - 1].key))
    }

    constructor (rank: Rank, data: seq<byte>, ghost es: seq<Pair>, ghost restartAt: seq<nat>)
      requires IsBlock(data, rank, es, restartAt)
      ensures Inv() && at == |es| && this.es == es && this.restartAt == restartAt && this.rank == rank && this.data == data
    {
      hide Data, BlockBytes, DecodeFixed32;
      CountAt(es, restartAt);
      this.rank, this.data := rank, data;
      this.es, this.restartAt, at := es, restartAt, |es|;
      var count := DecodeFixed32(data[|data| - 4..]);
      numRestarts := count;
      restarts := |data| - 4 - 4 * count;
      current, restartIndex := |data| - 4 - 4 * count, count;
      key, valueStart, valueLength := [], 0, 0;
    }

    predicate Valid()
      reads this
      ensures Inv() ==> (Valid() <==> at < |es|)
    {
      hide Data;
      assert Inv() && at < |es| ==> current < restarts by {
        if Inv() && at < |es| {
          OffsetOrder(es, restartAt, at, |es|);
        }
      }
      current < restarts
    }

    /** The entry the cursor is at. */
    function Current(): (p: Pair)
      requires Inv() && at < |es|
      reads this
      ensures p == es[at]
    {
      Pair(key, data[valueStart..valueStart + valueLength])
    }

    method GetRestartPoint(i: nat) returns (offset: nat)
      requires Over() && i < numRestarts
      ensures restartAt[i] <= |es| && offset == Offset(es, restartAt, restartAt[i])
    {
      hide Data, BlockBytes, DecodeFixed32, RestartsOk, Fits, Increasing;
      PointAt(es, restartAt, i);
      offset := DecodeFixed32(data[restarts + 4 * i..restarts + 4 * i + 4]);
    }

    method SeekToRestartPoint(i: nat)
      requires Over() && i < numRestarts
      modifies this
      ensures restartAt[i] <= |es| && Ready(restartAt[i]) && restartIndex == i
    {
      hide Data, BlockBytes, Increasing, Fits, RestartsOk;
      key := [];
      restartIndex := i;
      var offset := GetRestartPoint(i);
      valueStart, valueLength := offset, 0;
    }

    /** Decodes the next entry; false at the end. */
    method ParseNextKey(ghost i: nat) returns (more: bool)
      requires Ready(i)
      modifies this
      ensures Inv() && at == i && (more <==> i < |es|)
    {
      hide Data, BlockBytes, RestartsOk, Fits, Increasing, Shared, PairBytes, Offset;
      at := i;
      current := valueStart + valueLength;
      OffsetOrder(es, restartAt, i, |es|);
      if current >= restarts {
        current, restartIndex := restarts, numRestarts;
        return false;
      }
      ghost var tail := EntryHere(i);
      ghost var keep, p := Shared(es, restartAt, i), es[i];
      KeyShared(i);
      ValuePlace(data, current, restarts, keep, p, tail);
      var lengths := DecodeEntry(data[current..restarts], keep, p, tail);
      if lengths == None || |key| < lengths.value.0 {
        assert false;
      }
      var (shared, nonShared, length, rest) := lengths.value;
      assert rest == p.key[keep..] + p.value + tail;
      assert key[..shared] + rest[..nonShared] == p.key;
      key := key[..shared] + rest[..nonShared];
      valueStart := restarts - |rest| + nonShared;
      valueLength := length;
      AdvanceRestart(i);
      return true;
    }

    /** Moves to the last restart point before the current entry, or leaves it at the entry itself. */
    method AdvanceRestart(ghost i: nat)
      requires Over() && i < |es| && current == Offset(es, restartAt, i) && RestartsBefore(i)
      modifies this`restartIndex
      ensures RestartsBefore(i) && (restartIndex + 1 < numRestarts ==> i <= restartAt[restartIndex + 1])
    {
      hide Data, BlockBytes, RestartsOk, Fits, Increasing, Offset;
      var more := restartIndex + 1 < numRestarts;
      while more
        invariant RestartsBefore(i) && (more ==> restartIndex + 1 < numRestarts)
        invariant !more && restartIndex + 1 < numRestarts ==> i <= restartAt[restartIndex + 1]
        decreases numRestarts - restartIndex, more
      {
        var point := GetRestartPoint(restartIndex + 1);
        OffsetOrder(es, restartAt, restartAt[restartIndex + 1], i);
        if point < current {
          restartIndex := restartIndex + 1;
          more := restartIndex + 1 < numRestarts;
        } else {
          more := false;
        }
      }
    }

    lemma KeyShared(i: nat)
      requires Ready(i) && i < |es|
      ensures Shared(es, restartAt, i) <= |key| && Shared(es, restartAt, i) <= |es[i].key|
      ensures key[..Shared(es, restartAt, i)] == es[i].key[..Shared(es, restartAt, i)]
    {
      hide Data, BlockBytes, RestartsOk, Fits, Increasing, Offset;
    }

    ghost method EntryHere(i: nat) returns (tail: seq<byte>)
      requires Over() && i < |es|
      ensures Offset(es, restartAt, i) <= restarts <= |data|
      ensures PairFits(Shared(es, restartAt, i), es[i])
      ensures data[Offset(es, restartAt, i)..restarts] == PairBytes(Shared(es, restartAt, i), es[i]) + tail
      ensures |tail| == restarts - Offset(es, restartAt, i + 1) && tail == data[Offset(es, restartAt, i + 1)..restarts]
    {
      hide PairBytes, Shared, Increasing, RestartsOk;
      InputAt(es, restartAt, i, data);
      PairOk(es, restartAt, i);
      tail := data[Offset(es, restartAt, i + 1)..restarts];
    }

    method Next()
      requires Inv() && Valid()
      modifies this
      ensures Inv() && at == old(at) + 1
    {
      hide Data, BlockBytes, RestartsOk, Fits, Increasing, Offset;
      NextReady();
      var _ := ParseNextKey(at + 1);
    }

    lemma NextReady()
      requires Inv() && at < |es|
      ensures Ready(at + 1)
    {
    }

    method Prev()
      requires Inv() && Valid()
      modifies this
      ensures Inv() && at == if old(at) == 0 then |es| else old(at) - 1
    {
      hide Data, BlockBytes, Fits, Increasing, Offset, BlockIter.Ready, Shared;
      ghost var here := at;
      var original := current;
      assert restartAt[0] == 0;
      var point := GetRestartPoint(restartIndex);
      OffsetOrder(es, restartAt, restartAt[restartIndex], here);
      while point >= original
        invariant Over() && RestartsBefore(here) && here < |es| && original == Offset(es, restartAt, here)
        invariant restartAt[restartIndex] <= |es| && point == Offset(es, restartAt, restartAt[restartIndex])
        invariant point < original <==> restartAt[restartIndex] < here
        decreases restartIndex
      {
        if restartIndex == 0 {
          current, restartIndex := restarts, numRestarts;
          at := |es|;
          return;
        }
        restartIndex := restartIndex - 1;
        point := GetRestartPoint(restartIndex);
        OffsetOrder(es, restartAt, restartAt[restartIndex], here);
      }
      SeekToRestartPoint(restartIndex);
      ScanBefore(original, restartAt[restartIndex], here);
    }

    /** Parses entries up to the one that ends where the original one starts. */
    method ScanBefore(original: nat, ghost first: nat, ghost here: nat)
      requires Ready(first) && first < here < |es| && original == Offset(es, restartAt, here)
      modifies this
      ensures Inv() && at == here - 1
    {
      hide Data, BlockBytes, Fits, Increasing, Offset, BlockIter.Ready, Shared;
      ghost var i := first;
      var more := ParseNextKey(i);
      OffsetOrder(es, restartAt, i + 1, here);
      while more && valueStart + valueLength < original
        invariant Inv() && at == i < here < |es| && original == Offset(es, restartAt, here) && more
        invariant valueStart + valueLength == Offset(es, restartAt, i + 1)
        invariant valueStart + valueLength < original <==> i + 1 < here
        decreases here - i
      {
        NextReady();
        i := i + 1;
        more := ParseNextKey(i);
        OffsetOrder(es, restartAt, i + 1, here);
      }
    }

    method SeekToFirst()
      requires Inv()
      modifies this
      ensures Inv() && at == 0
    {
      hide Data, BlockBytes, Fits, Increasing, Offset, BlockIter.Ready;
      assert restartAt[0] == 0;
      SeekToRestartPoint(0);
      var _ := ParseNextKey(0);
    }

    method SeekToLast()
      requires Inv()
      modifies this
      ensures Inv() && at == if |es| == 0 then 0 else |es| - 1
    {
      hide Data, BlockBytes, Fits, Increasing, Offset, BlockIter.Ready, Shared;
      ghost var i := restartAt[numRestarts - 1];
      assert i < |es| || es == [];
      SeekToRestartPoint(numRestarts - 1);
      var more := ParseNextKey(i);
      if i < |es| {
        OffsetOrder(es, restartAt, i + 1, |es|);
      }
      while more && valueStart + valueLength < restarts
        invariant Inv() && at == i && (more <==> i < |es|) && (es != [] ==> i < |es|)
        invariant more ==> valueStart + valueLength == Offset(es, restartAt, i + 1)
        invariant more ==> (valueStart + valueLength < restarts <==> i + 1 < |es|)
        decreases |es| - i
      {
        NextReady();
        i := i + 1;
        more := ParseNextKey(i);
        OffsetOrder(es, restartAt, i + 1, |es|);
      }
    }

    /** Moves to the first entry at or after the target, wherever the cursor was. */
    method Seek(target: seq<byte>)
      requires Inv()
      modifies this
      ensures Inv()
      ensures forall j :: 0 <= j < |es| ==> (j < at <==> rank(es[j].key) < rank(target))
    {
      hide Data, BlockBytes, Fits, Offset, BlockIter.Ready, Shared;
      var left := SearchRestarts(target);
      SeekToRestartPoint(left);
      ghost var i := restartAt[left];
      var more := ParseNextKey(i);
      while more && rank(key) < rank(target)
        invariant Inv() && at == i && (more <==> i < |es|)
        invariant forall j :: 0 <= j < i && j < |es| ==> rank(es[j].key) < rank(target)
        decreases |es| - i
      {
        NextReady();
        i := i + 1;
        more := ParseNextKey(i);
      }
    }

    /** Binary search for the last restart point with a key before the target. */
    method SearchRestarts(target: seq<byte>) returns (left: nat)
      requires Over()
      ensures left < numRestarts && forall j :: 0 <= j < restartAt[left] && j < |es| ==> rank(es[j].key) < rank(target)
    {
      hide Data, BlockBytes, Fits, Offset, Shared;
      left := 0;
      var right := numRestarts - 1;
      while left < right
        invariant left <= right < numRestarts
        invariant forall j :: 0 <= j < restartAt[left] && j < |es| ==> rank(es[j].key) < rank(target)
      {
        var mid := (left + right + 1) / 2;
        var midKey := RestartKey(mid);
        if rank(midKey) < rank(target) {
          left := mid;
        } else {
          right := mid - 1;
        }
      }
    }

    /** The key at a restart point, which is stored whole. */
    method RestartKey(i: nat) returns (k: seq<byte>)
      requires Over() && 1 <= i < numRestarts
      ensures restartAt[i] < |es| && k == es[restartAt[i]].key
    {
      assert restartAt[i] < |es| && IsRestart(restartAt, restartAt[i]) && Shared(es, restartAt, restartAt[i]) == 0;
      hide Data, BlockBytes, Fits, Offset, Shared, Increasing, RestartsOk, PairBytes;
      var offset := GetRestartPoint(i);
      ghost var tail := EntryHere(restartAt[i]);
      var lengths := DecodeEntry(data[offset..restarts], 0, es[restartAt[i]], tail);
      if lengths == None || lengths.value.0 != 0 {
        assert false;
      }
      k := lengths.value.3[..lengths.value.1];
    }
  }

  /** Iterating over a built block gives back the entries that were added. */
  method ReadBlock(rank: Rank, data: seq<byte>, ghost es: seq<Pair>, ghost restartAt: seq<nat>) returns (pairs: seq<Pair>)
    requires IsBlock(data, rank, es, restartAt)
    ensures pairs == es
  {
    hide IsBlock, BlockIter.Inv;
    var iter := new BlockIter(rank, data, es, restartAt);
    iter.SeekToFirst();
    pairs := [];
    BoundedAt(iter);
    while iter.Valid()
      invariant iter.Inv() && iter.es == es && iter.at <= |es| && pairs == es[..iter.at]
      decreases |es| - iter.at
    {
      pairs := pairs + [iter.Current()];
      iter.Next();
      BoundedAt(iter);
    }
  }

  lemma BoundedAt(iter: BlockIter)
    requires iter.Inv()
    ensures iter.at <= |iter.es|
  {
  }

  /** A bound on the size of the entries, with their lengths at most five bytes each. */
  function Weight(es: seq<Pair>): nat {
    if es == [] then 0 else Weight(es[..|es| - 1]) + 15 + |es[|es| - 1].key| + |es[|es| - 1].value|
  }

  lemma {:induction false} WeighsMore(es: seq<Pair>, i: nat)
    requires i < |es|
    ensures |es[i].key| + |es[i].value| <= Weight(es)
    decreases |es|
  {
    if i < |es| - 1 {
      WeighsMore(es[..|es| - 1], i);
    }
  }

  lemma {:induction false} OffsetBound(es: seq<Pair>, restartAt: seq<nat>, n: nat)
    requires n <= |es| && Weight(es) < TWO_TO_32
    ensures Offset(es, restartAt, n) <= Weight(es[..n])
    decreases n
  {
    hide Varint, Shared;
    if n > 0 {
      OffsetBound(es, restartAt, n - 1);
      var p, shared := es[n - 1], Shared(es, restartAt, n - 1);
      WeighsMore(es, n - 1);
      ShortVarint(shared);
      ShortVarint(|p.key| - shared);
      ShortVarint(|p.value|);
      assert es[..n][..n - 1] == es[..n - 1];
    }
  }

  lemma {:induction false} RestartsSpread(es: seq<Pair>, restartAt: seq<nat>, k: nat)
    requires RestartsOk(es, restartAt) && k < |restartAt|
    ensures k <= restartAt[k]
  {
    if k > 0 {
      RestartsSpread(es, restartAt, k - 1);
    }
  }

  lemma {:induction false} WeightCounts(es: seq<Pair>)
    ensures |es| <= Weight(es)
    decreases |es|
  {
    if es != [] {
      WeightCounts(es[..|es| - 1]);
    }
  }

  lemma SmallFits(es: seq<Pair>, restartAt: seq<nat>)
    requires RestartsOk(es, restartAt) && Weight(es) + 1 < TWO_TO_32
    ensures Fits(es, restartAt)
  {
    hide Data, Weight;
    OffsetBound(es, restartAt, |es|);
    assert es[..|es|] == es;
    RestartsSpread(es, restartAt, |restartAt| - 1);
    WeightCounts(es);
    forall i | 0 <= i < |es| ensures |es[i].key| < TWO_TO_32 && |es[i].value| < TWO_TO_32 {
      WeighsMore(es, i);
    }
  }

  /** Build a block at any restart interval and read it: the same entries, in the same order. */
  method BlockRoundTrip(rank: Rank, interval: nat, es: seq<Pair>) returns (pairs: seq<Pair>)
    requires interval >= 1 && Increasing(rank, es) && Weight(es) + 1 < TWO_TO_32
    ensures pairs == es
  {
    hide BlockBuilder.Valid, BlockBytes, RestartsOk, Fits, Increasing, Weight;
    var builder := new BlockBuilder(interval, rank);
    for i := 0 to |es|
      invariant builder.Valid() && !builder.finished && builder.entries == es[..i] && builder.rank == rank
    {
      BuilderLast(builder, es, i);
      WeighsMore(es, i);
      builder.Add(es[i].key, es[i].value);
    }
    assert es[..|es|] == es;
    BuilderDone(builder);
    ghost var restartAt := builder.restartAt;
    SmallFits(es, restartAt);
    var block := builder.Finish();
    pairs := ReadBlock(rank, block, es, restartAt);
  }

  lemma BuilderLast(builder: BlockBuilder, es: seq<Pair>, i: nat)
    requires builder.Valid() && i < |es| && builder.entries == es[..i] && Increasing(builder.rank, es)
    ensures builder.entries != [] ==> builder.rank(builder.lastKey) < builder.rank(es[i].key)
  {
  }

  lemma BuilderDone(builder: BlockBuilder)
    requires builder.Valid()
    ensures RestartsOk(builder.entries, builder.restartAt)
  {
  }
}
