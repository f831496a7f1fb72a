/** The hash table of the block cache (HandleTable in util/cache.cc).

    Handles are allocated and freed by hand, so memory is explicit: a map from addresses to handles,
    from which a freed handle is gone. */
module HandleTables {
  import opened Format

  type Address = nat

  datatype Handle = Handle(key: seq<byte>, hash: nat, value: nat, charge: nat, inCache: bool, refs: nat)

  type Memory = map<Address, Handle>

  predicate Matches(h: Handle, key: seq<byte>, hash: nat) {
    h.hash == hash && h.key == key
  }

  /** A chain of the bucket `i`: every handle belongs there, and no two have the same key. */
  ghost predicate ChainOk(memory: Memory, chain: seq<Address>, i: nat, length: nat) {
    && length > 0
    && (forall j :: 0 <= j < |chain| ==> chain[j] in memory && memory[chain[j]].hash % length == i)
    && (forall j, k :: 0 <= j < k < |chain| ==> !Matches(memory[chain[j]], memory[chain[k]].key, memory[chain[k]].hash))
  }

  ghost predicate TableOk(memory: Memory, buckets: seq<seq<Address>>, ids: set<Address>) {
    && |buckets| > 0
    && (forall i :: 0 <= i < |buckets| ==> ChainOk(memory, buckets[i], i, |buckets|))
    && (forall a :: a in ids <==> InTable(buckets, a))
  }

  ghost predicate InTable(buckets: seq<seq<Address>>, a: Address) {
    exists i :: 0 <= i < |buckets| && a in buckets[i]
  }

  /** The table is a finite map: a key leads to at most one handle. */
  lemma OneHandle(memory: Memory, buckets: seq<seq<Address>>, ids: set<Address>, a: Address, b: Address)
    requires TableOk(memory, buckets, ids) && a in ids && b in ids
    ensures a in memory && b in memory
    ensures Matches(memory[a], memory[b].key, memory[b].hash) ==> a == b
  {
    var i :| 0 <= i < |buckets| && a in buckets[i];
    var k :| 0 <= k < |buckets| && b in buckets[k];
    var j :| 0 <= j < |buckets[i]| && buckets[i][j] == a;
    var l :| 0 <= l < |buckets[k]| && buckets[k][l] == b;
    assert ChainOk(memory, buckets[i], i, |buckets|) && ChainOk(memory, buckets[k], k, |buckets|);
  }

  /** Memory may change as long as keys and hashes stay. */
  ghost predicate KeysKept(memory: Memory, memory': Memory, ids: set<Address>) {
    forall a :: a in ids && a in memory ==> a in memory' && memory'[a].key == memory[a].key && memory'[a].hash == memory[a].hash
  }

  lemma TableKept(memory: Memory, memory': Memory, buckets: seq<seq<Address>>, ids: set<Address>)
    requires TableOk(memory, buckets, ids) && KeysKept(memory, memory', ids)
    ensures TableOk(memory', buckets, ids)
  {
    forall i | 0 <= i < |buckets| ensures ChainOk(memory', buckets[i], i, |buckets|) {
      var chain := buckets[i];
      assert ChainOk(memory, chain, i, |buckets|);
      forall j | 0 <= j < |chain| ensures chain[j] in ids && chain[j] in memory' && memory'[chain[j]].key == memory[chain[j]].key && memory'[chain[j]].hash == memory[chain[j]].hash {
        assert chain[j] in chain && InTable(buckets, chain[j]);
      }
    }
  }

  /** Table lengths are powers of two: masking a hash with the length less one is a remainder. */
  predicate PowerOfTwo(n: nat) {
    n == 1 || (n > 1 && n % 2 == 0 && PowerOfTwo(n / 2))
  }

  class HandleTable {
    var elems: nat
    var buckets: seq<seq<Address>>
    ghost var ids: set<Address>

    ghost predicate Valid(memory: Memory)
      reads this
    {
      TableOk(memory, buckets, ids) && elems == |ids| && PowerOfTwo(|buckets|)
    }

    constructor ()
      ensures ids == {} && forall memory :: Valid(memory)
    {
      elems := 0;
      buckets := [[], [], [], []];
      ids := {};
      assert PowerOfTwo(1) && PowerOfTwo(2) && PowerOfTwo(4);
    }

    /** Where the key is in its chain, or where it would be appended. */
    method FindPointer(memory: Memory, key: seq<byte>, hash: nat) returns (i: nat, p: nat)
      requires Valid(memory)
      ensures i == hash % |buckets| && i < |buckets| && p <= |buckets[i]|
      ensures p < |buckets[i]| ==> buckets[i][p] in memory && Matches(memory[buckets[i][p]], key, hash)
      ensures forall j :: 0 <= j < p ==> buckets[i][j] in memory && !Matches(memory[buckets[i][j]], key, hash)
    {
      i := hash % |buckets|;
      p := 0;
      assert ChainOk(memory, buckets[i], i, |buckets|);
      while p < |buckets[i]| && !Matches(memory[buckets[i][p]], key, hash)
        invariant p <= |buckets[i]|
        invariant forall j :: 0 <= j < p ==> !Matches(memory[buckets[i][j]], key, hash)
      {
        p := p + 1;
      }
    }

    /** Nothing found in its chain, nothing anywhere. */
    lemma NotThere(memory: Memory, key: seq<byte>, hash: nat)
      requires Valid(memory)
      requires forall a :: a in buckets[hash % |buckets|] && a in memory ==> !Matches(memory[a], key, hash)
      ensures forall a :: a in ids ==> a in memory && !Matches(memory[a], key, hash)
    {
      forall a | a in ids ensures a in memory && !Matches(memory[a], key, hash) {
        var i :| 0 <= i < |buckets| && a in buckets[i];
        var j :| 0 <= j < |buckets[i]| && buckets[i][j] == a;
        assert ChainOk(memory, buckets[i], i, |buckets|);
      }
    }

    method Lookup(memory: Memory, key: seq<byte>, hash: nat) returns (found: Option<Address>)
      requires Valid(memory)
      ensures found.Some? ==> found.value in ids && found.value in memory && Matches(memory[found.value], key, hash)
      ensures found == None ==> forall a :: a in ids ==> a in memory && !Matches(memory[a], key, hash)
    {
      var i, p := FindPointer(memory, key, hash);
      if p < |buckets[i]| {
        assert buckets[i][p] in buckets[i] && InTable(buckets, buckets[i][p]);
        return Some(buckets[i][p]);
      }
      NotThere(memory, key, hash);
      return None;
    }

    /** Takes a handle out of the table by its key. */
    method Remove(memory: Memory, key: seq<byte>, hash: nat) returns (removed: Option<Address>)
      requires Valid(memory)
      modifies this
      ensures Valid(memory)
      ensures removed.Some? ==> removed.value in old(ids) && removed.value in memory && Matches(memory[removed.value], key, hash) && ids == old(ids) - {removed.value}
      ensures removed == None ==> ids == old(ids) && forall a :: a in ids ==> a in memory && !Matches(memory[a], key, hash)
    {
      var i, p := FindPointer(memory, key, hash);
      if p == |buckets[i]| {
        NotThere(memory, key, hash);
        return None;
      }
      var a := buckets[i][p];
      removed := Some(a);
      assert ChainOk(memory, buckets[i], i, |buckets|);
      OnlyThere(memory, buckets, ids, i, p, i, p);
      hide TableOk, ChainOk;
      ChainWithout(memory, buckets[i], p, i, |buckets|);
      ChainChanged(memory, buckets, ids, i, buckets[i][..p] + buckets[i][p + 1..], {a}, {});
      buckets := buckets[i := buckets[i][..p] + buckets[i][p + 1..]];
      ids := ids - {a} + {};
      elems := elems - 1;
    }

    /** Puts a handle in; the handle that had its key, if any, loses its place and is returned. */
    method Insert(memory: Memory, a: Address) returns (replaced: Option<Address>)
      requires Valid(memory) && a in memory && a !in ids
      modifies this
      ensures Valid(memory)
      ensures replaced.Some? ==> replaced.value in old(ids) && replaced.value in memory && Matches(memory[replaced.value], memory[a].key, memory[a].hash) && ids == old(ids) - {replaced.value} + {a}
      ensures replaced == None ==> ids == old(ids) + {a} && forall b :: b in old(ids) ==> b in memory && !Matches(memory[b], memory[a].key, memory[a].hash)
    {
      hide TableOk, ChainOk, PowerOfTwo;
      var i, p := FindPointer(memory, memory[a].key, memory[a].hash);
      BucketOk(memory, buckets, ids, i, a);
      if p < |buckets[i]| {
        var b := buckets[i][p];
        replaced := Some(b);
        OnlyThere(memory, buckets, ids, i, p, i, p);
        var chain: seq<Address> := buckets[i][p := a];
        ChainReplaced(memory, buckets[i], p, i, |buckets|, a);
        ChainChanged(memory, buckets, ids, i, chain, {b}, {a});
        buckets := buckets[i := chain];
        ids := ids - {b} + {a};
      } else {
        replaced := None;
        NotThere(memory, memory[a].key, memory[a].hash);
        ChainAppended(memory, buckets[i], i, |buckets|, a);
        ChainChanged(memory, buckets, ids, i, buckets[i] + [a], {}, {a});
        buckets := buckets[i := buckets[i] + [a]];
        ids := ids - {} + {a};
        elems := elems + 1;
        if elems > |buckets| {
          Resize(memory);
        }
      }
    }

    /** Moves every handle to a table of the size that fits. */
    method Resize(memory: Memory)
      requires Valid(memory)
      modifies this`buckets
      ensures Valid(memory)
    {
      var newLength := 4;
      while newLength < elems
        invariant PowerOfTwo(newLength)
      {
        newLength := newLength * 2;
      }
      var list := buckets;
      var newBuckets: seq<seq<Address>> := seq(newLength, _ => []);
      ghost var moved: set<Address> := {};
      for i := 0 to |list|
        invariant TableOk(memory, newBuckets, moved) && |newBuckets| == newLength
        invariant forall a :: a in moved <==> Passed(list, i, 0, a)
      {
        for j := 0 to |list[i]|
          invariant TableOk(memory, newBuckets, moved) && |newBuckets| == newLength
          invariant forall a :: a in moved <==> Passed(list, i, j, a)
        {
          var a := list[i][j];
          NotPassed(memory, list, ids, i, j, moved);
          var b := memory[a].hash % newLength;
          PushFront(memory, newBuckets, moved, a);
          newBuckets := newBuckets[b := [a] + newBuckets[b]];
          moved := moved + {a};
          assert list[i][..j + 1] == list[i][..j] + [a];
        }
        assert list[i][..|list[i]|] == list[i];
      }
      assert moved == ids;
      buckets := newBuckets;
    }
  }

  /** Already moved when the move has come to place `j` of bucket `i`. */
  ghost predicate Passed(buckets: seq<seq<Address>>, i: nat, j: nat, a: Address)
    requires i <= |buckets| && (i < |buckets| ==> j <= |buckets[i]|)
  {
    (exists k :: 0 <= k < i && a in buckets[k]) || (i < |buckets| && a in buckets[i][..j])
  }

  /** The next handle has not been moved, and has a key none of the moved ones has. */
  lemma NotPassed(memory: Memory, buckets: seq<seq<Address>>, ids: set<Address>, i: nat, j: nat, moved: set<Address>)
    requires TableOk(memory, buckets, ids) && i < |buckets| && j < |buckets[i]|
    requires forall a :: a in moved <==> Passed(buckets, i, j, a)
    ensures buckets[i][j] in memory && buckets[i][j] !in moved
    ensures forall m :: m in moved ==> m in memory && !Matches(memory[m], memory[buckets[i][j]].key, memory[buckets[i][j]].hash)
  {
    var a := buckets[i][j];
    OnlyThere(memory, buckets, ids, i, j, i, j);
    forall m | m in moved ensures m in ids && m != a {
      var k: nat, l: nat :| k < |buckets| && l < |buckets[k]| && buckets[k][l] == m && (k < i || (k == i && l < j));
      OnlyThere(memory, buckets, ids, k, l, i, j);
    }
    OneHandle(memory, buckets, ids, a, a);
    hide TableOk;
    forall m | m in moved ensures m in memory && !Matches(memory[m], memory[a].key, memory[a].hash) {
      OneHandle(memory, buckets, ids, m, a);
    }
  }

  lemma PushFront(memory: Memory, buckets: seq<seq<Address>>, ids: set<Address>, a: Address)
    requires TableOk(memory, buckets, ids) && a in memory && a !in ids
    requires forall m :: m in ids ==> m in memory && !Matches(memory[m], memory[a].key, memory[a].hash)
    ensures var b := memory[a].hash % |buckets|; TableOk(memory, buckets[b := [a] + buckets[b]], ids + {a})
  {
    var b := memory[a].hash % |buckets|;
    var chain := buckets[b];
    assert ChainOk(memory, chain, b, |buckets|);
    forall j | 0 <= j < |chain| ensures chain[j] in ids {
      assert InTable(buckets, chain[j]);
    }
    assert ChainOk(memory, [a] + chain, b, |buckets|);
    ChainChanged(memory, buckets, ids, b, [a] + chain, {}, {a});
    assert ids - {} + {a} == ids + {a};
  }

  lemma BucketOk(memory: Memory, buckets: seq<seq<Address>>, ids: set<Address>, i: nat, a: Address)
    requires TableOk(memory, buckets, ids) && i < |buckets| && a !in ids
    ensures ChainOk(memory, buckets[i], i, |buckets|) && a !in buckets[i]
  {
    var hint := InTable(buckets, a);
  }

  lemma ChainAppended(memory: Memory, chain: seq<Address>, i: nat, length: nat, a: Address)
    requires ChainOk(memory, chain, i, length) && a in memory && memory[a].hash % length == i
    requires forall j :: 0 <= j < |chain| ==> chain[j] in memory && !Matches(memory[chain[j]], memory[a].key, memory[a].hash)
    ensures ChainOk(memory, chain + [a], i, length)
  {
  }

  lemma ChainReplaced(memory: Memory, chain: seq<Address>, p: nat, i: nat, length: nat, a: Address)
    requires ChainOk(memory, chain, i, length) && p < |chain| && a in memory && a !in chain
    requires Matches(memory[chain[p]], memory[a].key, memory[a].hash)
    ensures ChainOk(memory, chain[p := a], i, length)
    ensures forall b :: b in chain[p := a] <==> (b in chain && b != chain[p]) || b == a
  {
    var more := chain[p := a];
    forall b ensures b in more <==> (b in chain && b != chain[p]) || b == a {
      if b in more {
        var j :| 0 <= j < |more| && more[j] == b;
      }
      if b in chain && b != chain[p] {
        var j :| 0 <= j < |chain| && chain[j] == b;
        assert more[j] == b;
      }
      assert more[p] == a;
    }
  }

  lemma OnlyThere(memory: Memory, buckets: seq<seq<Address>>, ids: set<Address>, i: nat, p: nat, k: nat, j: nat)
    requires TableOk(memory, buckets, ids) && i < |buckets| && p < |buckets[i]| && k < |buckets| && j < |buckets[k]|
    ensures buckets[i][p] == buckets[k][j] ==> k == i && j == p
    ensures buckets[i][p] in ids
  {
    assert ChainOk(memory, buckets[i], i, |buckets|) && ChainOk(memory, buckets[k], k, |buckets|);
    assert buckets[i][p] in buckets[i] && InTable(buckets, buckets[i][p]);
  }

  lemma ChainWithout(memory: Memory, chain: seq<Address>, p: nat, i: nat, length: nat)
    requires ChainOk(memory, chain, i, length) && p < |chain|
    ensures ChainOk(memory, chain[..p] + chain[p + 1..], i, length)
    ensures forall b :: b in chain[..p] + chain[p + 1..] <==> b in chain && b != chain[p]
  {
    var rest := chain[..p] + chain[p + 1..];
    forall b ensures b in rest <==> b in chain && b != chain[p] {
      if b in rest {
        var j :| 0 <= j < |rest| && rest[j] == b;
        assert b == chain[if j < p then j else j + 1];
      }
      if b in chain && b != chain[p] {
        var j :| 0 <= j < |chain| && chain[j] == b;
        assert rest[if j < p then j else j - 1] == b;
      }
    }
  }

  /** Changing one chain changes the table by what the chain gains and loses. */
  lemma ChainChanged(memory: Memory, buckets: seq<seq<Address>>, ids: set<Address>, i: nat, chain: seq<Address>, gone: set<Address>, come: set<Address>)
    requires TableOk(memory, buckets, ids) && i < |buckets| && ChainOk(memory, chain, i, |buckets|)
    requires forall b :: b in chain <==> (b in buckets[i] && b !in gone) || b in come
    requires forall b :: b in gone ==> b in buckets[i] && b !in come
    ensures TableOk(memory, buckets[i := chain], ids - gone + come)
  {
    var more := buckets[i := chain];
    forall k | 0 <= k < |more| ensures ChainOk(memory, more[k], k, |more|) {
      assert ChainOk(memory, buckets[k], k, |buckets|);
    }
    forall b ensures b in ids - gone + come <==> InTable(more, b) {
      if InTable(more, b) {
        var k: nat :| k < |more| && b in more[k];
        SameBucket(memory, buckets, i, k, b);
        assert k != i ==> InTable(buckets, b);
        assert b in buckets[i] ==> InTable(buckets, b);
      }
      if b in come {
        assert b in more[i];
      }
      if b in ids && b !in gone {
        var k :| 0 <= k < |buckets| && b in buckets[k];
        assert b in more[k];
      }
    }
  }

  lemma SameBucket(memory: Memory, buckets: seq<seq<Address>>, i: nat, k: nat, b: Address)
    requires i < |buckets| && k < |buckets| && ChainOk(memory, buckets[i], i, |buckets|) && ChainOk(memory, buckets[k], k, |buckets|)
    ensures b in buckets[i] && b in buckets[k] ==> k == i
  {
    if b in buckets[i] && b in buckets[k] {
      var j :| 0 <= j < |buckets[i]| && buckets[i][j] == b;
      var l :| 0 <= l < |buckets[k]| && buckets[k][l] == b;
    }
  }
}
