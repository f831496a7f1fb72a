/** One shard of the block cache (LRUCache in util/cache.cc). */
module Caches {
  import opened Format
  import opened HandleTables

  /** What a shard remembers besides its hash table.  `held` counts the handles clients have not
      released, `freed` lists the addresses whose deleter ran. */
  datatype Shard = Shard(memory: Memory, lru: seq<Address>, inUse: seq<Address>, usage: nat, next: nat, held: map<Address, nat>, freed: seq<Address>)

  ghost predicate NoDuplicates(s: seq<Address>) {
    forall i, j :: 0 <= i < j < |s| ==> s[i] != s[j]
  }

  /** LRU_Remove: unlinks an entry from the list it is on. */
  function Without(s: seq<Address>, a: Address): seq<Address> {
    if s == [] then [] else if s[0] == a then s[1..] else [s[0]] + Without(s[1..], a)
  }

  function Charge(memory: Memory, s: seq<Address>): nat
    requires forall a :: a in s ==> a in memory
  {
    if s == [] then 0 else memory[s[0]].charge + Charge(memory, s[1..])
  }

  lemma {:induction false} WithoutMembers(s: seq<Address>, a: Address)
    requires NoDuplicates(s)
    ensures NoDuplicates(Without(s, a)) && forall b :: b in Without(s, a) <==> b in s && b != a
    decreases |s|
  {
    if s != [] {
      assert s == [s[0]] + s[1..];
      if s[0] == a {
        assert a !in s[1..];
      } else {
        WithoutMembers(s[1..], a);
        assert s[0] !in s[1..];
      }
    }
  }

  /** The list without one of its members, the others in their order. */
  ghost predicate TakenOut(s: seq<Address>, a: Address, t: seq<Address>) {
    exists i :: 0 <= i < |s| && s[i] == a && t == s[..i] + s[i + 1..]
  }

  lemma {:induction false} WithoutIs(s: seq<Address>, a: Address)
    requires a in s
    ensures TakenOut(s, a, Without(s, a))
    decreases |s|
  {
    if s[0] == a {
      assert s[..0] + s[1..] == s[1..];
    } else {
      var rest := s[1..];
      WithoutIs(rest, a);
      var i: nat :| i < |rest| && rest[i] == a && Without(rest, a) == rest[..i] + rest[i + 1..];
      OneFurther(s, i);
      assert s[i + 1] == a;
    }
  }

  lemma OneFurther(s: seq<Address>, i: nat)
    requires i + 1 < |s|
    ensures s[..i + 1] + s[i + 2..] == [s[0]] + (s[1..][..i] + s[1..][i + 1..])
  {
  }

  lemma {:induction false} ChargeWithout(memory: Memory, s: seq<Address>, a: Address)
    requires NoDuplicates(s) && a in s && forall b :: b in s ==> b in memory
    ensures forall b :: b in Without(s, a) ==> b in memory
    ensures Charge(memory, s) == Charge(memory, Without(s, a)) + memory[a].charge
    decreases |s|
  {
    WithoutMembers(s, a);
    if s[0] != a {
      ChargeWithout(memory, s[1..], a);
      assert Without(s, a)[1..] == Without(s[1..], a);
    }
  }

  lemma {:induction false} ChargeAppend(memory: Memory, s: seq<Address>, a: Address)
    requires a in memory && forall b :: b in s ==> b in memory
    ensures forall b :: b in s + [a] ==> b in memory
    ensures Charge(memory, s + [a]) == Charge(memory, s) + memory[a].charge
    decreases |s|
  {
    if s != [] {
      assert (s + [a])[1..] == s[1..] + [a];
      ChargeAppend(memory, s[1..], a);
    } else {
      assert [a][1..] == [];
    }
  }

  lemma {:induction false} ChargeKept(memory: Memory, memory': Memory, s: seq<Address>)
    requires forall b :: b in s ==> b in memory && b in memory' && memory'[b].charge == memory[b].charge
    ensures Charge(memory', s) == Charge(memory, s)
    decreases |s|
  {
    if s != [] {
      ChargeKept(memory, memory', s[1..]);
    }
  }

  lemma WithoutAbsent(s: seq<Address>, a: Address)
    requires a !in s
    ensures Without(s, a) == s
  {
    if s != [] {
      WithoutAbsent(s[1..], a);
    }
  }

  /** References: the handles clients hold, and the cache's own; `extra` has one more, about to go. */
  ghost predicate RefsOk(s: Shard, extra: Option<Address>) {
    && s.held.Keys == s.memory.Keys
    && (forall a :: a in s.memory ==> a < s.next && s.memory[a].refs > 0)
    && (forall a | a in s.memory :: s.memory[a].refs == s.held[a] + (if s.memory[a].inCache then 1 else 0) + if extra == Some(a) then 1 else 0)
  }

  /** A cached entry is on one list: the LRU list exactly when only the cache refers to it. */
  ghost predicate ListsOk(s: Shard) {
    && NoDuplicates(s.lru) && NoDuplicates(s.inUse)
    && (forall a :: a in s.lru <==> a in s.memory && s.memory[a].inCache && s.memory[a].refs == 1)
    && (forall a :: a in s.inUse <==> a in s.memory && s.memory[a].inCache && s.memory[a].refs >= 2)
  }

  ghost predicate UsageOk(s: Shard)
    requires ListsOk(s)
  {
    s.usage == Charge(s.memory, s.lru) + Charge(s.memory, s.inUse)
  }

  /** Each entry ever made is there or was freed once, never both. */
  ghost predicate FreedOk(s: Shard) {
    NoDuplicates(s.freed) && forall a: Address :: a in s.freed <==> a < s.next && a !in s.memory
  }

  ghost predicate ShardOk(s: Shard, extra: Option<Address>) {
    RefsOk(s, extra) && ListsOk(s) && UsageOk(s) && FreedOk(s)
  }

  /** LRUCache::Ref. */
  function AddRef(s: Shard, e: Address): Shard
    requires e in s.memory
  {
    var h := s.memory[e];
    var moved := h.refs == 1 && h.inCache;
    s.(memory := s.memory[e := h.(refs := h.refs + 1)],
       lru := if moved then Without(s.lru, e) else s.lru,
       inUse := if moved then s.inUse + [e] else s.inUse)
  }

  /** LRUCache::Unref. */
  function DropRef(s: Shard, e: Address): Shard
    requires e in s.memory && s.memory[e].refs > 0
  {
    var h := s.memory[e];
    if h.refs == 1 then
      s.(memory := s.memory - {e}, held := s.held - {e}, freed := s.freed + [e])
    else
      var moved := h.inCache && h.refs == 2;
      s.(memory := s.memory[e := h.(refs := h.refs - 1)],
         inUse := if moved then Without(s.inUse, e) else s.inUse,
         lru := if moved then s.lru + [e] else s.lru)
  }

  lemma AddRefOk(s: Shard, e: Address)
    requires ShardOk(s, None) && e in s.memory
    ensures ShardOk(AddRef(s, e), Some(e))
  {
    hide ListsOk, UsageOk;
    AddRefLists(s, e);
    AddRefUsage(s, e);
  }

  lemma AddRefUsage(s: Shard, e: Address)
    requires ListsOk(s) && UsageOk(s) && e in s.memory && s.memory[e].refs > 0 && ListsOk(AddRef(s, e))
    ensures UsageOk(AddRef(s, e))
  {
    var t := AddRef(s, e);
    if s.memory[e].refs == 1 && s.memory[e].inCache {
      ChargeWithout(s.memory, s.lru, e);
      ChargeAppend(s.memory, s.inUse, e);
    }
    hide NoDuplicates;
    ChargeKept(s.memory, t.memory, t.lru);
    ChargeKept(s.memory, t.memory, t.inUse);
  }

  lemma AddRefLists(s: Shard, e: Address)
    requires ListsOk(s) && e in s.memory && s.memory[e].refs > 0
    ensures ListsOk(AddRef(s, e))
  {
    WithoutMembers(s.lru, e);
  }

  lemma DropRefLists(s: Shard, e: Address)
    requires ListsOk(s) && e in s.memory && s.memory[e].refs > 0 && (s.memory[e].inCache ==> s.memory[e].refs > 1)
    ensures ListsOk(DropRef(s, e))
  {
    WithoutMembers(s.inUse, e);
  }

  lemma DropRefFreed(s: Shard, e: Address)
    requires FreedOk(s) && e in s.memory && e < s.next && s.memory[e].refs > 0
    ensures FreedOk(DropRef(s, e))
  {
  }

  lemma DropRefUsage(s: Shard, e: Address)
    requires ListsOk(s) && UsageOk(s) && e in s.memory && s.memory[e].refs > 0 && ListsOk(DropRef(s, e))
    ensures UsageOk(DropRef(s, e))
  {
    var t := DropRef(s, e);
    if s.memory[e].inCache && s.memory[e].refs == 2 {
      ChargeWithout(s.memory, s.inUse, e);
      ChargeAppend(s.memory, s.lru, e);
    }
    hide NoDuplicates;
    ChargeKept(s.memory, t.memory, t.lru);
    ChargeKept(s.memory, t.memory, t.inUse);
  }

  lemma DropRefOk(s: Shard, e: Address)
    requires ShardOk(s, Some(e)) && e in s.memory
    ensures ShardOk(DropRef(s, e), None)
  {
    hide ListsOk, UsageOk, FreedOk;
    DropRefLists(s, e);
    DropRefUsage(s, e);
    DropRefFreed(s, e);
  }

  /** FinishErase, up to its Unref: the entry leaves its list and is charged for no more. */
  function Uncache(s: Shard, e: Address): Shard
    requires e in s.memory && s.usage >= s.memory[e].charge
  {
    s.(memory := s.memory[e := s.memory[e].(inCache := false)],
       lru := Without(s.lru, e), inUse := Without(s.inUse, e),
       usage := s.usage - s.memory[e].charge)
  }

  lemma UncacheOk(s: Shard, e: Address)
    requires ShardOk(s, None) && e in s.memory && s.memory[e].inCache
    ensures s.usage >= s.memory[e].charge && ShardOk(Uncache(s, e), Some(e))
  {
    UncacheUsage(s, e);
    hide ListsOk, UsageOk;
    UncacheLists(s, e);
  }

  lemma UncacheLists(s: Shard, e: Address)
    requires ListsOk(s) && e in s.memory && s.usage >= s.memory[e].charge
    ensures ListsOk(Uncache(s, e))
  {
    WithoutMembers(s.inUse, e);
    WithoutMembers(s.lru, e);
  }

  lemma UncacheUsage(s: Shard, e: Address)
    requires ListsOk(s) && UsageOk(s) && e in s.memory && s.memory[e].inCache && s.memory[e].refs > 0
    ensures s.usage >= s.memory[e].charge && ListsOk(Uncache(s, e)) && UsageOk(Uncache(s, e))
  {
    if s.memory[e].refs == 1 {
      ChargeWithout(s.memory, s.lru, e);
      WithoutAbsent(s.inUse, e);
    } else {
      ChargeWithout(s.memory, s.inUse, e);
      WithoutAbsent(s.lru, e);
    }
    UncacheLists(s, e);
    hide NoDuplicates;
    var t := Uncache(s, e);
    ChargeKept(s.memory, t.memory, t.lru);
    ChargeKept(s.memory, t.memory, t.inUse);
  }

  /** A new entry, held once by the client and, if there is a cache at all, by the cache. */
  function NewEntry(s: Shard, key: seq<byte>, hash: nat, value: nat, charge: nat, cached: bool): Shard {
    var h := Handle(key, hash, value, charge, cached, if cached then 2 else 1);
    s.(memory := s.memory[s.next := h], held := s.held[s.next := 1], next := s.next + 1,
       inUse := if cached then s.inUse + [s.next] else s.inUse,
       usage := if cached then s.usage + charge else s.usage)
  }

  lemma NewEntryOk(s: Shard, key: seq<byte>, hash: nat, value: nat, charge: nat, cached: bool)
    requires ShardOk(s, None)
    ensures ShardOk(NewEntry(s, key, hash, value, charge, cached), None)
  {
    var t := NewEntry(s, key, hash, value, charge, cached);
    assert s.next !in s.memory;
    NewEntryLists(s, key, hash, value, charge, cached);
    hide NoDuplicates;
    ChargeKept(s.memory, t.memory, s.lru);
    ChargeKept(s.memory, t.memory, s.inUse);
    if cached {
      ChargeAppend(t.memory, s.inUse, s.next);
    }
  }

  lemma NewEntryLists(s: Shard, key: seq<byte>, hash: nat, value: nat, charge: nat, cached: bool)
    requires ListsOk(s) && s.next !in s.memory
    ensures ListsOk(NewEntry(s, key, hash, value, charge, cached))
  {
  }

  function Give(s: Shard, e: Address): Shard
    requires e in s.held
  {
    s.(held := s.held[e := s.held[e] + 1])
  }

  function TakeBack(s: Shard, e: Address): Shard
    requires e in s.held && s.held[e] > 0
  {
    s.(held := s.held[e := s.held[e] - 1])
  }

  lemma GiveOk(s: Shard, e: Address)
    requires ShardOk(s, Some(e)) && e in s.memory
    ensures ShardOk(Give(s, e), None)
  {
    hide ListsOk, UsageOk, FreedOk;
    HeldIrrelevant(s, Give(s, e));
  }

  lemma TakeBackOk(s: Shard, e: Address)
    requires ShardOk(s, None) && e in s.memory && s.held[e] > 0
    ensures ShardOk(TakeBack(s, e), Some(e))
  {
    hide ListsOk, UsageOk, FreedOk;
    HeldIrrelevant(s, TakeBack(s, e));
  }

  lemma HeldIrrelevant(s: Shard, t: Shard)
    requires ListsOk(s) && UsageOk(s) && FreedOk(s) && t == s.(held := t.held)
    ensures ListsOk(t) && UsageOk(t) && FreedOk(t)
  {
  }

  /** The cached entries are those in the table. */
  ghost predicate CachedAre(memory: Memory, ids: set<Address>) {
    forall a :: a in ids <==> a in memory && memory[a].inCache
  }

  /** FinishErase. */
  ghost function Erased(s: Shard, e: Address): Shard
    requires e in s.memory && s.usage >= s.memory[e].charge && s.memory[e].refs > 0
  {
    DropRef(Uncache(s, e), e)
  }

  ghost predicate IsNew(s: Shard) {
    |s.memory| == 0 && |s.held| == 0 && s.lru == [] && s.inUse == [] && s.usage == 0 && s.freed == [] && s.next == 0
  }

  lemma NothingCached(s: Shard)
    requires IsNew(s)
    ensures ShardOk(s, None) && CachedAre(s.memory, {})
  {
    assert s.memory.Keys == {} && s.held.Keys == {};
    assert forall a :: a !in s.memory.Keys;
  }

  /** Dropping an uncached reference changes neither what is cached nor any key. */
  lemma DropKeeps(s: Shard, e: Address, ids: set<Address>)
    requires e in s.memory && s.memory[e].refs > 0 && !s.memory[e].inCache && CachedAre(s.memory, ids)
    ensures CachedAre(DropRef(s, e).memory, ids) && KeysKept(s.memory, DropRef(s, e).memory, ids)
  {
  }

  lemma RefKeeps(memory: Memory, e: Address, refs: nat, ids: set<Address>)
    requires e in memory && CachedAre(memory, ids)
    ensures CachedAre(memory[e := memory[e].(refs := refs)], ids) && KeysKept(memory, memory[e := memory[e].(refs := refs)], ids)
  {
  }

  lemma UncacheKeeps(s: Shard, e: Address, ids: set<Address>)
    requires e in s.memory && s.usage >= s.memory[e].charge && e !in ids && CachedAre(s.memory, ids + {e})
    ensures CachedAre(Uncache(s, e).memory, ids) && KeysKept(s.memory, Uncache(s, e).memory, ids)
  {
  }

  /** Everything a shard and its table promise together. */
  ghost predicate CacheOk(s: Shard, buckets: seq<seq<Address>>, ids: set<Address>) {
    ShardOk(s, None) && TableOk(s.memory, buckets, ids) && CachedAre(s.memory, ids)
  }

  lemma EraseOk(s: Shard, e: Address, buckets: seq<seq<Address>>, ids: set<Address>)
    requires ShardOk(s, None) && TableOk(s.memory, buckets, ids)
    requires e in s.memory && e !in ids && CachedAre(s.memory, ids + {e})
    ensures s.memory[e].refs > 0 && s.usage >= s.memory[e].charge
    ensures ShardOk(Uncache(s, e), Some(e)) && CacheOk(Erased(s, e), buckets, ids)
  {
    assert e in ids + {e} && s.memory[e].inCache && s.memory[e].refs > 0;
    hide ShardOk, Without, TableOk;
    UncacheOk(s, e);
    UncacheKeeps(s, e, ids);
    DropKeeps(Uncache(s, e), e, ids);
    DropRefOk(Uncache(s, e), e);
    hide CachedAre, KeysKept;
    TableKept(s.memory, Uncache(s, e).memory, buckets, ids);
    TableKept(Uncache(s, e).memory, Erased(s, e).memory, buckets, ids);
  }

  lemma LookupOk(s: Shard, e: Address, buckets: seq<seq<Address>>, ids: set<Address>)
    requires CacheOk(s, buckets, ids) && e in ids
    ensures e in s.memory && e in AddRef(s, e).held && ShardOk(AddRef(s, e), Some(e)) && CacheOk(Give(AddRef(s, e), e), buckets, ids)
  {
    assert e in s.memory && e in s.held;
    hide ShardOk, Without, TableOk;
    AddRefOk(s, e);
    GiveOk(AddRef(s, e), e);
    RefKeeps(s.memory, e, s.memory[e].refs + 1, ids);
    hide CachedAre, KeysKept;
    TableKept(s.memory, AddRef(s, e).memory, buckets, ids);
  }

  lemma ReleaseOk(s: Shard, e: Address, buckets: seq<seq<Address>>, ids: set<Address>)
    requires CacheOk(s, buckets, ids) && e in s.held && s.held[e] > 0
    ensures e in s.memory && s.memory[e].refs > 0
    ensures ShardOk(TakeBack(s, e), Some(e)) && CacheOk(DropRef(TakeBack(s, e), e), buckets, ids)
  {
    assert e in s.memory && s.memory[e].refs > 0;
    var t := TakeBack(s, e);
    TakeBackOk(s, e);
    ReleaseKeeps(t, e, ids);
    hide ShardOk, Without, TableOk;
    DropRefOk(t, e);
    hide CachedAre, KeysKept;
    TableKept(s.memory, DropRef(t, e).memory, buckets, ids);
  }

  // ----- what the operations do, told by the state before and after

  /** One more reference; an unused entry leaves the LRU list. */
  ghost predicate Taken(s: Shard, e: Address, t: Shard) {
    && e in s.memory && e in s.held
    && t.memory == s.memory[e := s.memory[e].(refs := s.memory[e].refs + 1)] && t.held == s.held[e := s.held[e] + 1]
    && t.usage == s.usage && t.next == s.next && t.freed == s.freed
    && (if s.memory[e].inCache && s.memory[e].refs == 1 then TakenOut(s.lru, e, t.lru) && t.inUse == s.inUse + [e] else t.lru == s.lru && t.inUse == s.inUse)
  }

  /** One reference less: the entry goes when it was the last, and becomes the newest of the LRU list
      when only the cache still refers to it. */
  ghost predicate Returned(s: Shard, e: Address, t: Shard) {
    && e in s.memory && s.memory[e].refs > 0 && e in s.held && s.held[e] > 0 && t.usage == s.usage && t.next == s.next
    && (if s.memory[e].refs == 1
        then t.memory == s.memory - {e} && t.held == s.held - {e} && t.freed == s.freed + [e]
        else t.memory == s.memory[e := s.memory[e].(refs := s.memory[e].refs - 1)] && t.held == s.held[e := s.held[e] - 1] && t.freed == s.freed)
    && (if s.memory[e].inCache && s.memory[e].refs == 2 then t.lru == s.lru + [e] && TakenOut(s.inUse, e, t.inUse) else t.lru == s.lru && t.inUse == s.inUse)
  }

  /** A cached entry leaves the cache; it stays in memory for the clients that hold it. */
  ghost predicate Removed(s: Shard, e: Address, t: Shard) {
    && e in s.memory && e in s.held && s.memory[e].inCache && s.memory[e].refs > 0 && t.usage + s.memory[e].charge == s.usage && t.next == s.next
    && (s.memory[e].refs == 1 ==>
        && t.memory == s.memory - {e} && t.held == s.held - {e} && t.freed == s.freed + [e]
        && TakenOut(s.lru, e, t.lru) && t.inUse == s.inUse)
    && (s.memory[e].refs != 1 ==>
        && t.memory == s.memory[e := s.memory[e].(inCache := false, refs := s.memory[e].refs - 1)] && t.held == s.held && t.freed == s.freed
        && TakenOut(s.inUse, e, t.inUse) && t.lru == s.lru)
  }

  /** An entry that its caller holds, and that the cache refers to if it caches at all. */
  ghost predicate Added(s: Shard, key: seq<byte>, hash: nat, value: nat, charge: nat, cached: bool, t: Shard) {
    && t.memory == s.memory[s.next := Handle(key, hash, value, charge, cached, if cached then 2 else 1)]
    && t.held == s.held[s.next := 1] && t.next == s.next + 1 && t.freed == s.freed && t.lru == s.lru
    && t.inUse == (if cached then s.inUse + [s.next] else s.inUse) && t.usage == (if cached then s.usage + charge else s.usage)
  }

  lemma TakenIs(s: Shard, e: Address)
    requires ShardOk(s, None) && e in s.memory
    ensures e in AddRef(s, e).held && Taken(s, e, Give(AddRef(s, e), e))
  {
    if s.memory[e].refs == 1 && s.memory[e].inCache {
      WithoutIs(s.lru, e);
    }
  }

  lemma ReturnedIs(s: Shard, e: Address)
    requires ShardOk(s, None) && e in s.held && s.held[e] > 0
    ensures e in s.memory && s.memory[e].refs > 0 && Returned(s, e, DropRef(TakeBack(s, e), e))
  {
    if s.memory[e].refs == 2 && s.memory[e].inCache {
      WithoutIs(s.inUse, e);
    }
    assert s.held[e := s.held[e] - 1] - {e} == s.held - {e};
  }

  lemma ErasedIs(s: Shard, e: Address)
    requires ShardOk(s, None) && e in s.memory && s.memory[e].inCache
    ensures s.usage >= s.memory[e].charge && s.memory[e].refs > 0 && Removed(s, e, Erased(s, e))
  {
    UncacheUsage(s, e);
    if s.memory[e].refs == 1 {
      assert e in s.lru && e !in s.inUse && e in s.held;
      hide ShardOk, ListsOk, UsageOk, RefsOk, FreedOk;
      ErasedUnused(s, e);
    } else {
      assert e in s.inUse && e !in s.lru && e in s.held;
      hide ShardOk, ListsOk, UsageOk, RefsOk, FreedOk;
      ErasedUsed(s, e);
    }
  }

  lemma ErasedUnused(s: Shard, e: Address)
    requires e in s.memory && e in s.held && s.memory[e].inCache && s.memory[e].refs == 1 && s.usage >= s.memory[e].charge
    requires e in s.lru && e !in s.inUse
    ensures Removed(s, e, Erased(s, e))
  {
    WithoutIs(s.lru, e);
    WithoutAbsent(s.inUse, e);
    hide Without, TakenOut;
    assert s.memory[e := s.memory[e].(inCache := false)] - {e} == s.memory - {e};
  }

  lemma ErasedUsed(s: Shard, e: Address)
    requires e in s.memory && e in s.held && s.memory[e].inCache && s.memory[e].refs > 1 && s.usage >= s.memory[e].charge
    requires e in s.inUse && e !in s.lru
    ensures Removed(s, e, Erased(s, e))
  {
    WithoutIs(s.inUse, e);
    WithoutAbsent(s.lru, e);
    hide Without, TakenOut;
  }

  // ----- least recently used

  /** The LRU list runs from the entry whose last release is longest ago to the latest. */
  ghost predicate ByAge(lru: seq<Address>, released: map<Address, nat>, clock: nat) {
    && (forall a :: a in lru ==> a in released && released[a] <= clock)
    && (forall i, j | 0 <= i < j < |lru| && lru[i] in released && lru[j] in released :: released[lru[i]] < released[lru[j]])
  }

  lemma ByAgeWithout(lru: seq<Address>, a: Address, rest: seq<Address>, released: map<Address, nat>, clock: nat)
    requires ByAge(lru, released, clock) && TakenOut(lru, a, rest)
    ensures ByAge(rest, released, clock)
  {
  }

  lemma RemovedByAge(s: Shard, e: Address, t: Shard, released: map<Address, nat>, clock: nat)
    requires Removed(s, e, t) && ByAge(s.lru, released, clock)
    ensures ByAge(t.lru, released, clock)
  {
    if s.memory[e].refs == 1 {
      ByAgeWithout(s.lru, e, t.lru, released, clock);
    }
  }

  lemma EraseAll(s: Shard, e: Address, buckets: seq<seq<Address>>, ids: set<Address>, released: map<Address, nat>, clock: nat)
    requires ShardOk(s, None) && TableOk(s.memory, buckets, ids) && ByAge(s.lru, released, clock)
    requires e in s.memory && e !in ids && CachedAre(s.memory, ids + {e})
    ensures s.memory[e].refs > 0 && s.usage >= s.memory[e].charge
    ensures ShardOk(Uncache(s, e), Some(e)) && CacheOk(Erased(s, e), buckets, ids)
    ensures Removed(s, e, Erased(s, e)) && ByAge(Erased(s, e).lru, released, clock)
  {
    CachedIn(s.memory, ids + {e}, e);
    hide *;
    EraseOk(s, e, buckets, ids);
    ErasedIs(s, e);
    RemovedByAge(s, e, Erased(s, e), released, clock);
  }

  lemma TakenByAge(s: Shard, e: Address, t: Shard, released: map<Address, nat>, clock: nat)
    requires Taken(s, e, t) && ByAge(s.lru, released, clock)
    ensures ByAge(t.lru, released, clock)
  {
    hide ByAge;
    if s.memory[e].inCache && s.memory[e].refs == 1 {
      ByAgeWithout(s.lru, e, t.lru, released, clock);
    }
  }

  /** A release makes its entry the latest, on the list or not. */
  lemma ReturnedByAge(s: Shard, e: Address, t: Shard, released: map<Address, nat>, clock: nat)
    requires ShardOk(s, None) && Returned(s, e, t) && ByAge(s.lru, released, clock)
    ensures ByAge(t.lru, released[e := clock + 1], clock + 1)
  {
    hide ByAge;
    assert e !in s.lru;
    ByAgeWith(s.lru, e, released, clock);
    ByAgeLater(s.lru, e, released, clock);
  }

  lemma ByAgeWith(lru: seq<Address>, a: Address, released: map<Address, nat>, clock: nat)
    requires ByAge(lru, released, clock) && a !in lru
    ensures ByAge(lru + [a], released[a := clock + 1], clock + 1)
  {
  }

  lemma ByAgeLater(lru: seq<Address>, a: Address, released: map<Address, nat>, clock: nat)
    requires ByAge(lru, released, clock) && a !in lru
    ensures ByAge(lru, released[a := clock + 1], clock + 1)
  {
  }

  lemma ByAgeRest(lru: seq<Address>, n: nat, released: map<Address, nat>, clock: nat)
    requires ByAge(lru, released, clock) && n <= |lru|
    ensures ByAge(lru[n..], released, clock)
    ensures forall a, b :: a in lru[..n] && b in lru[n..] ==> a in released && b in released && released[a] < released[b]
  {
  }

  class LRUCache {
    const capacity: nat
    const table: HandleTable
    var usage: nat
    var lru: seq<Address>
    var inUse: seq<Address>
    var memory: Memory
    var next: nat
    ghost var held: map<Address, nat>
    ghost var freed: seq<Address>
    /** The number of releases so far, and for each entry its last one. */
    ghost var clock: nat
    ghost var released: map<Address, nat>

    ghost function St(): Shard
      reads this
    {
      Shard(memory, lru, inUse, usage, next, held, freed)
    }

    ghost predicate Valid()
      reads this, table
    {
      CacheOk(St(), table.buckets, table.ids) && table.Valid(memory) && ByAge(lru, released, clock)
    }

    constructor (capacity: nat)
      ensures Valid() && fresh(table) && this.capacity == capacity && memory == map[] && freed == []
    {
      hide ShardOk, TableOk;
      this.capacity := capacity;
      table := new HandleTable();
      usage, lru, inUse, memory, next, held, freed := 0, [], [], map[], 0, map[], [];
      clock, released := 0, map[];
      new;
      NothingCached(St());
      assert table.Valid(memory);
      CacheWhole(St(), table.buckets, table.ids);
    }

    method Ref(e: Address)
      requires ShardOk(St(), None) && e in memory
      modifies this`memory, this`lru, this`inUse
      ensures St() == AddRef(old(St()), e) && ShardOk(St(), Some(e))
    {
      AddRefOk(St(), e);
      hide ShardOk, Without;
      var h := memory[e];
      if h.refs == 1 && h.inCache {
        lru := Without(lru, e);
        inUse := inUse + [e];
      }
      memory := memory[e := h.(refs := h.refs + 1)];
    }

    method Unref(e: Address)
      requires ShardOk(St(), Some(e)) && e in memory
      modifies this`memory, this`lru, this`inUse, this`held, this`freed
      ensures old(memory)[e].refs > 0 && St() == DropRef(old(St()), e) && ShardOk(St(), None)
    {
      assert memory[e].refs > 0;
      DropRefOk(St(), e);
      hide ShardOk, Without;
      var h := memory[e];
      if h.refs == 1 {
        memory := memory - {e};
        held := held - {e};
        freed := freed + [e];
      } else {
        if h.inCache && h.refs == 2 {
          inUse := Without(inUse, e);
          lru := lru + [e];
        }
        memory := memory[e := h.(refs := h.refs - 1)];
      }
    }

    /** Finishes the removal of an entry that has left the hash table. */
    method FinishErase(e: Address)
      requires ShardOk(St(), None) && table.Valid(memory) && e in memory && e !in table.ids && CachedAre(memory, table.ids + {e})
      requires ByAge(lru, released, clock)
      modifies this`memory, this`lru, this`inUse, this`usage, this`held, this`freed
      ensures Valid() && old(usage >= memory[e].charge && memory[e].refs > 0) && St() == Erased(old(St()), e) && Removed(old(St()), e, St())
    {
      hide ShardOk, Without, TableOk, CachedAre, CacheOk, PowerOfTwo, DropRef, ByAge, Removed, KeysKept;
      ghost var s := St();
      EraseAll(s, e, table.buckets, table.ids, released, clock);
      TableKeptBy(Erased(s, e), table.buckets, table.ids);
      lru, inUse := Without(lru, e), Without(inUse, e);
      usage := usage - memory[e].charge;
      memory := memory[e := memory[e].(inCache := false)];
      assert St() == Uncache(s, e);
      Unref(e);
    }

    /** Hands out the cached entry of a key, if there is one. */
    method Lookup(key: seq<byte>, hash: nat) returns (found: Option<Address>)
      requires Valid()
      modifies this`memory, this`lru, this`inUse, this`held
      ensures Valid()
      ensures found == None ==> St() == old(St()) && NoneMatches(memory, key, hash)
      ensures found.Some? ==> found.value in old(memory) && old(memory)[found.value].inCache && Matches(old(memory)[found.value], key, hash)
      ensures found.Some? ==> Taken(old(St()), found.value, St())
    {
      hide ShardOk, Without, TableOk, CachedAre, CacheOk, PowerOfTwo, Matches, AddRef, NoneMatches, ByAge, Taken;
      ghost var s := St();
      CacheParts(s, table.buckets, table.ids);
      found := table.Lookup(memory, key, hash);
      if found.Some? {
        var e := found.value;
        LookupOk(s, e, table.buckets, table.ids);
        TakenIs(s, e);
        TakenByAge(s, e, Give(AddRef(s, e), e), released, clock);
        CachedIn(memory, table.ids, e);
        TableKeptBy(Give(AddRef(s, e), e), table.buckets, table.ids);
        Ref(e);
        held := held[e := held[e] + 1];
        assert St() == Give(AddRef(s, e), e);
      } else {
        NoMatchAtAll(memory, table.ids, key, hash);
      }
    }

    /** A client gives a handle back. */
    method Release(e: Address)
      requires Valid() && e in held && held[e] > 0
      modifies this`memory, this`lru, this`inUse, this`held, this`freed, this`clock, this`released
      ensures Valid() && Returned(old(St()), e, St())
      ensures clock == old(clock) + 1 && released == old(released)[e := clock]
    {
      hide ShardOk, Without, TableOk, CachedAre, CacheOk, PowerOfTwo, DropRef, ByAge, Returned;
      ghost var s := St();
      CacheParts(s, table.buckets, table.ids);
      ReturnedIs(s, e);
      ReturnedByAge(s, e, DropRef(TakeBack(s, e), e), released, clock);
      clock, released := clock + 1, released[e := clock + 1];
      ReleaseOk(s, e, table.buckets, table.ids);
      TableKeptBy(DropRef(TakeBack(s, e), e), table.buckets, table.ids);
      held := held[e := held[e] - 1];
      assert St() == TakeBack(s, e);
      Unref(e);
    }

    /** Removes the entry of a key from the cache; clients that hold it keep it. */
    method Erase(key: seq<byte>, hash: nat) returns (erased: Option<Address>)
      requires Valid()
      modifies this`memory, this`lru, this`inUse, this`usage, this`held, this`freed, table
      ensures Valid()
      ensures erased == None ==> St() == old(St()) && NoneMatches(memory, key, hash)
      ensures erased.Some? ==> erased.value in old(memory) && old(memory)[erased.value].inCache && Matches(old(memory)[erased.value], key, hash)
      ensures erased.Some? ==> Removed(old(St()), erased.value, St())
    {
      hide ShardOk, Matches, TableOk, Erased, PowerOfTwo, CachedAre, NoneMatches, CacheOk, ByAge, Removed;
      ghost var ids := table.ids;
      CacheParts(St(), table.buckets, ids);
      erased := table.Remove(memory, key, hash);
      if erased.Some? {
        CachedIn(memory, ids, erased.value);
        assert ids == table.ids + {erased.value};
        FinishErase(erased.value);
      } else {
        NoMatchAtAll(memory, table.ids, key, hash);
        CacheWhole(St(), table.buckets, table.ids);
      }
    }

    /** Adds an entry, which the caller holds; an entry with the same key leaves the cache, and then
        the oldest unused ones, as long as the cache is over its capacity. */
    method Insert(key: seq<byte>, hash: nat, value: nat, charge: nat) returns (e: Address, ghost replaced: Option<Address>, ghost evicted: nat)
      requires Valid()
      modifies this, table
      ensures Valid() && e == old(next)
      ensures usage <= capacity || lru == []
      ensures Replaces(old(St()), key, hash, capacity, replaced)
      ensures exists t :: Inserted(old(St()), key, hash, value, charge, capacity, replaced, t) && EvictedOldest(t, St(), evicted, capacity, released)
      ensures e in memory && memory[e] == Handle(key, hash, value, charge, capacity > 0, if capacity > 0 then 2 else 1)
      ensures capacity > 0 ==> forall a :: a in memory && memory[a].inCache && Matches(memory[a], key, hash) ==> a == e
    {
      hide ShardOk, Matches, TableOk, Erased, PowerOfTwo, CachedAre, CacheOk, Evicted, NoneMatches, Charge, EvictedSome, Inserted, Replaces, NewEntry, ByAge, LongestUnused, ListsOk;
      ghost var before := St();
      e, replaced := AddEntry(key, hash, value, charge);
      ghost var s := St();
      InsertedHere(before, key, hash, value, charge, capacity, replaced, s);
      ListsNow(s, table.buckets, table.ids);
      ghost var age := clock;
      evicted := 0;
      EvictedNone(s, capacity);
      while usage > capacity && lru != []
        invariant Valid() && EvictedSome(s, St(), evicted, capacity) && clock == age && released == old(released)
        decreases |lru|
      {
        ghost var t := St();
        EvictOldest();
        EvictedMore(s, t, St(), evicted, capacity);
        evicted := evicted + 1;
      }
      EvictedKeeps(s, St(), evicted, capacity, e);
      LongestUnusedIs(s, St(), evicted, capacity, released, age);
      assert EvictedOldest(s, St(), evicted, capacity, released);
      if capacity > 0 {
        OnlyOne(St(), table.buckets, table.ids, e);
      }
    }

    /** Insert, up to the evictions. */
    method AddEntry(key: seq<byte>, hash: nat, value: nat, charge: nat) returns (e: Address, ghost replaced: Option<Address>)
      requires Valid()
      modifies this, table
      ensures Valid() && e == old(next)
      ensures Replaces(old(St()), key, hash, capacity, replaced)
      ensures Inserted(old(St()), key, hash, value, charge, capacity, replaced, St()) && clock == old(clock) && released == old(released)
    {
      hide ShardOk, Matches, TableOk, Erased, PowerOfTwo, CachedAre, CacheOk, NoneMatches, Charge, Uncache, DropRef, ByAge, Removed, Added, Inserted;
      ghost var s := St();
      ghost var t := NewEntry(s, key, hash, value, charge, capacity > 0);
      NewEntryCached(s, key, hash, value, charge, capacity > 0, table.buckets, table.ids);
      AddedIs(s, key, hash, value, charge, capacity > 0);
      e, replaced := next, None;
      MakeEntry(key, hash, value, charge);
      hide NewEntry;
      if capacity > 0 {
        ghost var ids := table.ids;
        var displaced := table.Insert(memory, e);
        if displaced.Some? {
          ReplacedIs(s, key, hash, value, charge, ids, displaced.value, capacity);
          assert ids + {e} == table.ids + {displaced.value};
          FinishErase(displaced.value);
        } else {
          NoneReplaced(s, key, hash, value, charge, ids, capacity);
          CacheWhole(St(), table.buckets, table.ids);
        }
        replaced := displaced;
      } else {
        CacheWhole(St(), table.buckets, table.ids);
      }
      InsertedIs(s, key, hash, value, charge, capacity, replaced, t, St());
    }

    /** A new handle for the caller and, if anything is cached, for the cache. */
    method MakeEntry(key: seq<byte>, hash: nat, value: nat, charge: nat)
      modifies this`memory, this`inUse, this`usage, this`next, this`held
      ensures St() == NewEntry(old(St()), key, hash, value, charge, capacity > 0)
    {
      var e := next;
      next := next + 1;
      held := held[e := 1];
      if capacity > 0 {
        memory := memory[e := Handle(key, hash, value, charge, true, 2)];
        inUse := inUse + [e];
        usage := usage + charge;
      } else {
        memory := memory[e := Handle(key, hash, value, charge, false, 1)];
      }
    }

    /** Evicts the entry that has been unused for longest. */
    method EvictOldest()
      requires Valid() && lru != []
      modifies this`memory, this`lru, this`inUse, this`usage, this`held, this`freed, table
      ensures Valid() && Evicted(old(St()), St())
    {
      hide ShardOk, Matches, TableOk, Erased, PowerOfTwo, CachedAre, CacheOk, Evicted;
      ghost var s := St();
      var e := lru[0];
      OldestIs(s, table.buckets, table.ids);
      ghost var buckets, ids := table.buckets, table.ids;
      var removed := table.Remove(memory, memory[e].key, memory[e].hash);
      RemovedIs(s, buckets, ids, table.ids, e, removed);
      assert ids == table.ids + {e};
      FinishErase(e);
      EvictedIs(s, e);
    }

    method Prune()
      requires Valid()
      modifies this`memory, this`lru, this`inUse, this`usage, this`held, this`freed, table
      ensures Valid() && lru == [] && inUse == old(inUse) && freed == old(freed) + old(lru)
    {
      hide ShardOk, CachedAre, TableOk, CacheOk, PowerOfTwo;
      while lru != []
        invariant Valid() && inUse == old(inUse) && freed + lru == old(freed) + old(lru)
        decreases |lru|
      {
        EvictOldest();
      }
    }
  }

  /** The oldest entry of the LRU list is gone, deleter and all; nothing else has changed. */
  ghost predicate Evicted(s: Shard, t: Shard) {
    && s.lru != [] && s.lru[0] in s.memory
    && t.lru == s.lru[1..] && t.inUse == s.inUse && t.freed == s.freed + [s.lru[0]]
    && t.memory == s.memory - {s.lru[0]} && t.held == s.held - {s.lru[0]} && t.next == s.next
    && t.usage + s.memory[s.lru[0]].charge == s.usage
  }

  lemma NewEntryCached(s: Shard, key: seq<byte>, hash: nat, value: nat, charge: nat, cached: bool, buckets: seq<seq<Address>>, ids: set<Address>)
    requires CacheOk(s, buckets, ids)
    ensures ShardOk(s, None) && CachedAre(s.memory, ids)
    ensures s.next !in ids && ShardOk(NewEntry(s, key, hash, value, charge, cached), None)
    ensures TableOk(NewEntry(s, key, hash, value, charge, cached).memory, buckets, ids)
    ensures CachedAre(NewEntry(s, key, hash, value, charge, cached).memory, if cached then ids + {s.next} else ids)
  {
    NewEntryOk(s, key, hash, value, charge, cached);
    assert s.next !in s.memory && s.next !in ids;
    hide ShardOk, TableOk;
    TableKept(s.memory, NewEntry(s, key, hash, value, charge, cached).memory, buckets, ids);
  }

  lemma ReplacedIs(s: Shard, key: seq<byte>, hash: nat, value: nat, charge: nat, ids: set<Address>, r: Address, capacity: nat)
    requires ShardOk(s, None) && CachedAre(s.memory, ids) && r in ids && capacity > 0
    requires var memory := NewEntry(s, key, hash, value, charge, true).memory; r in memory && Matches(memory[r], key, hash)
    ensures Replaces(s, key, hash, capacity, Some(r)) && r in NewEntry(s, key, hash, value, charge, true).memory
  {
    assert r < s.next;
    UncacheUsage(s, r);
  }

  lemma NoneReplaced(s: Shard, key: seq<byte>, hash: nat, value: nat, charge: nat, ids: set<Address>, capacity: nat)
    requires ShardOk(s, None) && CachedAre(s.memory, ids)
    requires var memory := NewEntry(s, key, hash, value, charge, true).memory; forall b :: b in ids ==> b in memory && !Matches(memory[b], key, hash)
    ensures Replaces(s, key, hash, capacity, None)
  {
    hide ListsOk, UsageOk, FreedOk;
    assert s.next !in s.memory;
  }

  /** The entry an insertion replaces: the cached one with the same key, if there is a cache. */
  ghost predicate Replaces(s: Shard, key: seq<byte>, hash: nat, capacity: nat, replaced: Option<Address>) {
    match replaced
    case Some(r) => capacity > 0 && r in s.memory && s.memory[r].inCache && Matches(s.memory[r], key, hash) && s.memory[r].refs > 0 && s.usage >= s.memory[r].charge && r != s.next
    case None => capacity > 0 ==> NoneMatches(s.memory, key, hash)
  }

  /** The shard with the new entry in it and the replaced one gone. */
  ghost predicate Inserted(s: Shard, key: seq<byte>, hash: nat, value: nat, charge: nat, capacity: nat, replaced: Option<Address>, t: Shard) {
    exists u :: Added(s, key, hash, value, charge, capacity > 0, u) && Displaced(u, replaced, s.next, t)
  }

  /** The entry the new one displaced from the table, if any, is removed. */
  ghost predicate Displaced(s: Shard, replaced: Option<Address>, e: Address, t: Shard) {
    match replaced
    case Some(r) => r != e && Removed(s, r, t)
    case None => t == s
  }

  /** The new entry itself. */
  lemma InsertedHere(s: Shard, key: seq<byte>, hash: nat, value: nat, charge: nat, capacity: nat, replaced: Option<Address>, t: Shard)
    requires Inserted(s, key, hash, value, charge, capacity, replaced, t)
    ensures s.next in t.memory && t.memory[s.next] == Handle(key, hash, value, charge, capacity > 0, if capacity > 0 then 2 else 1)
  {
    hide TakenOut;
    var u :| Added(s, key, hash, value, charge, capacity > 0, u) && Displaced(u, replaced, s.next, t);
  }

  lemma AddedIs(s: Shard, key: seq<byte>, hash: nat, value: nat, charge: nat, cached: bool)
    ensures Added(s, key, hash, value, charge, cached, NewEntry(s, key, hash, value, charge, cached))
  {
  }

  lemma InsertedIs(s: Shard, key: seq<byte>, hash: nat, value: nat, charge: nat, capacity: nat, replaced: Option<Address>, u: Shard, t: Shard)
    requires Added(s, key, hash, value, charge, capacity > 0, u)
    requires Displaced(u, replaced, s.next, t)
    ensures Inserted(s, key, hash, value, charge, capacity, replaced, t)
  {
    hide Added, Displaced;
  }

  lemma ListsNow(s: Shard, buckets: seq<seq<Address>>, ids: set<Address>)
    requires CacheOk(s, buckets, ids)
    ensures ListsOk(s)
  {
  }

  lemma EvictedKeeps(s: Shard, t: Shard, n: nat, capacity: nat, e: Address)
    requires EvictedSome(s, t, n, capacity) && ListsOk(s) && e in s.memory && !(s.memory[e].inCache && s.memory[e].refs == 1)
    ensures e in t.memory && t.memory[e] == s.memory[e]
  {
  }

  ghost predicate EvictedOldest(s: Shard, t: Shard, n: nat, capacity: nat, released: map<Address, nat>) {
    EvictedSome(s, t, n, capacity) && LongestUnused(s.lru, n, released)
  }

  /** Whatever was evicted had been unused for longer than anything that was not. */
  ghost predicate LongestUnused(lru: seq<Address>, n: nat, released: map<Address, nat>) {
    n <= |lru| && forall a, b :: a in lru[..n] && b in lru[n..] ==> a in released && b in released && released[a] < released[b]
  }

  lemma LongestUnusedIs(s: Shard, t: Shard, n: nat, capacity: nat, released: map<Address, nat>, clock: nat)
    requires EvictedSome(s, t, n, capacity) && ByAge(s.lru, released, clock)
    ensures LongestUnused(s.lru, n, released)
  {
    ByAgeRest(s.lru, n, released, clock);
  }

  lemma OnlyOne(s: Shard, buckets: seq<seq<Address>>, ids: set<Address>, e: Address)
    requires CacheOk(s, buckets, ids) && e in s.memory && s.memory[e].inCache
    ensures forall a :: a in s.memory && s.memory[a].inCache && Matches(s.memory[a], s.memory[e].key, s.memory[e].hash) ==> a == e
  {
    forall a | a in s.memory && s.memory[a].inCache && Matches(s.memory[a], s.memory[e].key, s.memory[e].hash) ensures a == e {
      OneHandle(s.memory, buckets, ids, a, e);
    }
  }

  /** The `n` oldest unused entries went, the last of them while the cache was still too full. */
  ghost predicate EvictedSome(s: Shard, t: Shard, n: nat, capacity: nat) {
    && n <= |s.lru| && t.lru == s.lru[n..] && t.inUse == s.inUse && t.freed == s.freed + s.lru[..n]
    && t.memory == s.memory - (set a | a in s.lru[..n]) && t.held == s.held - (set a | a in s.lru[..n]) && t.next == s.next
    && (n > 0 ==> s.lru[n - 1] in s.memory && t.usage + s.memory[s.lru[n - 1]].charge > capacity)
  }

  lemma EvictedNone(s: Shard, capacity: nat)
    ensures EvictedSome(s, s, 0, capacity)
  {
  }

  lemma EvictedMore(s: Shard, t: Shard, u: Shard, n: nat, capacity: nat)
    requires EvictedSome(s, t, n, capacity) && Evicted(t, u) && t.usage > capacity
    ensures EvictedSome(s, u, n + 1, capacity) && |u.lru| < |t.lru|
  {
    assert s.lru[..n + 1] == s.lru[..n] + [s.lru[n]];
    assert t.lru[0] == s.lru[n];
  }

  lemma CacheWhole(s: Shard, buckets: seq<seq<Address>>, ids: set<Address>)
    requires ShardOk(s, None) && CachedAre(s.memory, ids) && TableOk(s.memory, buckets, ids)
    ensures CacheOk(s, buckets, ids)
  {
  }

  lemma OldestIs(s: Shard, buckets: seq<seq<Address>>, ids: set<Address>)
    requires CacheOk(s, buckets, ids) && s.lru != []
    ensures ShardOk(s, None) && CachedAre(s.memory, ids) && TableOk(s.memory, buckets, ids)
    ensures var e := s.lru[0]; e in s.memory && e in ids && s.memory[e].inCache && s.memory[e].refs == 1 && e !in s.inUse
  {
    assert s.lru[0] in s.lru;
  }

  lemma EvictedIs(s: Shard, e: Address)
    requires s.lru != [] && e == s.lru[0] && e in s.memory && s.memory[e].inCache && s.memory[e].refs == 1 && e !in s.inUse
    requires s.usage >= s.memory[e].charge
    ensures Evicted(s, Erased(s, e))
  {
    WithoutAbsent(s.inUse, e);
    assert s.memory[e := s.memory[e].(inCache := false)] - {e} == s.memory - {e};
  }

  lemma RemovedIs(s: Shard, buckets: seq<seq<Address>>, ids: set<Address>, rest: set<Address>, e: Address, removed: Option<Address>)
    requires TableOk(s.memory, buckets, ids) && e in ids && e in s.memory
    requires removed.Some? ==> removed.value in ids && removed.value in s.memory && Matches(s.memory[removed.value], s.memory[e].key, s.memory[e].hash)
    requires removed == None ==> rest == ids && forall a :: a in ids ==> a in s.memory && !Matches(s.memory[a], s.memory[e].key, s.memory[e].hash)
    ensures removed == Some(e)
  {
    hide TableOk;
    if removed.Some? {
      OneHandle(s.memory, buckets, ids, removed.value, e);
    }
  }

  ghost predicate NoneMatches(memory: Memory, key: seq<byte>, hash: nat) {
    forall a :: a in memory && memory[a].inCache ==> !Matches(memory[a], key, hash)
  }

  lemma CacheParts(s: Shard, buckets: seq<seq<Address>>, ids: set<Address>)
    requires CacheOk(s, buckets, ids)
    ensures ShardOk(s, None) && CachedAre(s.memory, ids) && TableOk(s.memory, buckets, ids)
  {
  }

  lemma CachedIn(memory: Memory, ids: set<Address>, e: Address)
    requires CachedAre(memory, ids) && e in ids
    ensures e in memory && memory[e].inCache
  {
  }

  lemma NoMatchAtAll(memory: Memory, ids: set<Address>, key: seq<byte>, hash: nat)
    requires CachedAre(memory, ids) && forall a :: a in ids ==> a in memory && !Matches(memory[a], key, hash)
    ensures NoneMatches(memory, key, hash)
  {
  }

  lemma TableKeptBy(s: Shard, buckets: seq<seq<Address>>, ids: set<Address>)
    requires CacheOk(s, buckets, ids)
    ensures TableOk(s.memory, buckets, ids)
  {
  }

  lemma ReleaseKeeps(s: Shard, e: Address, ids: set<Address>)
    requires ShardOk(s, Some(e)) && e in s.memory && s.memory[e].refs > 0 && CachedAre(s.memory, ids)
    ensures CachedAre(DropRef(s, e).memory, ids) && KeysKept(s.memory, DropRef(s, e).memory, ids)
  {
    hide ListsOk, UsageOk, FreedOk;
  }
}
