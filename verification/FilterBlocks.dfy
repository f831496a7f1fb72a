/** One Bloom filter for every 2 KB of a table file, and the block that holds them (table/filter_block.cc). */
module FilterBlocks {
  import opened Format
  import opened Coding
  import opened BlockFormat
  import opened Blocks
  import opened Bloom

  const FILTER_BASE_LG: nat := 11
  const FILTER_BASE: nat := 2048

  /** A key and the offset of the data block it is in. */
  datatype Promise = Promise(offset: nat, key: seq<byte>)

  /** Piece `i` is where it starts, and ends where the next begins. */
  ghost predicate PieceAt(bytes: seq<byte>, starts: seq<nat>, i: nat, piece: seq<byte>) {
    && i < |starts| && starts[i] + |piece| <= |bytes|
    && starts[i] + |piece| == (if i + 1 < |starts| then starts[i + 1] else |bytes|)
    && bytes[starts[i]..starts[i] + |piece|] == piece
  }

  /** The pieces are held flat: the keys in one string, the filters in the block. */
  ghost predicate Laid(bytes: seq<byte>, starts: seq<nat>, pieces: seq<seq<byte>>) {
    |starts| == |pieces| && forall i :: 0 <= i < |starts| ==> PieceAt(bytes, starts, i, pieces[i])
  }

  lemma LayMore(bytes: seq<byte>, starts: seq<nat>, pieces: seq<seq<byte>>, piece: seq<byte>)
    requires Laid(bytes, starts, pieces)
    ensures Laid(bytes + piece, starts + [|bytes|], pieces + [piece])
  {
    var more := bytes + piece;
    forall i | 0 <= i < |starts| ensures PieceAt(more, starts + [|bytes|], i, pieces[i]) {
      assert PieceAt(bytes, starts, i, pieces[i]);
      assert more[starts[i]..starts[i] + |pieces[i]|] == bytes[starts[i]..starts[i] + |pieces[i]|];
    }
    assert more[|bytes|..|bytes| + |piece|] == piece;
  }

  /** The filter of some keys; of no keys it is empty. */
  ghost predicate IsFilter(policy: Policy, keys: seq<seq<byte>>, filter: seq<byte>) {
    if keys == [] then filter == [] else FilterOf(policy, keys, filter)
  }

  /** The keys promised for filter `i`. */
  ghost predicate KeysOf(promises: seq<Promise>, i: nat, keys: seq<seq<byte>>) {
    forall key :: key in keys <==> exists p :: p in promises && p.offset / FILTER_BASE == i && p.key == key
  }

  /** Each filter is of the keys promised for it, and the keys of the next one are waiting. */
  ghost predicate AllKept(policy: Policy, groups: seq<seq<seq<byte>>>, filters: seq<seq<byte>>, pending: seq<seq<byte>>, promises: seq<Promise>) {
    && |groups| == |filters| && (forall i :: 0 <= i < |filters| ==> IsFilter(policy, groups[i], filters[i]) && KeysOf(promises, i, groups[i]))
    && KeysOf(promises, |filters|, pending) && forall p :: p in promises ==> p.offset / FILTER_BASE <= |filters|
  }

  function In32(ns: seq<nat>): (words: seq<nat>)
    ensures |words| == |ns| && forall i :: 0 <= i < |ns| ==> words[i] == ns[i] % TWO_TO_32
  {
    seq(|ns|, i requires 0 <= i < |ns| => ns[i] % TWO_TO_32)
  }

  class FilterBlockBuilder {
    const policy: Policy
    var keys: seq<byte>
    var start: seq<nat>
    var result: seq<byte>
    /** 32-bit offsets, as they are stored. */
    var filterOffsets: seq<nat>
    /** The exact offsets and the filters, with the keys of each; what is owed to the keys; the keys
        not yet in a filter; and the offset of the block being built. */
    ghost var offsets: seq<nat>
    ghost var filters: seq<seq<byte>>
    ghost var groups: seq<seq<seq<byte>>>
    ghost var promises: seq<Promise>
    ghost var pending: seq<seq<byte>>
    ghost var blockOffset: nat

    ghost predicate Inv()
      reads this
    {
      && Laid(keys, start, pending) && Laid(result, offsets, filters)
      && filterOffsets == In32(offsets) && AllKept(policy, groups, filters, pending, promises)
    }

    constructor (policy: Policy)
      ensures Inv() && this.policy == policy && promises == [] && filterOffsets == [] && blockOffset == 0
    {
      this.policy := policy;
      keys, start, result, filterOffsets := [], [], [], [];
      offsets, filters, groups, promises, pending, blockOffset := [], [], [], [], [], 0;
    }

    /** StartBlock: a filter for every 2 KB passed since the last block began. */
    method StartBlock(offset: nat)
      requires Inv() && offset / FILTER_BASE >= |filterOffsets|
      modifies this
      ensures Inv() && promises == old(promises) && blockOffset == offset && |filterOffsets| == offset / FILTER_BASE
    {
      var filterIndex := offset / FILTER_BASE;
      while filterIndex > |filterOffsets|
        invariant Inv() && promises == old(promises) && |filterOffsets| <= filterIndex
        decreases filterIndex - |filterOffsets|
      {
        GenerateFilter();
      }
      blockOffset := offset;
    }

    method AddKey(key: seq<byte>)
      requires Inv() && |filterOffsets| == blockOffset / FILTER_BASE
      modifies `start, `keys, `promises, `pending
      ensures Inv() && promises == old(promises) + [Promise(blockOffset, key)]
    {
      LayMore(keys, start, pending, key);
      PromiseMore(policy, groups, filters, pending, promises, Promise(blockOffset, key));
      start := start + [|keys|];
      keys := keys + key;
      pending := pending + [key];
      promises := promises + [Promise(blockOffset, key)];
    }

    method GenerateFilter()
      requires Inv()
      modifies this
      ensures Inv() && promises == old(promises) && blockOffset == old(blockOffset)
      ensures |filterOffsets| == |old(filterOffsets)| + 1 && pending == [] && start == []
    {
      hide Matches, PieceAt, FilterOf;
      ghost var filter: seq<byte> := [];
      var offset := |result|;
      var before := result;
      if |start| != 0 {
        var tmpKeys := UnflattenKeys(keys, start, pending);
        result := CreateFilter(policy, tmpKeys, result);
        filter := result[|before|..];
      } else {
        assert pending == [];
      }
      assert result == before + filter;
      LayMore(before, offsets, filters, filter);
      PromisesKept(policy, groups, filters, pending, promises, filter);
      assert In32(offsets + [offset]) == In32(offsets) + [offset % TWO_TO_32];
      filterOffsets := filterOffsets + [offset % TWO_TO_32];
      offsets, filters, groups := offsets + [offset], filters + [filter], groups + [pending];
      keys, start, pending := [], [], [];
    }

    /** Finish, if offsets fit in 32 bits: every key added is matched at the offset of its block, and
        other keys only where each of their probes is one of a key added there. */
    method Finish() returns (contents: seq<byte>)
      requires Inv()
      modifies this
      ensures promises == old(promises) && |filterOffsets| == |old(filterOffsets)| + (if old(start) != [] then 1 else 0)
      ensures |contents| < TWO_TO_32 ==> forall p :: p in promises ==> MayMatch(policy, contents, p.offset, p.key)
      ensures |contents| < TWO_TO_32 ==> forall offset: nat, key ::
        offset / FILTER_BASE < |filterOffsets| && MayMatch(policy, contents, offset, key) ==> LooksAdded(policy, promises, offset / FILTER_BASE, key)
    {
      hide Matches, MayMatch, PieceAt, FilterOf, LooksAdded, KeysOf;
      if start != [] {
        GenerateFilter();
      }
      contents := AppendOffsets(result, filterOffsets, |result| % TWO_TO_32);
      if |contents| < TWO_TO_32 {
        PendingIsEmpty(keys, start, pending);
        forall p | p in promises ensures MayMatch(policy, contents, p.offset, p.key) {
          ReaderFinds(policy, contents, result, offsets, groups, filters, promises, p);
        }
        forall offset: nat, key | offset / FILTER_BASE < |filterOffsets| && MayMatch(policy, contents, offset, key)
          ensures LooksAdded(policy, promises, offset / FILTER_BASE, key)
        {
          ReaderSees(policy, contents, result, offsets, filters, offset, key);
          FilterSees(policy, groups[offset / FILTER_BASE], filters[offset / FILTER_BASE], promises, offset / FILTER_BASE, key);
        }
      }
    }
  }

  /** In a bitmap of some size, each probe for the key is a probe for a key of that filter. */
  ghost predicate LooksAdded(policy: Policy, promises: seq<Promise>, i: nat, key: seq<byte>) {
    exists bits: nat :: bits > 0 && AllProbedBy(policy, promises, i, bits, key)
  }

  ghost predicate AllProbedBy(policy: Policy, promises: seq<Promise>, i: nat, bits: nat, key: seq<byte>)
    requires bits > 0
  {
    forall j: nat :: j < Probes(policy) ==> ProbedBy(policy, promises, i, bits, Place(policy, key, bits, j))
  }

  /** The bit is a probe for a key promised for filter `i`. */
  ghost predicate ProbedBy(policy: Policy, promises: seq<Promise>, i: nat, bits: nat, pos: nat)
    requires bits > 0
  {
    exists p :: p in promises && p.offset / FILTER_BASE == i && Probed(policy, p.key, bits, Probes(policy), pos)
  }

  lemma FilterSees(policy: Policy, keys: seq<seq<byte>>, filter: seq<byte>, promises: seq<Promise>, i: nat, key: seq<byte>)
    requires IsFilter(policy, keys, filter) && KeysOf(promises, i, keys) && Matches(policy, key, filter)
    ensures LooksAdded(policy, promises, i, key)
  {
    assert keys == [] ==> |filter| < 2;
    MatchesIff(policy, keys, filter, key);
    hide Matches, FilterOf, Place, Probed;
    var bits := 8 * (|filter| - 1);
    forall j: nat | j < Probes(policy) ensures ProbedBy(policy, promises, i, bits, Place(policy, key, bits, j)) {
      assert ProbedAny(policy, keys, bits, Place(policy, key, bits, j));
      var m :| 0 <= m < |keys| && Probed(policy, keys[m], bits, Probes(policy), Place(policy, key, bits, j));
      assert keys[m] in keys;
    }
    assert AllProbedBy(policy, promises, i, bits, key);
  }

  /** The footer: the offsets, where they begin, and the base. */
  method AppendOffsets(result: seq<byte>, filterOffsets: seq<nat>, arrayOffset: nat) returns (contents: seq<byte>)
    requires (forall i :: 0 <= i < |filterOffsets| ==> filterOffsets[i] < TWO_TO_32) && arrayOffset < TWO_TO_32
    ensures contents == result + Fixed32s(filterOffsets + [arrayOffset]) + [FILTER_BASE_LG as byte]
  {
    hide EncodeFixed32;
    var i: nat := 0;
    contents := result;
    while i < |filterOffsets|
      invariant i <= |filterOffsets| && contents == result + Fixed32s(filterOffsets[..i])
    {
      contents := contents + EncodeFixed32(filterOffsets[i]);
      assert filterOffsets[..i + 1][..i] == filterOffsets[..i];
      i := i + 1;
    }
    assert (filterOffsets + [arrayOffset])[..i] == filterOffsets == filterOffsets[..i];
    contents := contents + EncodeFixed32(arrayOffset);
    contents := contents + [FILTER_BASE_LG as byte];
  }

  lemma PendingIsEmpty(flat: seq<byte>, start: seq<nat>, keys: seq<seq<byte>>)
    requires Laid(flat, start, keys) && start == []
    ensures keys == []
  {
  }

  /** The list of keys, cut out of the flat form again. */
  method UnflattenKeys(flat: seq<byte>, start: seq<nat>, ghost keys: seq<seq<byte>>) returns (tmpKeys: seq<seq<byte>>)
    requires Laid(flat, start, keys)
    ensures tmpKeys == keys
  {
    var ends := start + [|flat|];
    tmpKeys := [];
    for i := 0 to |start|
      invariant tmpKeys == keys[..i]
    {
      assert PieceAt(flat, start, i, keys[i]);
      assert ends[i] == start[i] && (i + 1 < |start| ==> ends[i + 1] == start[i + 1]);
      var length := ends[i + 1] - ends[i];
      tmpKeys := tmpKeys + [flat[ends[i]..ends[i] + length]];
      assert keys[..i + 1] == keys[..i] + [keys[i]];
    }
    assert keys[..|start|] == keys;
  }

  lemma PromiseMore(policy: Policy, groups: seq<seq<seq<byte>>>, filters: seq<seq<byte>>, pending: seq<seq<byte>>, promises: seq<Promise>, p: Promise)
    requires AllKept(policy, groups, filters, pending, promises) && p.offset / FILTER_BASE == |filters|
    ensures AllKept(policy, groups, filters, pending + [p.key], promises + [p])
  {
    hide FilterOf;
    forall i | 0 <= i < |filters| ensures KeysOf(promises + [p], i, groups[i]) {
      assert KeysOf(promises, i, groups[i]);
    }
  }

  lemma PromisesKept(policy: Policy, groups: seq<seq<seq<byte>>>, filters: seq<seq<byte>>, pending: seq<seq<byte>>, promises: seq<Promise>, filter: seq<byte>)
    requires AllKept(policy, groups, filters, pending, promises) && IsFilter(policy, pending, filter)
    ensures AllKept(policy, groups + [pending], filters + [filter], [], promises)
  {
    hide FilterOf;
  }

  // ---------------------------------------------------------------- the reader

  /** FilterBlockReader, as its constructor leaves it: `num` filters, their offsets at `offset`. */
  datatype FilterBlockReader = FilterBlockReader(data: seq<byte>, offset: nat, num: nat, baseLg: nat)

  function Open(contents: seq<byte>): (r: FilterBlockReader)
    ensures r.offset + 4 * r.num + 4 <= |r.data| || r.num == 0
  {
    var n := |contents|;
    if n < 5 then FilterBlockReader([], 0, 0, 0)
    else
      var baseLg := contents[n - 1] as nat;
      var lastWord := DecodeFixed32(contents[n - 5..]);
      if lastWord > n - 5 then FilterBlockReader([], 0, 0, baseLg)
      else FilterBlockReader(contents, lastWord, (n - 5 - lastWord) / 4, baseLg)
  }

  /** What a reader of these contents answers. */
  predicate MayMatch(policy: Policy, contents: seq<byte>, blockOffset: nat, key: seq<byte>) {
    var r := Open(contents);
    var index := blockOffset / PowerOf2(r.baseLg);
    index < r.num ==>
      var start := DecodeFixed32(r.data[r.offset + 4 * index..]);
      var limit := DecodeFixed32(r.data[r.offset + 4 * index + 4..]);
      if start <= limit <= r.offset then Matches(policy, key, r.data[start..limit]) else start != limit
  }

  method KeyMayMatch(policy: Policy, contents: seq<byte>, blockOffset: nat, key: seq<byte>) returns (may: bool)
    ensures may == MayMatch(policy, contents, blockOffset, key)
  {
    hide Matches, DecodeFixed32, PowerOf2, Open;
    var r := Open(contents);
    var index := blockOffset / PowerOf2(r.baseLg);
    if index < r.num {
      var start := DecodeFixed32(r.data[r.offset + 4 * index..]);
      var limit := DecodeFixed32(r.data[r.offset + 4 * index + 4..]);
      if start <= limit && limit <= r.offset {
        may := Bloom.KeyMayMatch(policy, key, r.data[start..limit]);
        return;
      } else if start == limit {
        return false;
      }
    }
    return true;
  }

  lemma WordAt(contents: seq<byte>, result: seq<byte>, words: seq<nat>, i: nat)
    requires (forall k :: 0 <= k < |words| ==> words[k] < TWO_TO_32) && i < |words|
    requires contents == result + Fixed32s(words) + [FILTER_BASE_LG as byte]
    ensures DecodeFixed32(contents[|result| + 4 * i..]) == words[i]
  {
    hide Fixed32s, EncodeFixed32, DecodeFixed32;
    Fixed32At(words, i);
    var rest := contents[|result| + 4 * i..];
    assert rest[..4] == Fixed32s(words)[4 * i..4 * i + 4];
    DecodePrefix(rest, EncodeFixed32(words[i]));
    Fixed32RoundTrip(words[i]);
  }

  lemma BaseIs()
    ensures PowerOf2(FILTER_BASE_LG) == FILTER_BASE
  {
    assert PowerOf2(4) == 16 && PowerOf2(8) == 16 * PowerOf2(4) && PowerOf2(11) == 8 * PowerOf2(8);
  }

  /** Opening a finished block finds the offsets where they were put. */
  lemma OpenIs(contents: seq<byte>, result: seq<byte>, words: seq<nat>)
    requires words != [] && (forall k :: 0 <= k < |words| ==> words[k] < TWO_TO_32) && words[|words| - 1] == |result|
    requires contents == result + Fixed32s(words) + [FILTER_BASE_LG as byte]
    ensures Open(contents) == FilterBlockReader(contents, |result|, |words| - 1, FILTER_BASE_LG)
  {
    hide Fixed32s, DecodeFixed32;
    WordAt(contents, result, words, |words| - 1);
    assert |contents| - 5 == |result| + 4 * (|words| - 1);
  }

  /** The reader answers by the filter of the offset. */
  lemma ReaderSees(policy: Policy, contents: seq<byte>, result: seq<byte>, offsets: seq<nat>, filters: seq<seq<byte>>, offset: nat, key: seq<byte>)
    requires Laid(result, offsets, filters)
    requires contents == result + Fixed32s(In32(offsets) + [|result| % TWO_TO_32]) + [FILTER_BASE_LG as byte] && |contents| < TWO_TO_32
    ensures var i := offset / FILTER_BASE; MayMatch(policy, contents, offset, key) <==> i < |filters| ==> Matches(policy, key, filters[i])
  {
    hide Fixed32s, DecodeFixed32, Matches, Open, PowerOf2;
    var words := In32(offsets) + [|result| % TWO_TO_32];
    BaseIs();
    OpenIs(contents, result, words);
    var i := offset / FILTER_BASE;
    if i < |filters| {
      WordAt(contents, result, words, i);
      WordAt(contents, result, words, i + 1);
      assert PieceAt(result, offsets, i, filters[i]);
      assert i + 1 < |offsets| ==> PieceAt(result, offsets, i + 1, filters[i + 1]);
      assert contents[offsets[i]..offsets[i] + |filters[i]|] == result[offsets[i]..offsets[i] + |filters[i]|];
      assert words[i] == offsets[i] && words[i + 1] == offsets[i] + |filters[i]|;
    }
  }

  lemma ReaderFinds(policy: Policy, contents: seq<byte>, result: seq<byte>, offsets: seq<nat>, groups: seq<seq<seq<byte>>>, filters: seq<seq<byte>>,
      promises: seq<Promise>, p: Promise)
    requires Laid(result, offsets, filters) && AllKept(policy, groups, filters, [], promises) && p in promises
    requires contents == result + Fixed32s(In32(offsets) + [|result| % TWO_TO_32]) + [FILTER_BASE_LG as byte] && |contents| < TWO_TO_32
    ensures MayMatch(policy, contents, p.offset, p.key)
  {
    hide MayMatch, Matches, FilterOf, Fixed32s, Laid;
    ReaderSees(policy, contents, result, offsets, filters, p.offset, p.key);
    NoneWaits(promises, |filters|, p);
    var i := p.offset / FILTER_BASE;
    assert KeysOf(promises, i, groups[i]) && p.key in groups[i];
    AllMatch(policy, groups[i], filters[i]);
  }

  lemma NoneWaits(promises: seq<Promise>, i: nat, p: Promise)
    requires KeysOf(promises, i, []) && p in promises
    ensures p.offset / FILTER_BASE != i
  {
    var none: seq<seq<byte>> := [];
    assert p.key !in none;
  }
}
