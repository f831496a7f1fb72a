/** The Bloom filter over a set of keys (util/bloom.cc), for any 32-bit hash of a key. */
module Bloom {
  import opened Format
  import opened Coding

  type Hash = seq<byte> -> nat

  datatype Policy = Policy(bitsPerKey: nat, hash: Hash)

  /** The number of probes: ln 2 bits a key, rounded down, and between 1 and 30. */
  function Probes(policy: Policy): (k: nat)
    ensures 1 <= k <= 30
  {
    var k := policy.bitsPerKey * 69 / 100;
    if k < 1 then 1 else if k > 30 then 30 else k
  }

  /** Bit `i` of a number: b & 1 << i. */
  predicate Bit(b: nat, i: nat) {
    if i == 0 then b % 2 == 1 else Bit(b / 2, i - 1)
  }

  /** b | 1 << i. */
  function WithBit(b: nat, i: nat): nat {
    if i == 0 then b / 2 * 2 + 1 else WithBit(b / 2, i - 1) * 2 + b % 2
  }

  function PowerOf2(n: nat): (p: nat)
    ensures p > 0
  {
    if n == 0 then 1 else 2 * PowerOf2(n - 1)
  }

  /** Setting a bit sets that bit, leaves the others and stays in the same width. */
  lemma {:induction false} WithBitIs(b: nat, i: nat, j: nat, width: nat)
    requires i < width && b < PowerOf2(width)
    ensures Bit(WithBit(b, i), j) <==> i == j || Bit(b, j)
    ensures WithBit(b, i) < PowerOf2(width)
  {
    if i > 0 {
      assert (WithBit(b / 2, i - 1) * 2 + b % 2) / 2 == WithBit(b / 2, i - 1);
      WithBitIs(b / 2, i - 1, if j == 0 then 0 else j - 1, width - 1);
    }
  }

  lemma InByte(b: byte, i: nat, j: nat)
    requires i < 8
    ensures WithBit(b as nat, i) < 256
    ensures Bit(WithBit(b as nat, i), j) <==> i == j || Bit(b as nat, j)
  {
    assert PowerOf2(4) == 16 && PowerOf2(8) == 16 * PowerOf2(4);
    WithBitIs(b as nat, i, j, 8);
  }

  function SetBit(bitmap: seq<byte>, pos: nat): (after: seq<byte>)
    requires pos < 8 * |bitmap|
    ensures |after| == |bitmap|
  {
    InByte(bitmap[pos / 8], pos % 8, 0);
    bitmap[pos / 8 := WithBit(bitmap[pos / 8] as nat, pos % 8) as byte]
  }

  predicate HasBit(bitmap: seq<byte>, pos: nat)
    requires pos < 8 * |bitmap|
  {
    Bit(bitmap[pos / 8] as nat, pos % 8)
  }

  lemma SetBitIs(bitmap: seq<byte>, pos: nat, other: nat)
    requires pos < 8 * |bitmap| && other < 8 * |bitmap|
    ensures HasBit(SetBit(bitmap, pos), other) <==> other == pos || HasBit(bitmap, other)
  {
    InByte(bitmap[pos / 8], pos % 8, other % 8);
    if other / 8 == pos / 8 {
      assert other == 8 * (other / 8) + other % 8 && pos == 8 * (pos / 8) + pos % 8;
    }
  }

  // ---------------------------------------------------------------- double hashing

  /** Rotate right 17 bits. */
  function Delta(h: nat): nat
    requires h < TWO_TO_32
  {
    h / 0x2_0000 + h % 0x2_0000 * 0x8000
  }

  /** Rotating back, left 17 bits. */
  lemma DeltaIsRotation(h: nat)
    requires h < TWO_TO_32
    ensures Delta(h) < TWO_TO_32 && Delta(h) % 0x8000 * 0x2_0000 + Delta(h) / 0x8000 == h
  {
  }

  /** The hash after `j` additions, each in 32 bits. */
  function ProbeHash(h: nat, j: nat): (r: nat)
    requires h < TWO_TO_32
    ensures r < TWO_TO_32
  {
    if j == 0 then h else (ProbeHash(h, j - 1) + Delta(h)) % TWO_TO_32
  }

  lemma OneProbeOn(h: nat, before: nat, j: nat, delta: nat)
    requires j > 0 && before == (h + (j - 1) * delta) % TWO_TO_32
    ensures (before + delta) % TWO_TO_32 == (h + j * delta) % TWO_TO_32
  {
    var product := (j - 1) * delta;
    assert j * delta == product + delta;
    ReduceEarly(h + product, delta, false);
  }

  /** Double hashing: probe `j` is at `h + j * delta`. */
  lemma {:induction false} ProbeHashIs(h: nat, j: nat)
    requires h < TWO_TO_32
    ensures ProbeHash(h, j) == (h + j * Delta(h)) % TWO_TO_32
  {
    hide Delta;
    if j > 0 {
      ProbeHashIs(h, j - 1);
      OneProbeOn(h, ProbeHash(h, j - 1), j, Delta(h));
    }
  }

  function KeyHash(policy: Policy, key: seq<byte>): nat {
    policy.hash(key) % TWO_TO_32
  }

  function Place(policy: Policy, key: seq<byte>, bits: nat, j: nat): (pos: nat)
    requires bits > 0
    ensures pos < bits
  {
    ProbeHash(KeyHash(policy, key), j) % bits
  }

  /** The first `k` probes for the key all hit. */
  predicate AllSet(policy: Policy, key: seq<byte>, bitmap: seq<byte>, k: nat)
    requires bitmap != []
  {
    forall j: nat :: j < k ==> HasBit(bitmap, Place(policy, key, 8 * |bitmap|, j))
  }

  /** What KeyMayMatch answers. */
  predicate Matches(policy: Policy, key: seq<byte>, filter: seq<byte>) {
    |filter| >= 2 && (filter[|filter| - 1] > 30 || AllSet(policy, key, filter[..|filter| - 1], filter[|filter| - 1] as nat))
  }

  /** The bit is one of the first `k` probes for the key. */
  ghost predicate Probed(policy: Policy, key: seq<byte>, bits: nat, k: nat, pos: nat)
    requires bits > 0
  {
    exists j: nat :: j < k && pos == Place(policy, key, bits, j)
  }

  /** The bit is a probe for one of the keys. */
  ghost predicate ProbedAny(policy: Policy, keys: seq<seq<byte>>, bits: nat, pos: nat)
    requires bits > 0
  {
    exists i :: 0 <= i < |keys| && Probed(policy, keys[i], bits, Probes(policy), pos)
  }

  /** A filter has exactly the bits its keys probe, and says how many probes there are. */
  ghost predicate FilterOf(policy: Policy, keys: seq<seq<byte>>, filter: seq<byte>) {
    && |filter| - 1 == ((if |keys| * policy.bitsPerKey < 64 then 64 else |keys| * policy.bitsPerKey) + 7) / 8
    && filter[|filter| - 1] as nat == Probes(policy)
    && BitsOf(policy, keys, filter[..|filter| - 1])
  }

  ghost predicate BitsOf(policy: Policy, keys: seq<seq<byte>>, bitmap: seq<byte>) {
    bitmap != [] && forall pos :: 0 <= pos < 8 * |bitmap| ==> (HasBit(bitmap, pos) <==> ProbedAny(policy, keys, 8 * |bitmap|, pos))
  }

  lemma ProbedMore(policy: Policy, key: seq<byte>, bits: nat, k: nat, pos: nat)
    requires bits > 0
    ensures Probed(policy, key, bits, k + 1, pos) <==> Probed(policy, key, bits, k, pos) || pos == Place(policy, key, bits, k)
    ensures !Probed(policy, key, bits, 0, pos)
  {
    hide Place;
    assert pos == Place(policy, key, bits, k) ==> Probed(policy, key, bits, k + 1, pos);
  }

  /** Sets the probes of one key. */
  method AddKey(policy: Policy, bitmap: seq<byte>, key: seq<byte>) returns (after: seq<byte>)
    requires bitmap != []
    ensures |after| == |bitmap|
    ensures forall pos :: 0 <= pos < 8 * |bitmap| ==> (HasBit(after, pos) <==> HasBit(bitmap, pos) || Probed(policy, key, 8 * |bitmap|, Probes(policy), pos))
  {
    hide HasBit, SetBit, Probed;
    after := bitmap;
    var h := KeyHash(policy, key);
    var delta := Delta(h);
    var j: nat := 0;
    forall pos: nat ensures !Probed(policy, key, 8 * |bitmap|, 0, pos) {
      ProbedMore(policy, key, 8 * |bitmap|, 0, pos);
    }
    while j < Probes(policy)
      invariant |after| == |bitmap| && j <= Probes(policy) && h == ProbeHash(KeyHash(policy, key), j)
      invariant forall pos :: 0 <= pos < 8 * |bitmap| ==> (HasBit(after, pos) <==> HasBit(bitmap, pos) || Probed(policy, key, 8 * |bitmap|, j, pos))
    {
      var bitpos := h % (8 * |bitmap|);
      forall pos | 0 <= pos < 8 * |bitmap|
        ensures HasBit(SetBit(after, bitpos), pos) <==> HasBit(bitmap, pos) || Probed(policy, key, 8 * |bitmap|, j + 1, pos)
      {
        SetBitIs(after, bitpos, pos);
        ProbedMore(policy, key, 8 * |bitmap|, j, pos);
      }
      after := SetBit(after, bitpos);
      h := (h + delta) % TWO_TO_32;
      j := j + 1;
    }
  }

  lemma NoBits(policy: Policy, bitmap: seq<byte>)
    requires bitmap != [] && forall i :: 0 <= i < |bitmap| ==> bitmap[i] == 0
    ensures BitsOf(policy, [], bitmap)
  {
    forall pos | 0 <= pos < 8 * |bitmap| ensures !HasBit(bitmap, pos) {
      NoBit(pos % 8);
    }
  }

  lemma {:induction false} NoBit(i: nat)
    ensures !Bit(0, i)
  {
    if i > 0 {
      NoBit(i - 1);
    }
  }

  lemma BitsMore(policy: Policy, keys: seq<seq<byte>>, key: seq<byte>, bitmap: seq<byte>, after: seq<byte>)
    requires BitsOf(policy, keys, bitmap) && |after| == |bitmap|
    requires forall pos :: 0 <= pos < 8 * |bitmap| ==> (HasBit(after, pos) <==> HasBit(bitmap, pos) || Probed(policy, key, 8 * |bitmap|, Probes(policy), pos))
    ensures BitsOf(policy, keys + [key], after)
  {
    hide HasBit, Probed;
    var more, bits := keys + [key], 8 * |bitmap|;
    forall pos: nat | pos < bits ensures ProbedAny(policy, more, bits, pos) <==> ProbedAny(policy, keys, bits, pos) || Probed(policy, key, bits, Probes(policy), pos) {
      if ProbedAny(policy, keys, bits, pos) {
        var i :| 0 <= i < |keys| && Probed(policy, keys[i], bits, Probes(policy), pos);
        assert more[i] == keys[i];
      }
      assert more[|keys|] == key;
    }
  }

  /** CreateFilter: appends to `dst` the filter of the keys. */
  method CreateFilter(policy: Policy, keys: seq<seq<byte>>, dst: seq<byte>) returns (after: seq<byte>)
    ensures dst <= after && FilterOf(policy, keys, after[|dst|..])
    ensures forall key :: key in keys ==> Matches(policy, key, after[|dst|..])
  {
    hide BitsOf, HasBit;
    var bits := |keys| * policy.bitsPerKey;
    if bits < 64 {
      bits := 64;
    }
    var bytes := (bits + 7) / 8;
    var bitmap := seq(bytes, _ => 0 as byte);
    NoBits(policy, bitmap);
    assert keys[..0] == [];
    var i := 0;
    while i < |keys|
      invariant i <= |keys| && |bitmap| == bytes && BitsOf(policy, keys[..i], bitmap)
    {
      var before := bitmap;
      bitmap := AddKey(policy, bitmap, keys[i]);
      BitsMore(policy, keys[..i], keys[i], before, bitmap);
      assert keys[..i + 1] == keys[..i] + [keys[i]];
      i := i + 1;
    }
    assert keys[..i] == keys;
    var filter := bitmap + [Probes(policy) as byte];
    after := dst + filter;
    assert after[|dst|..] == filter && filter[..|filter| - 1] == bitmap;
    AllMatch(policy, keys, filter);
  }

  lemma AllMatch(policy: Policy, keys: seq<seq<byte>>, filter: seq<byte>)
    requires FilterOf(policy, keys, filter)
    ensures forall key :: key in keys ==> Matches(policy, key, filter)
  {
    hide HasBit, Place;
    var bitmap, bits := filter[..|filter| - 1], 8 * (|filter| - 1);
    forall i, j: nat | 0 <= i < |keys| && j < Probes(policy) ensures HasBit(bitmap, Place(policy, keys[i], bits, j)) {
      assert Probed(policy, keys[i], bits, Probes(policy), Place(policy, keys[i], bits, j));
      assert ProbedAny(policy, keys, bits, Place(policy, keys[i], bits, j));
    }
    forall key | key in keys ensures Matches(policy, key, filter) {
      var i :| 0 <= i < |keys| && keys[i] == key;
    }
  }

  /** Each probe for the key is a probe for one of the keys. */
  ghost predicate AllProbed(policy: Policy, keys: seq<seq<byte>>, bits: nat, key: seq<byte>)
    requires bits > 0
  {
    forall j: nat :: j < Probes(policy) ==> ProbedAny(policy, keys, bits, Place(policy, key, bits, j))
  }

  /** A key matches the filter of some keys exactly if each of its probes is a probe of one of them. */
  lemma MatchesIff(policy: Policy, keys: seq<seq<byte>>, filter: seq<byte>, key: seq<byte>)
    requires FilterOf(policy, keys, filter)
    ensures |filter| > 1 && (Matches(policy, key, filter) <==> AllProbed(policy, keys, 8 * (|filter| - 1), key))
  {
    hide HasBit, Place, ProbedAny;
    var bitmap, bits := filter[..|filter| - 1], 8 * (|filter| - 1);
    forall j: nat ensures HasBit(bitmap, Place(policy, key, bits, j)) <==> ProbedAny(policy, keys, bits, Place(policy, key, bits, j)) {
      assert 0 <= Place(policy, key, bits, j) < bits;
    }
  }

  /** KeyMayMatch. */
  method KeyMayMatch(policy: Policy, key: seq<byte>, filter: seq<byte>) returns (may: bool)
    ensures may == Matches(policy, key, filter)
  {
    hide HasBit;
    if |filter| < 2 {
      return false;
    }
    var bitmap, k := filter[..|filter| - 1], filter[|filter| - 1];
    if k > 30 {
      return true;
    }
    var h := KeyHash(policy, key);
    var delta := Delta(h);
    var j: nat := 0;
    while j < k as nat
      invariant j <= k as nat && h == ProbeHash(KeyHash(policy, key), j) && AllSet(policy, key, bitmap, j)
    {
      if !HasBit(bitmap, h % (8 * |bitmap|)) {
        assert !HasBit(bitmap, Place(policy, key, 8 * |bitmap|, j));
        return false;
      }
      h := (h + delta) % TWO_TO_32;
      j := j + 1;
    }
    return true;
  }
}
