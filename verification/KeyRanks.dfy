/** Internal keys as the byte strings that are stored in a table (db/dbformat.h), and their order. */
module KeyRanks {
  import opened Format
  import opened Coding
  import opened Separators
  import opened BlockFormat

  function KeyBytes(k: InternalKey): seq<byte> {
    k.user + EncodeFixed64(k.tag % TWO_TO_64)
  }

  /** ExtractUserKey, and the eight bytes after it. */
  function KeyOf(bytes: seq<byte>): (k: InternalKey)
    ensures k.tag < TWO_TO_64
  {
    if |bytes| < 8 then InternalKey(bytes, 0)
    else InternalKey(bytes[..|bytes| - 8], DecodeFixed64(bytes[|bytes| - 8..]))
  }

  lemma KeyReads(k: InternalKey)
    requires k.tag < TWO_TO_64
    ensures KeyOf(KeyBytes(k)) == k && |KeyBytes(k)| == |k.user| + 8
  {
    hide EncodeFixed64, DecodeFixed64;
    Fixed64RoundTrip(k.tag);
    assert KeyBytes(k)[..|k.user|] == k.user && KeyBytes(k)[|k.user|..] == EncodeFixed64(k.tag);
  }

  /** The tag comes last, its low byte first. */
  lemma KeyExample(user: seq<byte>)
    ensures KeyBytes(InternalKey(user, 5 * 256 + 1)) == user + [1, 5, 0, 0, 0, 0, 0, 0]
  {
    assert EncodeFixed64(5 * 256 + 1) == [1, 5, 0, 0, 0, 0, 0, 0];
  }

  /** Byte strings read as digits to base 257; the tag, downwards, fits in the gap after the last digit. */
  function RankOf(user: seq<byte>, tag: nat): (r: real)
    requires tag < TWO_TO_64
    ensures 0.0 <= r < 1.0 && (user == [] <==> r < 1.0 / 257.0)
  {
    if user == [] then (TWO_TO_64 - 1 - tag) as real / TWO_TO_64 as real / 257.0
    else ((user[0] as int + 1) as real + RankOf(user[1..], tag)) / 257.0
  }

  /** The internal key comparator as ranks. */
  lemma {:induction false} RankIsOrder(a: InternalKey, b: InternalKey)
    requires a.tag < TWO_TO_64 && b.tag < TWO_TO_64
    ensures KeyLess(a, b) <==> RankOf(a.user, a.tag) < RankOf(b.user, b.tag)
    decreases |a.user|
  {
    if a.user != [] && b.user != [] {
      assert a.user == [a.user[0]] + a.user[1..] && b.user == [b.user[0]] + b.user[1..];
      if a.user[0] == b.user[0] {
        RankIsOrder(InternalKey(a.user[1..], a.tag), InternalKey(b.user[1..], b.tag));
      }
    }
  }

  const RANK: Rank := (bytes: seq<byte>) => RankOf(KeyOf(bytes).user, KeyOf(bytes).tag)

  /** Stored keys rank as the keys are ordered. */
  lemma BytesRank(a: InternalKey, b: InternalKey)
    requires a.tag < TWO_TO_64 && b.tag < TWO_TO_64
    ensures KeyLess(a, b) <==> RANK(KeyBytes(a)) < RANK(KeyBytes(b))
  {
    hide KeyBytes, KeyOf, RankOf, KeyLess;
    KeyReads(a);
    KeyReads(b);
    RankIsOrder(a, b);
  }
}
