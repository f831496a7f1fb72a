/** How far a decoder reads, whatever the bytes are: numbers, fields and the tags of a message
    (nanopb/pb_decode.c). */
module Scanning {
  import opened Format
  import opened Coding
  import opened Messages

  // ----- 32-bit numbers

  function Pow2(n: nat): (p: nat)
    ensures p > 0
  {
    if n == 0 then 1 else 2 * Pow2(n - 1)
  }

  /** The bitwise or of two numbers. */
  function OrBits(a: nat, b: nat): nat
    decreases a + b
  {
    if a == 0 && b == 0 then 0 else 2 * OrBits(a / 2, b / 2) + if a % 2 == 1 || b % 2 == 1 then 1 else 0
  }

  lemma {:induction false} OrBelow(a: nat, b: nat, n: nat)
    requires a < Pow2(n) && b < Pow2(n)
    ensures OrBits(a, b) < Pow2(n)
    decreases n
  {
    if n > 0 {
      OrBelow(a / 2, b / 2, n - 1);
    }
  }

  lemma {:induction false} OrZero(b: nat)
    ensures OrBits(0, b) == b
    decreases b
  {
    if b > 0 {
      OrZero(b / 2);
    }
  }

  /** Where no bits overlap, the or is the sum. */
  lemma {:induction false} OrIsSum(a: nat, s: nat, k: nat)
    requires a < Pow2(k)
    ensures OrBits(a, s * Pow2(k)) == a + s * Pow2(k)
    decreases k
  {
    if k == 0 {
      OrZero(s);
    } else {
      assert s * Pow2(k) == 2 * (s * Pow2(k - 1));
      OrIsSum(a / 2, s, k - 1);
    }
  }

  lemma Powers()
    ensures Pow2(0) == 1 && Pow2(7) == 0x80 && Pow2(14) == 0x4000 && Pow2(21) == 0x20_0000 && Pow2(28) == 0x1000_0000 && Pow2(32) == TWO_TO_32
  {
    assert Pow2(7) == 8 * Pow2(4) && Pow2(14) == 0x80 * Pow2(7) && Pow2(21) == 0x80 * Pow2(14) && Pow2(28) == 0x80 * Pow2(21) by {
      PowersAdd(7, 7);
      PowersAdd(14, 7);
      PowersAdd(21, 7);
      assert Pow2(4) == 4 * Pow2(2);
      PowersAdd(3, 4);
    }
    PowersAdd(28, 4);
  }

  lemma {:induction false} PowersAdd(a: nat, b: nat)
    ensures Pow2(a + b) == Pow2(a) * Pow2(b)
    decreases b
  {
    if b > 0 {
      PowersAdd(a, b - 1);
    }
  }

  /** Seven more bits, in 32-bit arithmetic. */
  function Accumulate(result: nat, septet: nat, bitpos: nat): nat {
    OrBits(result, septet * Pow2(bitpos) % TWO_TO_32)
  }

  lemma AccumulateFits(result: nat, septet: nat, bitpos: nat)
    requires result < TWO_TO_32
    ensures Accumulate(result, septet, bitpos) < TWO_TO_32
  {
    Powers();
    OrBelow(result, septet * Pow2(bitpos) % TWO_TO_32, 32);
  }

  /** pb_decode_varint32 from some byte on: any number of bytes, as long as those past the 32 bits
      only repeat the sign.  The bit position is an 8-bit number. */
  function Read32(input: seq<byte>, bitpos: nat, result: nat): (r: Option<(nat, seq<byte>)>)
    ensures r.Some? ==> |r.value.1| < |input|
    decreases |input|
  {
    if input == [] then None
    else
      var b, septet := input[0] as nat, input[0] as nat % 128;
      if bitpos >= 32 && septet != 0 && (result / 0x8000_0000 == 0 || b != if bitpos < 63 then 0xFF else 0x01) then None
      else
        var more := if bitpos >= 32 then result else Accumulate(result, septet, bitpos);
        var next := (bitpos + 7) % 256;
        if b >= 128 then Read32(input[1..], next, more)
        else if next == 35 && b / 16 % 8 != 0 then None
        else Some((more, input[1..]))
  }

  lemma Read32Step(input: seq<byte>, bitpos: nat, result: nat)
    requires input != []
    ensures var b, septet := input[0] as nat, input[0] as nat % 128;
      var more := if bitpos >= 32 then result else Accumulate(result, septet, bitpos);
      var next := (bitpos + 7) % 256;
      Read32(input, bitpos, result) ==
        if bitpos >= 32 && septet != 0 && (result / 0x8000_0000 == 0 || b != if bitpos < 63 then 0xFF else 0x01) then None
        else if b >= 128 then Read32(input[1..], next, more)
        else if next == 35 && b / 16 % 8 != 0 then None
        else Some((more, input[1..]))
  {
  }

  /** The byte at place `k`, in a number that fits so far or in one that is read in the end. */
  lemma Read32At(input: seq<byte>, k: nat, result: nat)
    requires input != [] && k <= 10
    requires k < 4 || (k == 4 && (input[0] >= 128 || input[0] < 16)) || Read32(input, 7 * k, result).Some?
    ensures var more := if k <= 4 then Accumulate(result, input[0] as nat % 128, 7 * k) else result;
      Read32(input, 7 * k, result) == if input[0] >= 128 then Read32(input[1..], 7 * (k + 1), more) else Some((more, input[1..]))
  {
    Read32Step(input, 7 * k, result);
    hide Read32, Accumulate;
    var bitpos := 7 * k;
    assert (bitpos + 7) % 256 == 7 * (k + 1) && (bitpos >= 32 <==> k > 4) && (bitpos + 7 == 35 <==> k == 4);
  }

  lemma ReadVarintStep(input: seq<byte>, n: nat)
    requires n > 0 && input != []
    ensures input[0] < 128 ==> ReadVarint(input, n) == Some((input[0] as nat, input[1..]))
    ensures input[0] >= 128 ==> (ReadVarint(input, n).Some? <==> ReadVarint(input[1..], n - 1).Some?)
    ensures input[0] >= 128 && ReadVarint(input, n).Some? ==>
      ReadVarint(input, n).value == (input[0] as nat % 128 + 128 * ReadVarint(input[1..], n - 1).value.0, ReadVarint(input[1..], n - 1).value.1)
  {
  }

  function GetVarint32(input: seq<byte>): (r: Option<(nat, seq<byte>)>)
    ensures r.Some? ==> |r.value.1| < |input|
  {
    Read32(input, 0, 0)
  }

  lemma {:induction false} Read32Fits(input: seq<byte>, bitpos: nat, result: nat)
    requires result < TWO_TO_32
    ensures Read32(input, bitpos, result).Some? ==> Read32(input, bitpos, result).value.0 < TWO_TO_32
    decreases |input|
  {
    hide Accumulate;
    if input != [] {
      var more := if bitpos >= 32 then result else Accumulate(result, input[0] as nat % 128, bitpos);
      AccumulateFits(result, input[0] as nat % 128, bitpos);
      Read32Fits(input[1..], (bitpos + 7) % 256, more);
    }
  }

  /** The weight of the byte at place `k`. */
  function Weight(k: nat): (w: nat)
    requires k <= 5
  {
    if k == 0 then 1 else if k == 1 then 0x80 else if k == 2 then 0x4000 else if k == 3 then 0x20_0000
    else if k == 4 then 0x1000_0000 else 0x8_0000_0000
  }

  /** What a byte adds to a number that is `7 * k` bits long. */
  lemma Accumulated(result: nat, septet: nat, k: nat)
    requires k <= 4 && result < Weight(k) && septet < 128
    ensures Accumulate(result, septet, 7 * k) == (result + septet * Weight(k)) % TWO_TO_32
    ensures k < 4 ==> Accumulate(result, septet, 7 * k) == result + septet * Weight(k) < Weight(k + 1)
  {
    var fits := if k < 4 then septet else septet % 16;
    WeightIs(k);
    Truncated(septet, k);
    OrIsSum(result, fits, 7 * k);
    hide Pow2, OrBits;
    Carry(result, septet, k);
  }

  lemma WeightIs(k: nat)
    requires k <= 4
    ensures Pow2(7 * k) == Weight(k)
  {
    Powers();
    hide Pow2;
    assert k == 0 || k == 1 || k == 2 || k == 3 || k == 4;
  }

  lemma Truncated(septet: nat, k: nat)
    requires k <= 4 && septet < 128
    ensures septet * Weight(k) % TWO_TO_32 == (if k < 4 then septet else septet % 16) * Weight(k)
  {
    assert k == 0 || k == 1 || k == 2 || k == 3 || k == 4;
  }

  lemma Carry(result: nat, septet: nat, k: nat)
    requires k <= 4 && result < Weight(k) && septet < 128
    ensures (result + septet * Weight(k)) % TWO_TO_32 == result + (if k < 4 then septet else septet % 16) * Weight(k)
    ensures k < 4 ==> result + septet * Weight(k) < Weight(k + 1)
  {
    assert k == 0 || k == 1 || k == 2 || k == 3 || k == 4;
  }

  /** Half way through a number that fits: `v` is what the bytes still to come stand for. */
  ghost predicate Reading(n: nat, v: nat, k: nat, result: nat) {
    k <= 4 && result < Weight(k) && n == result + v * Weight(k) < TWO_TO_32
  }

  lemma HighWeight(septet: nat, high: nat, k: nat)
    requires k <= 4
    ensures (septet + 128 * high) * Weight(k) == septet * Weight(k) + high * Weight(k + 1)
  {
    if k == 0 {
    } else if k == 1 {
    } else if k == 2 {
    } else if k == 3 {
    }
  }

  lemma ReadingStep(n: nat, v: nat, k: nat, result: nat)
    requires Reading(n, v, k, result)
    ensures k <= 4 && result < TWO_TO_32
    ensures v >= 128 ==> Reading(n, v / 128, k + 1, Accumulate(result, v % 128, 7 * k))
    ensures v < 128 ==> Accumulate(result, v, 7 * k) == n && (k == 4 ==> v < 16)
  {
    Accumulated(result, v % 128, k);
    HighWeight(v % 128, v / 128, k);
    hide Accumulate;
    if k == 4 {
      assert v < 16;
      assert v % 128 == v;
    } else {
      hide Weight;
      assert v == v % 128 + 128 * (v / 128);
    }
  }

  lemma FirstByte(v: nat, tail: seq<byte>)
    ensures var input := Varint(v) + tail;
      && input != [] && input[0] as nat % 128 == v % 128 && (input[0] >= 128 <==> v >= 128) && (v < 128 ==> input[0] as nat == v)
      && input[1..] == if v < 128 then tail else Varint(v / 128) + tail
  {
    VarintStep(v);
    hide Varint;
  }

  /** A number that fits is read back. */
  lemma {:induction false} Read32Number(n: nat, v: nat, k: nat, result: nat, tail: seq<byte>)
    requires Reading(n, v, k, result)
    ensures Read32(Varint(v) + tail, 7 * k, result) == Some((n, tail))
    decreases v
  {
    ReadingStep(n, v, k, result);
    FirstByte(v, tail);
    Read32At(Varint(v) + tail, k, result);
    hide *;
    if v >= 128 {
      Read32Number(n, v / 128, k + 1, Accumulate(result, v % 128, 7 * k), tail);
    }
  }

  lemma Varint32Reads(n: nat, tail: seq<byte>)
    requires n < TWO_TO_32
    ensures GetVarint32(Varint(n) + tail) == Some((n, tail))
  {
    Read32Number(n, n, 0, 0, tail);
  }

  /** What a number comes to when its bytes from place `k` on stand for `v`. */
  function Final(result: nat, v: nat, k: nat): nat {
    if k <= 4 then (result + v * Weight(k)) % TWO_TO_32 else result
  }

  /** The number so far fits below place `k`, and in 32 bits. */
  ghost predicate SoFar(result: nat, k: nat) {
    result < TWO_TO_32 && (k <= 4 ==> result < Weight(k))
  }

  lemma FinalStep(result: nat, septet: nat, high: nat, k: nat)
    requires SoFar(result, k) && septet < 128
    ensures var more := if k <= 4 then Accumulate(result, septet, 7 * k) else result;
      SoFar(more, k + 1) && Final(result, septet + 128 * high, k) == Final(more, high, k + 1) && Final(more, 0, k + 1) == more
  {
    hide Accumulate;
    if k < 4 {
      FinalLow(result, septet, high, k);
    } else if k == 4 {
      FinalTop(result, septet, high);
    }
  }

  lemma FinalLow(result: nat, septet: nat, high: nat, k: nat)
    requires SoFar(result, k) && septet < 128 && k < 4
    ensures var more := Accumulate(result, septet, 7 * k);
      SoFar(more, k + 1) && Final(result, septet + 128 * high, k) == Final(more, high, k + 1) && Final(more, 0, k + 1) == more
  {
    AccumulateFits(result, septet, 7 * k);
    Accumulated(result, septet, k);
    HighWeight(septet, high, k);
    hide Accumulate, Weight;
  }

  lemma FinalTop(result: nat, septet: nat, high: nat)
    requires SoFar(result, 4) && septet < 128
    ensures var more := Accumulate(result, septet, 28);
      SoFar(more, 5) && Final(result, septet + 128 * high, 4) == Final(more, high, 5) && Final(more, 0, 5) == more
  {
    AccumulateFits(result, septet, 28);
    Accumulated(result, septet, 4);
    HighWeight(septet, high, 4);
    WrapsAround(result + septet * Weight(4), high);
    hide Accumulate, Weight;
  }

  lemma WrapsAround(low: nat, high: nat)
    ensures (low + high * Weight(5)) % TWO_TO_32 == low % TWO_TO_32
  {
    assert high * Weight(5) == 8 * high * TWO_TO_32;
  }

  /** If both readers come to an end, they have read the same, up to what is lost above 32 bits. */
  ghost predicate Agree(input: seq<byte>, k: nat, result: nat) {
    k <= 10 && (Read32(input, 7 * k, result).Some? && ReadVarint(input, 10 - k).Some? ==>
      Read32(input, 7 * k, result).value == (Final(result, ReadVarint(input, 10 - k).value.0, k), ReadVarint(input, 10 - k).value.1))
  }

  lemma AgreeLast(input: seq<byte>, k: nat, result: nat)
    requires SoFar(result, k) && k <= 10 && (input == [] || k == 10 || input[0] < 128)
    ensures Agree(input, k, result)
  {
    if input != [] && k < 10 && Read32(input, 7 * k, result).Some? {
      Read32At(input, k, result);
      ReadVarintStep(input, 10 - k);
      FinalStep(result, input[0] as nat, 0, k);
      hide Read32, ReadVarint, Final, Accumulate, SoFar;
    }
  }

  lemma AgreeStep(input: seq<byte>, k: nat, result: nat, more: nat)
    requires SoFar(result, k) && k < 10 && input != [] && input[0] >= 128
    requires more == (if k <= 4 then Accumulate(result, input[0] as nat % 128, 7 * k) else result) && Agree(input[1..], k + 1, more)
    ensures Agree(input, k, result)
  {
    if Read32(input, 7 * k, result).Some? && ReadVarint(input, 10 - k).Some? {
      Read32At(input, k, result);
      ReadVarintStep(input, 10 - k);
      FinalStep(result, input[0] as nat % 128, ReadVarint(input[1..], 9 - k).value.0, k);
      hide Read32, ReadVarint, Final, Accumulate, SoFar;
    }
  }

  /** In at most ten bytes, what is read is the number they stand for, modulo 2^32. */
  lemma {:induction false} Read32Value(input: seq<byte>, k: nat, result: nat)
    requires k <= 10 && SoFar(result, k)
    ensures Agree(input, k, result)
    decreases |input|
  {
    hide *;
    if input == [] || k == 10 || input[0] < 128 {
      AgreeLast(input, k, result);
    } else {
      var more := if k <= 4 then Accumulate(result, input[0] as nat % 128, 7 * k) else result;
      FinalStep(result, input[0] as nat % 128, 0, k);
      Read32Value(input[1..], k + 1, more);
      AgreeStep(input, k, result, more);
    }
  }

  lemma Varint32Value(input: seq<byte>)
    requires GetVarint32(input).Some? && ReadVarint(input, 10).Some?
    ensures GetVarint32(input) == Some((ReadVarint(input, 10).value.0 % TWO_TO_32, ReadVarint(input, 10).value.1))
  {
    hide Read32, ReadVarint;
    Read32Value(input, 0, 0);
  }

  // ----- how far a field reaches

  /** A length and that many bytes. */
  function GetPrefixed(input: seq<byte>): (r: Option<(seq<byte>, seq<byte>)>)
    ensures r.Some? ==> |r.value.0| + |r.value.1| < |input|
  {
    match GetVarint32(input)
    case None => None
    case Some((size, rest)) => if size <= |rest| then Some((rest[..size], rest[size..])) else None
  }

  /** What follows a number of any length. */
  function AfterVarint(input: seq<byte>): (r: Option<seq<byte>>)
    ensures r.Some? ==> |r.value| < |input|
  {
    if input == [] then None else if input[0] < 128 then Some(input[1..]) else AfterVarint(input[1..])
  }

  function AfterPrefixed(input: seq<byte>): (r: Option<seq<byte>>)
    ensures r.Some? ==> |r.value| < |input|
  {
    match GetPrefixed(input)
    case None => None
    case Some((_, rest)) => Some(rest)
  }

  function AfterBytes(input: seq<byte>, n: nat): (r: Option<seq<byte>>)
    ensures r.Some? ==> |r.value| <= |input|
  {
    if n <= |input| then Some(input[n..]) else None
  }

  /** What follows an unknown field of that wire type. */
  function AfterSkipped(input: seq<byte>, wire: nat): (r: Option<seq<byte>>)
    ensures r.Some? ==> |r.value| <= |input|
  {
    if wire == 0 then AfterVarint(input)
    else if wire == 1 then AfterBytes(input, 8)
    else if wire == 2 then AfterPrefixed(input)
    else if wire == 5 then AfterBytes(input, 4)
    else None
  }

  /** What follows a value of that type; the decoder goes by the type, not by the wire type. */
  function AfterValue(input: seq<byte>, t: LType): (r: Option<seq<byte>>)
    ensures r.Some? ==> |r.value| <= |input|
  {
    match t
    case LBool => (match GetVarint32(input) case None => None case Some((_, rest)) => Some(rest))
    case LVarint(_) => (match GetVarint(input, true) case None => None case Some((_, rest)) => Some(rest))
    case LUVarint(_) => (match GetVarint(input, true) case None => None case Some((_, rest)) => Some(rest))
    case LSVarint(_) => (match GetVarint(input, true) case None => None case Some((_, rest)) => Some(rest))
    case LFixed32 => AfterBytes(input, 4)
    case LFixed64 => AfterBytes(input, 8)
    case _ => AfterPrefixed(input)
  }

  /** What follows an occurrence of a field: a packed array, or one value. */
  function AfterField(input: seq<byte>, f: Field, wire: nat): (r: Option<seq<byte>>)
    ensures r.Some? ==> |r.value| <= |input|
  {
    if (f.htype.HRepeated? || f.htype.HFixedCount?) && wire == 2 && Packable(f.ltype) then AfterPrefixed(input) else AfterValue(input, f.ltype)
  }

  ghost predicate Distinct(fields: seq<Field>) {
    forall i, j :: 0 <= i < j < |fields| ==> fields[i].tag != fields[j].tag
  }

  ghost predicate Has(fields: seq<Field>, tag: nat) {
    exists i :: 0 <= i < |fields| && fields[i].tag == tag
  }

  /** What follows what comes after a tag. */
  ghost function AfterTagged(input: seq<byte>, fields: seq<Field>, tag: nat, wire: nat): (r: Option<seq<byte>>)
    ensures r.Some? ==> |r.value| <= |input|
  {
    if Has(fields, tag) then
      var i :| 0 <= i < |fields| && fields[i].tag == tag;
      AfterField(input, fields[i], wire)
    else AfterSkipped(input, wire)
  }

  /** The tags at the top level of a message, up to its end or a zero tag. */
  ghost function TopTags(input: seq<byte>, fields: seq<Field>): set<nat>
    decreases |input|
  {
    match GetVarint32(input)
    case None => {}
    case Some((n, rest)) =>
      if n == 0 then {}
      else match AfterTagged(rest, fields, n / 8, n % 8)
        case None => {n / 8}
        case Some(rest') => {n / 8} + TopTags(rest', fields)
  }

  lemma TopTagsStep(input: seq<byte>, fields: seq<Field>, n: nat, rest: seq<byte>)
    requires GetVarint32(input) == Some((n, rest)) && n != 0
    ensures n / 8 in TopTags(input, fields)
    ensures AfterTagged(rest, fields, n / 8, n % 8).Some? ==> TopTags(AfterTagged(rest, fields, n / 8, n % 8).value, fields) <= TopTags(input, fields)
  {
  }

  lemma AfterKnown(input: seq<byte>, fields: seq<Field>, i: nat, wire: nat)
    requires Distinct(fields) && i < |fields|
    ensures AfterTagged(input, fields, fields[i].tag, wire) == AfterField(input, fields[i], wire)
  {
    var j :| 0 <= j < |fields| && fields[j].tag == fields[i].tag && AfterTagged(input, fields, fields[i].tag, wire) == AfterField(input, fields[j], wire);
  }
}
