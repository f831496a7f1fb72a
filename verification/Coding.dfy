/** Variable-length integers and length-prefixed strings (util/coding.cc). */
module Coding {
  import opened Format

  function Pow128(n: nat): (p: nat)
    ensures p >= 1
  {
    if n == 0 then 1 else 128 * Pow128(n - 1)
  }

  /** Seven bits a byte, low bits first; all bytes but the last have the high bit set. */
  function Varint(v: nat): (bytes: seq<byte>)
    ensures bytes != []
  {
    if v < 128 then [v as byte] else [(v % 128 + 128) as byte] + Varint(v / 128)
  }

  /** The number at the front of the input, in at most `n` bytes, and what follows it. */
  function ReadVarint(input: seq<byte>, n: nat): (r: Option<(nat, seq<byte>)>)
    ensures r.Some? ==> |r.value.1| < |input|
    decreases n
  {
    if n == 0 || input == [] then None
    else if input[0] as nat < 128 then Some((input[0] as nat, input[1..]))
    else match ReadVarint(input[1..], n - 1)
      case None => None
      case Some((high, rest)) => Some((input[0] as nat - 128 + 128 * high, rest))
  }

  lemma {:induction false} VarintReads(v: nat, rest: seq<byte>, n: nat)
    requires n > 0 && v < Pow128(n)
    ensures ReadVarint(Varint(v) + rest, n) == Some((v, rest))
    decreases v
  {
    if v < 128 {
      assert (Varint(v) + rest)[1..] == rest;
    } else {
      assert n > 1 && v / 128 < Pow128(n - 1);
      VarintReads(v / 128, rest, n - 1);
      assert (Varint(v) + rest)[1..] == Varint(v / 128) + rest;
    }
  }

  const TWO_TO_32: nat := 0x1_0000_0000
  const TWO_TO_64: nat := 0x1_0000_0000_0000_0000

  lemma Widths()
    ensures TWO_TO_32 <= Pow128(5) && TWO_TO_64 <= Pow128(10)
  {
    assert Pow128(5) == 128 * 128 * 128 * 128 * 128 by {
      assert Pow128(2) == 128 * 128;
      assert Pow128(4) == 128 * 128 * Pow128(2);
    }
    assert Pow128(10) == 128 * 128 * 128 * 128 * 128 * Pow128(5) by {
      assert Pow128(7) == 128 * 128 * Pow128(5);
      assert Pow128(9) == 128 * 128 * Pow128(7);
    }
  }

  /** EncodeVarint64. */
  method PutVarint64(dst: seq<byte>, value: nat) returns (bytes: seq<byte>)
    requires value < TWO_TO_64
    ensures bytes == dst + Varint(value)
  {
    bytes := dst;
    var v := value;
    while v >= 128
      invariant bytes + Varint(v) == dst + Varint(value)
    {
      bytes := bytes + [(v % 128 + 128) as byte];
      v := v / 128;
    }
    bytes := bytes + [v as byte];
  }

  lemma VarintStep(v: nat)
    ensures Varint(v) == if v < 128 then [v as byte] else [(v % 128 + 128) as byte] + Varint(v / 128)
  {
  }

  lemma DivideAgain(v: nat)
    ensures v / 128 / 128 == v / 0x4000 && v / 0x4000 / 128 == v / 0x20_0000 && v / 0x20_0000 / 128 == v / 0x1000_0000
  {
  }

  /** EncodeVarint32, unrolled by hand. */
  method PutVarint32(dst: seq<byte>, v: nat) returns (bytes: seq<byte>)
    requires v < TWO_TO_32
    ensures bytes == dst + Varint(v)
  {
    hide Varint;
    DivideAgain(v);
    VarintStep(v);
    if v < 0x80 {
      return dst + [v as byte];
    }
    bytes := dst + [(v % 128 + 128) as byte];
    VarintStep(v / 128);
    if v < 0x4000 {
      return bytes + [(v / 128) as byte];
    }
    bytes := bytes + [(v / 128 % 128 + 128) as byte];
    VarintStep(v / 0x4000);
    if v < 0x20_0000 {
      return bytes + [(v / 0x4000) as byte];
    }
    bytes := bytes + [(v / 0x4000 % 128 + 128) as byte];
    VarintStep(v / 0x20_0000);
    if v < 0x1000_0000 {
      return bytes + [(v / 0x20_0000) as byte];
    }
    bytes := bytes + [(v / 0x20_0000 % 128 + 128) as byte];
    VarintStep(v / 0x1000_0000);
    bytes := bytes + [(v / 0x1000_0000) as byte];
  }

  function Modulus(wide: bool): nat {
    if wide then TWO_TO_64 else TWO_TO_32
  }

  function MaxBytes(wide: bool): nat {
    if wide then 10 else 5
  }

  /** What a 32-bit or 64-bit decoder makes of the front of the input. */
  function GetVarint(input: seq<byte>, wide: bool): (r: Option<(nat, seq<byte>)>)
    ensures r.Some? ==> |r.value.1| < |input| && r.value.0 < Modulus(wide)
  {
    match ReadVarint(input, MaxBytes(wide))
    case None => None
    case Some((v, rest)) => Some((v % Modulus(wide), rest))
  }

  /** What was written as a number of that width is read back. */
  lemma VarintRoundTrip(v: nat, rest: seq<byte>, wide: bool)
    requires v < Modulus(wide)
    ensures GetVarint(Varint(v) + rest, wide) == Some((v, rest))
  {
    hide ReadVarint, Varint, Pow128;
    Widths();
    VarintReads(v, rest, MaxBytes(wide));
  }

  /** Half way through a number: what was read so far, and the rest scaled. */
  ghost function Combined(value: nat, scale: nat, r: Option<(nat, seq<byte>)>, wide: bool): Option<(nat, seq<byte>)> {
    match r
    case None => None
    case Some((v, rest)) => Some(((value + scale * v) % Modulus(wide), rest))
  }

  lemma CombinedStep(input: seq<byte>, n: nat, value: nat, scale: nat, wide: bool)
    requires n > 0 && input != [] && input[0] >= 128
    ensures var low := (value + (input[0] as nat - 128) * scale) % Modulus(wide);
      Combined(value, scale, ReadVarint(input, n), wide) == Combined(low, scale * 128, ReadVarint(input[1..], n - 1), wide)
  {
    var low := input[0] as nat - 128;
    var r := ReadVarint(input[1..], n - 1);
    if r.Some? {
      Distribute(scale, low, r.value.0);
      ReduceEarly(value + low * scale, scale * 128 * r.value.0, wide);
    }
  }

  lemma CombinedStart(input: seq<byte>, wide: bool)
    ensures Combined(0, 1, ReadVarint(input, MaxBytes(wide)), wide) == GetVarint(input, wide)
  {
    hide ReadVarint;
  }

  lemma CombinedEnd(input: seq<byte>, n: nat, value: nat, scale: nat, wide: bool)
    requires n == 0 || input == [] || input[0] < 128
    ensures Combined(value, scale, ReadVarint(input, n), wide) ==
      if n == 0 || input == [] then None else Some(((value + input[0] as nat * scale) % Modulus(wide), input[1..]))
  {
  }

  lemma Distribute(scale: nat, low: nat, high: nat)
    ensures scale * (low + 128 * high) == low * scale + scale * 128 * high
  {
  }

  /** Reducing early changes nothing in the end. */
  lemma ReduceEarly(a: nat, b: nat, wide: bool)
    ensures (a % Modulus(wide) + b) % Modulus(wide) == (a + b) % Modulus(wide)
  {
  }

  /** GetVarint64Ptr, and GetVarint32PtrFallback. */
  method DecodeVarint(input: seq<byte>, wide: bool) returns (result: Option<(nat, seq<byte>)>)
    ensures result == GetVarint(input, wide)
  {
    hide ReadVarint, Combined;
    var value: nat, scale: nat, p: nat := 0, 1, 0;
    CombinedStart(input, wide);
    assert input[0..] == input;
    while p < MaxBytes(wide) && p < |input|
      invariant p <= MaxBytes(wide) && p <= |input|
      invariant GetVarint(input, wide) == Combined(value, scale, ReadVarint(input[p..], MaxBytes(wide) - p), wide)
    {
      var b := input[p] as nat;
      assert input[p..][1..] == input[p + 1..];
      if b >= 128 {
        CombinedStep(input[p..], MaxBytes(wide) - p, value, scale, wide);
        value := (value + (b - 128) * scale) % Modulus(wide);
      } else {
        CombinedEnd(input[p..], MaxBytes(wide) - p, value, scale, wide);
        return Some(((value + b * scale) % Modulus(wide), input[p + 1..]));
      }
      p := p + 1;
      scale := scale * 128;
    }
    CombinedEnd(input[p..], MaxBytes(wide) - p, value, scale, wide);
    return None;
  }

  lemma ShortVarint(v: nat)
    requires v < TWO_TO_32
    ensures |Varint(v)| <= 5
  {
    VarintStep(v);
    VarintStep(v / 128);
    VarintStep(v / 128 / 128);
    VarintStep(v / 128 / 128 / 128);
    VarintStep(v / 128 / 128 / 128 / 128);
  }

  lemma LongVarint(v: nat)
    requires v < TWO_TO_64
    ensures |Varint(v)| <= 10
  {
    hide Varint;
    VarintStep(v);
    VarintStep(v / 128);
    VarintStep(v / 128 / 128);
    VarintStep(v / 128 / 128 / 128);
    VarintStep(v / 128 / 128 / 128 / 128);
    ShortVarint(v / 128 / 128 / 128 / 128 / 128);
  }

  /** PutLengthPrefixedSlice. */
  function LengthPrefixed(s: seq<byte>): seq<byte> {
    Varint(|s|) + s
  }

  /** GetLengthPrefixedSlice. */
  function GetLengthPrefixed(input: seq<byte>): (r: Option<(seq<byte>, seq<byte>)>)
    ensures r.Some? ==> |r.value.1| < |input|
  {
    match GetVarint(input, false)
    case None => None
    case Some((len, rest)) => if len <= |rest| then Some((rest[..len], rest[len..])) else None
  }

  lemma LengthPrefixedReads(s: seq<byte>, rest: seq<byte>)
    requires |s| < TWO_TO_32
    ensures GetLengthPrefixed(LengthPrefixed(s) + rest) == Some((s, rest))
  {
    VarintRoundTrip(|s|, s + rest, false);
    assert LengthPrefixed(s) + rest == Varint(|s|) + (s + rest);
    assert (s + rest)[..|s|] == s && (s + rest)[|s|..] == rest;
  }

  function EncodeFixed32(n: nat): (bytes: seq<byte>)
    requires n < TWO_TO_32
    ensures |bytes| == 4
  {
    [(n % 256) as byte, (n / 256 % 256) as byte, (n / 0x1_0000 % 256) as byte, (n / 0x100_0000) as byte]
  }

  function DecodeFixed32(bytes: seq<byte>): (n: nat)
    requires |bytes| >= 4
    ensures n < TWO_TO_32
  {
    bytes[0] as nat + 256 * bytes[1] as nat + 0x1_0000 * bytes[2] as nat + 0x100_0000 * bytes[3] as nat
  }

  lemma Fixed32RoundTrip(n: nat)
    requires n < TWO_TO_32
    ensures DecodeFixed32(EncodeFixed32(n)) == n
  {
    assert n / 0x1_0000 == n / 256 / 256 && n / 0x100_0000 == n / 256 / 256 / 256;
  }

  lemma DecodePrefix(bytes: seq<byte>, first: seq<byte>)
    requires |first| == 4 && first <= bytes
    ensures DecodeFixed32(bytes) == DecodeFixed32(first)
  {
    assert bytes[0] == first[0] && bytes[1] == first[1] && bytes[2] == first[2] && bytes[3] == first[3];
  }

  function EncodeFixed64(n: nat): (bytes: seq<byte>)
    requires n < TWO_TO_64
    ensures |bytes| == 8
  {
    EncodeFixed32(n % TWO_TO_32) + EncodeFixed32(n / TWO_TO_32)
  }

  function DecodeFixed64(bytes: seq<byte>): (n: nat)
    requires |bytes| >= 8
    ensures n < TWO_TO_64
  {
    DecodeFixed32(bytes[..4]) + TWO_TO_32 * DecodeFixed32(bytes[4..])
  }

  lemma Fixed64RoundTrip(n: nat)
    requires n < TWO_TO_64
    ensures DecodeFixed64(EncodeFixed64(n)) == n
  {
    hide EncodeFixed32, DecodeFixed32;
    Fixed32RoundTrip(n % TWO_TO_32);
    Fixed32RoundTrip(n / TWO_TO_32);
    assert EncodeFixed64(n)[..4] == EncodeFixed32(n % TWO_TO_32) && EncodeFixed64(n)[4..] == EncodeFixed32(n / TWO_TO_32);
  }
}
