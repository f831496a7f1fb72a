/** Physical records of the write-ahead log (db/log_format.h, util/crc32c.h, util/coding.h). */
module LogFormat {
  import opened Format
  import opened Coding

  const BLOCK_SIZE: nat := 32768
  const HEADER_SIZE: nat := 7

  datatype RecordType = Full | First | Middle | Last

  function TypeCode(t: RecordType): byte {
    match t
    case Full => 1
    case First => 2
    case Middle => 3
    case Last => 4
  }

  function Xor(x: bv32, y: bv32): bv32 {
    x ^ y
  }

  /** One bit of CRC-32C, with the reflected Castagnoli polynomial. */
  function CrcStep(crc: bv32): bv32 {
    (crc >> 1) ^ (if crc & 1 == 1 then 0x82f63b78 else 0)
  }

  function CrcBits(crc: bv32, n: nat): bv32
    decreases n
  {
    if n == 0 then crc else CrcBits(CrcStep(crc), n - 1)
  }

  function Bits(b: byte): bv32 {
    (b as bv8) as bv32
  }

  function CrcByte(crc: bv32, b: byte): bv32 {
    CrcBits(Xor(crc, Bits(b)), 8)
  }

  function CrcRun(crc: bv32, data: seq<byte>): bv32
    decreases |data|
  {
    if data == [] then crc else CrcRun(CrcByte(crc, data[0]), data[1..])
  }

  function Complement(x: bv32): bv32 {
    !x
  }

  /** crc32c::Extend. */
  function Extend(crc: bv32, data: seq<byte>): bv32 {
    Complement(CrcRun(Complement(crc), data))
  }

  /** crc32c::Value. */
  function Crc(data: seq<byte>): bv32 {
    Extend(0, data)
  }

  lemma {:induction false} CrcRunConcat(crc: bv32, a: seq<byte>, b: seq<byte>)
    ensures CrcRun(CrcRun(crc, a), b) == CrcRun(crc, a + b)
    decreases |a|
  {
    hide CrcByte;
    if a == [] {
      assert a + b == b;
    } else {
      assert (a + b)[1..] == a[1..] + b;
      CrcRunConcat(CrcByte(crc, a[0]), a[1..], b);
    }
  }

  lemma ComplementTwice(x: bv32)
    ensures Complement(Complement(x)) == x
  {
  }

  /** A checksum can be taken of the type first and of the payload later. */
  lemma ExtendConcat(crc: bv32, a: seq<byte>, b: seq<byte>)
    ensures Extend(Extend(crc, a), b) == Extend(crc, a + b)
  {
    hide Complement, CrcRun;
    CrcRunConcat(Complement(crc), a, b);
    ComplementTwice(CrcRun(Complement(crc), a));
  }

  // ----- what the checksum notices

  lemma BitsSame(n: int, m: int)
    requires 0 <= n < 256 && 0 <= m < 256 && n as bv8 == m as bv8
    ensures n % 2 == m % 2 && n / 2 % 2 == m / 2 % 2 && n / 4 % 2 == m / 4 % 2 && n / 8 % 2 == m / 8 % 2
    ensures n / 16 % 2 == m / 16 % 2 && n / 32 % 2 == m / 32 % 2 && n / 64 % 2 == m / 64 % 2 && n / 128 % 2 == m / 128 % 2
  {
  }

  lemma Halved(n: int, k: int)
    requires k == 1 || k == 2 || k == 4 || k == 8 || k == 16 || k == 32 || k == 64 || k == 128
    ensures n / k == 2 * (n / (2 * k)) + n / k % 2
  {
    if k == 1 {} else if k == 2 {} else if k == 4 {} else if k == 8 {} else if k == 16 {} else if k == 32 {} else if k == 64 {} else {}
  }

  lemma NextBit(n: int, m: int, k: int)
    requires k == 1 || k == 2 || k == 4 || k == 8 || k == 16 || k == 32 || k == 64 || k == 128
    requires n / (2 * k) == m / (2 * k) && n / k % 2 == m / k % 2
    ensures n / k == m / k
  {
    Halved(n, k);
    Halved(m, k);
  }

  lemma HighBits(n: int, m: int)
    requires 0 <= n < 256 && 0 <= m < 256
    requires n / 16 % 2 == m / 16 % 2 && n / 32 % 2 == m / 32 % 2 && n / 64 % 2 == m / 64 % 2 && n / 128 % 2 == m / 128 % 2
    ensures n / 16 == m / 16
  {
    NextBit(n, m, 128);
    NextBit(n, m, 64);
    NextBit(n, m, 32);
    NextBit(n, m, 16);
  }

  lemma LowBits(n: int, m: int)
    requires n / 16 == m / 16
    requires n % 2 == m % 2 && n / 2 % 2 == m / 2 % 2 && n / 4 % 2 == m / 4 % 2 && n / 8 % 2 == m / 8 % 2
    ensures n == m
  {
    NextBit(n, m, 8);
    NextBit(n, m, 4);
    NextBit(n, m, 2);
    NextBit(n, m, 1);
  }

  /** Eight bits make a byte. */
  lemma AllBits(n: int, m: int)
    requires 0 <= n < 256 && 0 <= m < 256
    requires n % 2 == m % 2 && n / 2 % 2 == m / 2 % 2 && n / 4 % 2 == m / 4 % 2 && n / 8 % 2 == m / 8 % 2
    requires n / 16 % 2 == m / 16 % 2 && n / 32 % 2 == m / 32 % 2 && n / 64 % 2 == m / 64 % 2 && n / 128 % 2 == m / 128 % 2
    ensures n == m
  {
    HighBits(n, m);
    LowBits(n, m);
  }

  lemma ByteInjective(b: byte, c: byte)
    requires b as bv8 == c as bv8
    ensures b == c
  {
    BitsSame(b as int, c as int);
    AllBits(b as int, c as int);
  }

  lemma StepInjective(x: bv32, y: bv32)
    requires CrcStep(x) == CrcStep(y)
    ensures x == y
  {
  }

  lemma {:induction false} StepsInjective(x: bv32, y: bv32, n: nat)
    requires CrcBits(x, n) == CrcBits(y, n)
    ensures x == y
    decreases n
  {
    hide CrcStep;
    if n > 0 {
      StepsInjective(CrcStep(x), CrcStep(y), n - 1);
      StepInjective(x, y);
    }
  }

  lemma XorInjective(x: bv32, y: bv32, z: bv32)
    ensures Xor(x, z) == Xor(y, z) ==> x == y
    ensures Xor(z, x) == Xor(z, y) ==> x == y
  {
  }

  lemma {:induction false} RunInjective(x: bv32, y: bv32, data: seq<byte>)
    requires CrcRun(x, data) == CrcRun(y, data)
    ensures x == y
    decreases |data|
  {
    hide Xor, Bits, CrcBits;
    if data != [] {
      RunInjective(CrcByte(x, data[0]), CrcByte(y, data[0]), data[1..]);
      StepsInjective(Xor(x, Bits(data[0])), Xor(y, Bits(data[0])), 8);
      XorInjective(x, y, Bits(data[0]));
    }
  }

  lemma {:induction false} StepsAdd(x: bv32, m: nat, n: nat)
    ensures CrcBits(CrcBits(x, m), n) == CrcBits(x, m + n)
    decreases m
  {
    hide CrcStep;
    if m > 0 {
      StepsAdd(CrcStep(x), m - 1, n);
    }
  }

  function Double(x: bv32): bv32 {
    x << 1
  }

  function Shift(w: bv32, n: nat): bv32
    decreases n
  {
    if n == 0 then w else Shift(Double(w), n - 1)
  }

  /** Shifting by `n` loses nothing. */
  predicate Room(w: bv32, n: nat)
    decreases n
  {
    n == 0 || (w < 0x8000_0000 && Room(Double(w), n - 1))
  }

  lemma Doubled(w: bv32)
    requires w < 0x100_0000
    ensures w < 0x8000_0000 && Double(w) < 0x8000_0000 && Double(Double(w)) < 0x8000_0000
    ensures Double(Double(Double(w))) < 0x8000_0000 && Double(Double(Double(Double(w)))) < 0x8000_0000
    ensures Double(Double(Double(Double(Double(w))))) < 0x8000_0000
    ensures Double(Double(Double(Double(Double(Double(w)))))) < 0x8000_0000
    ensures Double(Double(Double(Double(Double(Double(Double(w))))))) < 0x8000_0000
    ensures Double(Double(Double(Double(Double(Double(Double(Double(w)))))))) == w << 8
  {
  }

  lemma ShiftEight(w: bv32)
    requires w < 0x100_0000
    ensures Shift(w, 8) == w << 8 && Room(w, 8)
  {
    Doubled(w);
    hide Double;
    var a := Double(Double(w));
    var b := Double(Double(a));
    var c := Double(Double(b));
    var d := Double(Double(c));
    assert Shift(w, 8) == Shift(a, 6) == Shift(b, 4) == Shift(c, 2) == Shift(d, 0);
    assert Room(d, 0) && Room(c, 2) && Room(b, 4) && Room(a, 6);
  }

  lemma StepOverDoubled(x: bv32, w: bv32)
    requires w < 0x8000_0000
    ensures CrcStep(x ^ (w << 1)) == CrcStep(x) ^ w
  {
  }

  lemma StepOver(x: bv32, w: bv32)
    requires w < 0x8000_0000
    ensures CrcStep(Xor(x, Double(w))) == Xor(CrcStep(x), w)
  {
    StepOverDoubled(x, w);
    hide CrcStep;
  }

  /** Bits that are not reached yet are only moved down. */
  lemma {:induction false} StepsOver(x: bv32, w: bv32, n: nat)
    requires Room(w, n)
    ensures CrcBits(Xor(x, Shift(w, n)), n) == Xor(CrcBits(x, n), w)
    decreases n
  {
    hide CrcStep, Xor, Double;
    if n > 0 {
      StepsOver(x, Double(w), n - 1);
      StepsAdd(Xor(x, Shift(w, n)), n - 1, 1);
      StepsAdd(x, n - 1, 1);
      StepOver(CrcBits(x, n - 1), w);
    }
  }

  function Join(b: byte, w: bv32): bv32 {
    Xor(Bits(b), w << 8)
  }

  /** Up to four bytes as one little-endian number. */
  function Word(data: seq<byte>): bv32 {
    if data == [] then 0 else Join(data[0], Word(data[1..]))
  }

  lemma JoinFits(b: byte, u: bv32)
    ensures u == 0 ==> Join(b, u) < 0x100
    ensures u < 0x100 ==> Join(b, u) < 0x1_0000
    ensures u < 0x1_0000 ==> Join(b, u) < 0x100_0000
  {
  }

  lemma {:induction false} WordFits(data: seq<byte>)
    requires |data| <= 3
    ensures |data| == 0 ==> Word(data) == 0
    ensures |data| <= 1 ==> Word(data) < 0x100
    ensures |data| <= 2 ==> Word(data) < 0x1_0000
    ensures Word(data) < 0x100_0000
  {
    hide Join;
    if |data| > 0 {
      WordFits(data[1..]);
      JoinFits(data[0], Word(data[1..]));
    }
  }

  lemma XorJoin(crc: bv32, b: byte, w: bv32)
    ensures Xor(crc, Join(b, w)) == Xor(Xor(crc, Bits(b)), w << 8)
    ensures Xor(crc, 0) == crc
  {
  }

  /** Four bytes one after another are one word. */
  lemma {:induction false} RunIsBits(crc: bv32, data: seq<byte>)
    requires |data| <= 4
    ensures CrcRun(crc, data) == CrcBits(Xor(crc, Word(data)), 8 * |data|)
    decreases |data|
  {
    hide Xor, Bits, Join, CrcStep, Shift, Room;
    if data == [] {
      XorJoin(crc, 0, 0);
    } else {
      var b, w := data[0], Word(data[1..]);
      RunIsBits(CrcByte(crc, b), data[1..]);
      WordFits(data[1..]);
      ShiftEight(w);
      StepsOver(Xor(crc, Bits(b)), w, 8);
      XorJoin(crc, b, w);
      StepsAdd(Xor(crc, Word(data)), 8, 8 * |data| - 8);
    }
  }

  lemma JoinedApart(x: bv8, y: bv8, u: bv32, v: bv32)
    requires u < 0x100_0000 && v < 0x100_0000
    requires (x as bv32) ^ (u << 8) == (y as bv32) ^ (v << 8)
    ensures x == y && u == v
  {
  }

  lemma JoinInjective(a: byte, b: byte, u: bv32, v: bv32)
    requires u < 0x100_0000 && v < 0x100_0000 && Join(a, u) == Join(b, v)
    ensures a == b && u == v
  {
    JoinedApart(a as bv8, b as bv8, u, v);
    ByteInjective(a, b);
  }

  lemma {:induction false} WordInjective(a: seq<byte>, b: seq<byte>)
    requires |a| == |b| <= 4 && Word(a) == Word(b)
    ensures a == b
  {
    hide Join;
    if a != [] {
      WordFits(a[1..]);
      WordFits(b[1..]);
      JoinInjective(a[0], b[0], Word(a[1..]), Word(b[1..]));
      WordInjective(a[1..], b[1..]);
      assert a == [a[0]] + a[1..] && b == [b[0]] + b[1..];
    }
  }

  /** Damage to at most four bytes in a row always changes the checksum. */
  lemma BurstChangesCrc(a: seq<byte>, x: seq<byte>, y: seq<byte>, b: seq<byte>)
    requires |x| == |y| <= 4
    ensures Crc(a + x + b) == Crc(a + y + b) <==> x == y
  {
    hide *;
    if Crc(a + x + b) == Crc(a + y + b) {
      BurstOfCrc(a, x, b);
      BurstOfCrc(a, y, b);
      var start := CrcRun(Complement(0), a);
      ComplementTwice(CrcRun(CrcRun(start, x), b));
      ComplementTwice(CrcRun(CrcRun(start, y), b));
      RunInjective(CrcRun(start, x), CrcRun(start, y), b);
      RunIsBits(start, x);
      RunIsBits(start, y);
      StepsInjective(Xor(start, Word(x)), Xor(start, Word(y)), 8 * |x|);
      XorInjective(Word(x), Word(y), start);
      WordInjective(x, y);
    }
  }

  lemma BurstOfCrc(a: seq<byte>, x: seq<byte>, b: seq<byte>)
    ensures Crc(a + x + b) == Complement(CrcRun(CrcRun(CrcRun(Complement(0), a), x), b))
  {
    hide Complement, CrcRun;
    CrcRunConcat(Complement(0), a + x, b);
    CrcRunConcat(Complement(0), a, x);
  }

  /** The check value of CRC-32C: the checksum of the digits 1 to 9. */
  lemma CheckValue()
    ensures Crc([0x31, 0x32, 0x33, 0x34, 0x35, 0x36, 0x37, 0x38, 0x39]) == 0xe306_9283
  {
    CheckBytes();
    hide CrcByte;
    var data := [0x31, 0x32, 0x33, 0x34, 0x35, 0x36, 0x37, 0x38, 0x39];
    assert CrcRun(0xffff_ffff, data) == CrcRun(0xef84_d04d, data[3..]);
    assert data[3..][3..] == data[6..];
    assert CrcRun(0xef84_d04d, data[3..]) == CrcRun(0xbeca_8e79, data[6..]);
  }

  lemma CheckBytes()
    ensures CrcByte(0xffff_ffff, 0x31) == 0x6f0a_661c
    ensures CrcByte(0x6f0a_661c, 0x32) == 0x8caa_3b9f
    ensures CrcByte(0x8caa_3b9f, 0x33) == 0xef84_d04d
    ensures CrcByte(0xef84_d04d, 0x34) == 0x09c5_0b11
    ensures CrcByte(0x09c5_0b11, 0x35) == 0xe72e_dcca
    ensures CrcByte(0xe72e_dcca, 0x36) == 0xbeca_8e79
    ensures CrcByte(0xbeca_8e79, 0x37) == 0xedbd_6815
    ensures CrcByte(0xedbd_6815, 0x38) == 0x9f78_7f65
    ensures CrcByte(0x9f78_7f65, 0x39) == 0x1cf9_6d7c
  {
  }

  function Mask(crc: bv32): bv32 {
    ((crc >> 15) | (crc << 17)) + 0xa282ead8
  }

  function Unmask(masked: bv32): bv32 {
    var rot := masked - 0xa282ead8;
    (rot >> 17) | (rot << 15)
  }

  lemma UnmaskMask(crc: bv32)
    ensures Unmask(Mask(crc)) == crc && Mask(Unmask(crc)) == crc
  {
  }

  /** The checksum as it is stored, and back. */
  function StoredCrc(data: seq<byte>): (n: nat)
    ensures n < TWO_TO_32
  {
    Mask(Crc(data)) as nat
  }

  predicate CrcMatches(stored: nat, data: seq<byte>)
    requires stored < TWO_TO_32
  {
    Unmask(stored as bv32) == Crc(data)
  }

  lemma StoredMatches(data: seq<byte>)
    ensures CrcMatches(StoredCrc(data), data)
  {
    hide Mask, Unmask, Crc;
    UnmaskMask(Crc(data));
    ThroughNat(Mask(Crc(data)));
  }

  /** A reader notices damage to at most four bytes in a row under a stored checksum. */
  lemma DamageNoticed(a: seq<byte>, x: seq<byte>, y: seq<byte>, b: seq<byte>)
    requires |x| == |y| <= 4
    ensures CrcMatches(StoredCrc(a + x + b), a + y + b) <==> x == y
  {
    hide Mask, Unmask, Crc;
    UnmaskMask(Crc(a + x + b));
    ThroughNat(Mask(Crc(a + x + b)));
    BurstChangesCrc(a, x, y, b);
  }

  lemma ThroughNat(v: bv32)
    ensures v as nat < TWO_TO_32 && (v as nat) as bv32 == v
  {
  }

  function Uint16(low: byte, high: byte): nat {
    low as nat + 256 * high as nat
  }

  datatype Piece = Piece(kind: RecordType, payload: seq<byte>)

  /** One fragment of a record: its length fits in two bytes. */
  type Fragment = f: Piece | |f.payload| < 65536 witness Piece(Full, [])

  /** The seven bytes in front of a payload. */
  function Header(f: Fragment): (bytes: seq<byte>)
    ensures |bytes| == HEADER_SIZE
  {
    EncodeFixed32(StoredCrc([TypeCode(f.kind)] + f.payload)) + [(|f.payload| % 256) as byte, (|f.payload| / 256) as byte, TypeCode(f.kind)]
  }

  /** What a reader checks in a header it is to believe. */
  lemma HeaderReads(f: Fragment)
    ensures Uint16(Header(f)[4], Header(f)[5]) == |f.payload| && Header(f)[6] == TypeCode(f.kind)
    ensures CrcMatches(DecodeFixed32(Header(f)), [TypeCode(f.kind)] + f.payload)
  {
    hide EncodeFixed32, DecodeFixed32, StoredCrc, CrcMatches;
    var stored := StoredCrc([TypeCode(f.kind)] + f.payload);
    StoredMatches([TypeCode(f.kind)] + f.payload);
    Fixed32RoundTrip(stored);
    DecodePrefix(Header(f), EncodeFixed32(stored));
  }

  /** The bytes left at the end of a block when no header fits there. */
  function PadLength(pos: nat): (n: nat)
    ensures n < HEADER_SIZE && n <= BLOCK_SIZE - pos % BLOCK_SIZE
    ensures (pos + n) % BLOCK_SIZE + HEADER_SIZE <= BLOCK_SIZE
  {
    var leftover := BLOCK_SIZE - pos % BLOCK_SIZE;
    if leftover < HEADER_SIZE then leftover else 0
  }

  /** The payload that still fits in the block a fragment placed at `pos` goes to. */
  function Avail(pos: nat): (n: nat)
    ensures n <= BLOCK_SIZE - HEADER_SIZE
  {
    BLOCK_SIZE - (pos + PadLength(pos)) % BLOCK_SIZE - HEADER_SIZE
  }

  function Zeros(n: nat): (bytes: seq<byte>)
    ensures |bytes| == n
  {
    seq(n, _ => 0)
  }

  function Place(pos: nat, f: Fragment): (bytes: seq<byte>)
    ensures |bytes| == PadLength(pos) + HEADER_SIZE + |f.payload|
  {
    Zeros(PadLength(pos)) + Header(f) + f.payload
  }

  /** Fragments one after another, from `pos` on. */
  function Layout(pos: nat, fs: seq<Fragment>): seq<byte>
    decreases |fs|
  {
    if fs == [] then [] else Place(pos, fs[0]) + Layout(pos + |Place(pos, fs[0])|, fs[1..])
  }

  lemma LayoutNone(pos: nat)
    ensures Layout(pos, []) == []
  {
  }

  lemma {:induction false} LayoutConcat(pos: nat, a: seq<Fragment>, b: seq<Fragment>)
    ensures Layout(pos, a + b) == Layout(pos, a) + Layout(pos + |Layout(pos, a)|, b)
    decreases |a|
  {
    hide Header;
    if a == [] {
      assert a + b == b;
    } else {
      hide Place;
      assert (a + b)[0] == a[0] && (a + b)[1..] == a[1..] + b;
      LayoutConcat(pos + |Place(pos, a[0])|, a[1..], b);
    }
  }

  /** No fragment crosses the end of its block. */
  ghost predicate Fit(pos: nat, fs: seq<Fragment>)
    decreases |fs|
  {
    fs == [] || (|fs[0].payload| <= Avail(pos) && Fit(pos + |Place(pos, fs[0])|, fs[1..]))
  }

  lemma {:induction false} FitConcat(pos: nat, a: seq<Fragment>, b: seq<Fragment>)
    ensures Fit(pos, a + b) <==> Fit(pos, a) && Fit(pos + |Layout(pos, a)|, b)
    decreases |a|
  {
    hide Header;
    if a == [] {
      assert a + b == b;
    } else {
      hide Place, Avail;
      assert (a + b)[0] == a[0] && (a + b)[1..] == a[1..] + b;
      FitConcat(pos + |Place(pos, a[0])|, a[1..], b);
    }
  }

  function KindOf(begin: bool, end: bool): RecordType {
    if begin && end then Full else if begin then First else if end then Last else Middle
  }

  /** As much of the record as the block has room for. */
  function FirstPiece(pos: nat, data: seq<byte>, begin: bool): (f: Fragment)
    ensures f.payload <= data && |f.payload| <= Avail(pos)
    ensures f.payload == data || |f.payload| == Avail(pos)
    ensures f.kind == KindOf(begin, |f.payload| == |data|)
  {
    var n := if |data| < Avail(pos) then |data| else Avail(pos);
    Piece(KindOf(begin, n == |data|), data[..n])
  }

  /** A block that is full but for a header is followed by one with room. */
  lemma RoomAfter(pos: nat, f: Fragment)
    requires Avail(pos) == 0 && f.payload == []
    ensures Avail(pos + |Place(pos, f)|) > 0
  {
    hide Header;
  }

  function Need(pos: nat): nat {
    if Avail(pos) == 0 then 1 else 0
  }

  /** How a record is cut up when it is written at `pos`. */
  function Split(pos: nat, data: seq<byte>, begin: bool): (fs: seq<Fragment>)
    ensures fs != []
    decreases |data|, Need(pos)
  {
    var f := FirstPiece(pos, data, begin);
    if f.payload == data then [f] else [f] + Split(pos + |Place(pos, f)|, data[|f.payload|..], false)
  }

  lemma SplitStep(pos: nat, data: seq<byte>, begin: bool)
    ensures var f := FirstPiece(pos, data, begin);
      Layout(pos, Split(pos, data, begin)) == Place(pos, f) +
        if f.payload == data then [] else Layout(pos + |Place(pos, f)|, Split(pos + |Place(pos, f)|, data[|f.payload|..], false))
  {
    hide Header, Place, Avail, FirstPiece;
    var f := FirstPiece(pos, data, begin);
    LayoutNone(pos + |Place(pos, f)|);
    assert Split(pos, data, begin)[0] == f;
    if f.payload != data {
      assert Split(pos, data, begin)[1..] == Split(pos + |Place(pos, f)|, data[|f.payload|..], false);
    }
  }

  lemma {:induction false} SplitFits(pos: nat, data: seq<byte>, begin: bool)
    ensures Fit(pos, Split(pos, data, begin))
    decreases |data|, Need(pos)
  {
    hide Header, Place, Avail, FirstPiece;
    var f := FirstPiece(pos, data, begin);
    var fs := Split(pos, data, begin);
    if f.payload != data {
      if f.payload == [] {
        RoomAfter(pos, f);
      }
      assert fs == [f] + fs[1..];
      SplitFits(pos + |Place(pos, f)|, data[|f.payload|..], false);
    }
  }

  function Joined(fs: seq<Fragment>): seq<byte>
    decreases |fs|
  {
    if fs == [] then [] else Joined(fs[..|fs| - 1]) + fs[|fs| - 1].payload
  }

  lemma {:induction false} JoinedConcat(a: seq<Fragment>, b: seq<Fragment>)
    ensures Joined(a + b) == Joined(a) + Joined(b)
    decreases |b|
  {
    if b == [] {
      assert a + b == a;
    } else {
      assert (a + b)[..|a + b| - 1] == a + b[..|b| - 1];
      JoinedConcat(a, b[..|b| - 1]);
    }
  }

  lemma JoinedOne(f: Fragment)
    ensures Joined([f]) == f.payload
  {
    assert [f][..0] == [];
  }

  lemma {:induction false} SplitJoins(pos: nat, data: seq<byte>, begin: bool)
    ensures Joined(Split(pos, data, begin)) == data
    decreases |data|, Need(pos)
  {
    hide Header, Place, Avail, FirstPiece, Joined;
    var f := FirstPiece(pos, data, begin);
    JoinedOne(f);
    if f.payload != data {
      if f.payload == [] {
        RoomAfter(pos, f);
      }
      SplitJoins(pos + |Place(pos, f)|, data[|f.payload|..], false);
      JoinedConcat([f], Split(pos + |Place(pos, f)|, data[|f.payload|..], false));
    }
  }

  /** The pieces say where they stand in the record. */
  lemma {:induction false} SplitKinds(pos: nat, data: seq<byte>, begin: bool, i: nat)
    requires i < |Split(pos, data, begin)|
    ensures Split(pos, data, begin)[i].kind == KindOf(begin && i == 0, i == |Split(pos, data, begin)| - 1)
    decreases |data|, Need(pos)
  {
    hide Header, Place, Avail, FirstPiece;
    var f := FirstPiece(pos, data, begin);
    if i > 0 {
      if f.payload == [] {
        RoomAfter(pos, f);
      }
      SplitKinds(pos + |Place(pos, f)|, data[|f.payload|..], false, i - 1);
    }
  }

  /** The fragments of a whole log. */
  function Fragments(pos: nat, records: seq<seq<byte>>): seq<Fragment>
    decreases |records|
  {
    if records == [] then [] else
      var fs := Split(pos, records[0], true);
      fs + Fragments(pos + |Layout(pos, fs)|, records[1..])
  }

  function LogBytes(records: seq<seq<byte>>): seq<byte> {
    Layout(0, Fragments(0, records))
  }

  lemma {:induction false} FragmentsConcat(pos: nat, a: seq<seq<byte>>, b: seq<seq<byte>>)
    ensures Fragments(pos, a + b) == Fragments(pos, a) + Fragments(pos + |Layout(pos, Fragments(pos, a))|, b)
    decreases |a|
  {
    hide Header, Split, Layout;
    if a == [] {
      assert a + b == b;
      LayoutNone(pos);
    } else {
      var fs := Split(pos, a[0], true);
      var next := pos + |Layout(pos, fs)|;
      assert (a + b)[0] == a[0] && (a + b)[1..] == a[1..] + b;
      FragmentsConcat(next, a[1..], b);
      LayoutConcat(pos, fs, Fragments(next, a[1..]));
    }
  }

  /** A log grows by the fragments of each new record. */
  lemma LogGrows(records: seq<seq<byte>>, record: seq<byte>)
    ensures LogBytes(records + [record]) == LogBytes(records) + Layout(|LogBytes(records)|, Split(|LogBytes(records)|, record, true))
  {
    hide Header, Split, Layout;
    var pos := |LogBytes(records)|;
    FragmentsConcat(0, records, [record]);
    assert Fragments(pos, [record]) == Split(pos, record, true) by {
      assert [record][1..] == [];
    }
    LayoutConcat(0, Fragments(0, records), Split(pos, record, true));
  }

  lemma {:induction false} FragmentsFit(pos: nat, records: seq<seq<byte>>)
    ensures Fit(pos, Fragments(pos, records))
    decreases |records|
  {
    hide Header, Split, Layout;
    if records != [] {
      var fs := Split(pos, records[0], true);
      SplitFits(pos, records[0], true);
      FragmentsFit(pos + |Layout(pos, fs)|, records[1..]);
      FitConcat(pos, fs, Fragments(pos + |Layout(pos, fs)|, records[1..]));
    } else {
      assert Fit(pos, []);
    }
  }

  /** A log with one record of one byte: its masked checksum, its length, that it is whole, and the byte. */
  lemma RecordExample()
    ensures LogBytes([[0x61]]) == [181, 205, 11, 162, 1, 0, 1, 0x61]
  {
    MaskedExample();
    hide StoredCrc, EncodeFixed32;
    var f := Piece(Full, [0x61]);
    assert [0x61][..1] == [0x61] && [0x61][1..] == [];
    assert FirstPiece(0, [0x61], true) == f && Split(0, [0x61], true) == [f];
    assert Fragments(0, []) == [];
    assert Fragments(0, [[0x61]]) == [f];
    assert Place(0, f) == Header(f) + [0x61];
    assert Layout(0, []) == [];
    assert Layout(0, [f]) == Place(0, f);
    assert [TypeCode(f.kind)] + f.payload == [1, 0x61];
  }

  lemma MaskedExample()
    ensures EncodeFixed32(StoredCrc([1, 0x61])) == [181, 205, 11, 162]
  {
    assert CrcByte(0xffff_ffff, 1) == 0x5fe9_2fad && CrcByte(0x5fe9_2fad, 0x61) == 0x8e91_003b;
    CrcOfTwo(1, 0x61);
    hide CrcByte;
    assert Mask(0x716e_ffc4) == 0xa20b_cdb5;
    assert 0xa20b_cdb5 as bv32 as nat == 2718682549;
  }

  lemma CrcOfTwo(a: byte, b: byte)
    ensures Crc([a, b]) == Complement(CrcByte(CrcByte(0xffff_ffff, a), b))
  {
    hide CrcByte;
    assert [a, b][1..] == [b] && [b][1..] == [];
    assert CrcRun(CrcByte(0xffff_ffff, a), [b]) == CrcByte(CrcByte(0xffff_ffff, a), b);
  }
}
