/** The log reader (db/log_reader.cc), reading from the start of the file. */
module LogReading {
  import opened Format
  import opened Coding
  import opened LogFormat
  import opened LogWriting

  /** Where fragment `i` of a log begins, padding included. */
  ghost function Start(fs: seq<Fragment>, i: nat): nat
    requires i <= |fs|
  {
    |Layout(0, fs[..i])|
  }

  lemma StartNext(fs: seq<Fragment>, i: nat)
    requires i < |fs|
    ensures Layout(0, fs[..i + 1]) == Layout(0, fs[..i]) + Place(Start(fs, i), fs[i])
    ensures Start(fs, i + 1) == Start(fs, i) + PadLength(Start(fs, i)) + HEADER_SIZE + |fs[i].payload|
  {
    hide Header, Place, PadLength;
    var pos := Start(fs, i);
    assert fs[..i + 1] == fs[..i] + [fs[i]];
    LayoutConcat(0, fs[..i], [fs[i]]);
    LayoutNone(pos + |Place(pos, fs[i])|);
    assert [fs[i]][1..] == [];
  }

  lemma {:induction false} StartGrows(fs: seq<Fragment>, i: nat, j: nat)
    requires i <= j <= |fs|
    ensures Start(fs, i) <= Start(fs, j) && Layout(0, fs[..i]) <= Layout(0, fs[..j])
    decreases j
  {
    hide Header, Place, Layout;
    if i < j {
      StartGrows(fs, i, j - 1);
      StartNext(fs, j - 1);
    }
  }

  /** The stored bytes of fragment `i`, if the file goes that far. */
  lemma BytesAt(fs: seq<Fragment>, i: nat, file: seq<byte>, pos: nat)
    requires i < |fs| && file <= Layout(0, fs) && pos == Start(fs, i) + PadLength(Start(fs, i))
    ensures pos + HEADER_SIZE <= |file| ==> file[pos..pos + HEADER_SIZE] == Header(fs[i])
    ensures pos + HEADER_SIZE + |fs[i].payload| <= |file| ==>
      file[pos + HEADER_SIZE..pos + HEADER_SIZE + |fs[i].payload|] == fs[i].payload
  {
    hide Header, Layout, PadLength;
    StartNext(fs, i);
    StartGrows(fs, i + 1, |fs|);
    assert fs[..|fs|] == fs;
    var all := Layout(0, fs);
    assert all[..Start(fs, i + 1)] == Layout(0, fs[..i]) + Place(Start(fs, i), fs[i]);
    assert all[pos..pos + HEADER_SIZE] == Header(fs[i]);
    assert all[pos + HEADER_SIZE..Start(fs, i + 1)] == fs[i].payload;
  }

  lemma {:induction false} FitAt(pos: nat, fs: seq<Fragment>, i: nat)
    requires Fit(pos, fs) && i < |fs|
    ensures |fs[i].payload| <= Avail(pos + |Layout(pos, fs[..i])|)
    decreases i
  {
    hide Header, Place, Avail;
    if i > 0 {
      var next := pos + |Place(pos, fs[0])|;
      FitAt(next, fs[1..], i - 1);
      assert fs[..i][1..] == fs[1..][..i - 1] && fs[..i][0] == fs[0];
    } else {
      LayoutNone(pos);
    }
  }

  /** The buffer begins with the fragment, as far as it goes. */
  ghost predicate FrontIs(buffer: seq<byte>, f: Fragment) {
    && |buffer| >= HEADER_SIZE && buffer[..HEADER_SIZE] == Header(f)
    && (HEADER_SIZE + |f.payload| <= |buffer| ==> buffer[HEADER_SIZE..HEADER_SIZE + |f.payload|] == f.payload)
  }

  lemma FrontFrom(file: seq<byte>, used: nat, buffer: seq<byte>, f: Fragment)
    requires used + |buffer| <= |file| && buffer == file[used..used + |buffer|] && |buffer| >= HEADER_SIZE
    requires file[used..used + HEADER_SIZE] == Header(f)
    requires used + HEADER_SIZE + |f.payload| <= |file| ==> file[used + HEADER_SIZE..used + HEADER_SIZE + |f.payload|] == f.payload
    ensures FrontIs(buffer, f)
  {
    hide Header;
  }

  /** What the reader finds in such a buffer. */
  lemma FrontReads(buffer: seq<byte>, f: Fragment)
    requires FrontIs(buffer, f)
    ensures Uint16(buffer[4], buffer[5]) == |f.payload| && buffer[6] == TypeCode(f.kind) && buffer[6] != 0
    ensures HEADER_SIZE + |f.payload| <= |buffer| ==> buffer[HEADER_SIZE..HEADER_SIZE + |f.payload|] == f.payload
    ensures HEADER_SIZE + |f.payload| <= |buffer| ==> CrcMatches(DecodeFixed32(buffer), buffer[6..HEADER_SIZE + |f.payload|])
  {
    hide CrcMatches, StoredCrc, EncodeFixed32, Uint16, DecodeFixed32, Header;
    HeaderReads(f);
    var front := buffer[..HEADER_SIZE];
    assert buffer[4] == front[4] && buffer[5] == front[5] && buffer[6] == front[6];
    DecodePrefix(buffer, front[..4]);
    DecodePrefix(front, front[..4]);
    if HEADER_SIZE + |f.payload| <= |buffer| {
      assert buffer[6..HEADER_SIZE + |f.payload|] == [buffer[6]] + buffer[HEADER_SIZE..HEADER_SIZE + |f.payload|];
    }
  }

  datatype Physical = Record(code: byte, data: seq<byte>) | BadRecord | Eof

  /** The fragment asked for if the file has all of it, and the end otherwise. */
  ghost predicate Delivered(fs: seq<Fragment>, i: nat, size: nat, result: Physical) {
    if i < |fs| && Start(fs, i + 1) <= size then result == Record(TypeCode(fs[i].kind), fs[i].payload) else result == Eof
  }

  class Reader {
    const file: seq<byte>
    const checksum: bool
    var endOfBuffer: nat
    var buffer: seq<byte>
    var eof: bool
    /** How many corruptions were reported. */
    var drops: nat

    ghost predicate Valid()
      reads `buffer, `endOfBuffer, `eof
      ensures Valid() ==> Used() <= |file|
    {
      && |buffer| <= endOfBuffer <= |file|
      && buffer == file[endOfBuffer - |buffer|..endOfBuffer]
      && if eof then endOfBuffer == |file| && |buffer| <= endOfBuffer % BLOCK_SIZE else endOfBuffer % BLOCK_SIZE == 0 && |buffer| <= BLOCK_SIZE
    }

    /** How many bytes have been used up. */
    ghost function Used(): int
      reads `buffer, `endOfBuffer
    {
      endOfBuffer - |buffer|
    }

    /** The file holds the beginning of a log, and fragment `i` is next. */
    ghost predicate At(fs: seq<Fragment>, i: nat)
      reads `buffer, `endOfBuffer
    {
      AtUsed(fs, i, Used())
    }

    ghost predicate AtUsed(fs: seq<Fragment>, i: nat, used: int) {
      && file <= Layout(0, fs) && Fit(0, fs) && i <= |fs|
      && (used == Start(fs, i) || used == Start(fs, i) + PadLength(Start(fs, i)))
    }

    constructor (file: seq<byte>, checksum: bool)
      ensures Valid() && this.file == file && drops == 0 && Used() == 0
    {
      this.file, this.checksum := file, checksum;
      endOfBuffer, buffer, eof, drops := 0, [], false, 0;
    }

    /** Reads the next block, dropping what is left of this one. */
    method Refill(ghost fs: seq<Fragment>, ghost i: nat)
      requires Valid() && |buffer| < HEADER_SIZE && !eof
      modifies this`buffer, this`endOfBuffer, this`eof
      ensures Valid() && Used() >= old(Used())
      ensures eof || endOfBuffer > old(endOfBuffer)
      ensures old(At(fs, i)) ==> At(fs, i)
    {
      hide Header, Layout, Fit;
      var n := if |file| - endOfBuffer < BLOCK_SIZE then |file| - endOfBuffer else BLOCK_SIZE;
      buffer := file[endOfBuffer..endOfBuffer + n];
      endOfBuffer := endOfBuffer + n;
      if n < BLOCK_SIZE {
        eof := true;
      }
    }

    /** With a header's worth of bytes at hand, the next fragment starts right here. */
    lemma AtHeader(fs: seq<Fragment>, i: nat)
      requires Valid() && At(fs, i) && |buffer| >= HEADER_SIZE
      ensures i < |fs| && Used() == Start(fs, i) + PadLength(Start(fs, i))
    {
      hide Header, Layout, Fit;
      assert fs[..|fs|] == fs;
    }

    /** The header at hand is the fragment's; its payload is at hand unless the file ends first. */
    lemma AtFragment(fs: seq<Fragment>, i: nat)
      requires Valid() && At(fs, i) && |buffer| >= HEADER_SIZE
      ensures i < |fs| && FrontIs(buffer, fs[i])
      ensures Used() + HEADER_SIZE + |fs[i].payload| == Start(fs, i + 1)
      ensures HEADER_SIZE + |fs[i].payload| > |buffer| ==> eof
    {
      hide Header, Layout, Fit, Start, FrontIs;
      AtHeader(fs, i);
      StartNext(fs, i);
      assert HEADER_SIZE + |fs[i].payload| > |buffer| ==> eof by {
        FitHere(fs, i);
      }
      BytesAt(fs, i, file, Used());
      FrontFrom(file, Used(), buffer, fs[i]);
    }

    lemma FitHere(fs: seq<Fragment>, i: nat)
      requires At(fs, i) && i < |fs|
      ensures |fs[i].payload| <= Avail(Start(fs, i))
    {
      hide Header, Layout, Avail;
      FitAt(0, fs, i);
    }

    /** The next fragment is not whole, or there is none. */
    lemma AtEnd(fs: seq<Fragment>, i: nat)
      requires Valid() && At(fs, i) && eof
      requires i < |fs| ==> |buffer| < HEADER_SIZE || |buffer| < HEADER_SIZE + |fs[i].payload|
      ensures i < |fs| ==> Start(fs, i + 1) > |file|
    {
      hide Header, Layout, Fit, PadLength;
      if i < |fs| {
        StartNext(fs, i);
      }
    }

    lemma AtNext(fs: seq<Fragment>, i: nat, rest: seq<byte>)
      requires At(fs, i) && i < |fs| && endOfBuffer - |rest| == Start(fs, i + 1)
      ensures AtUsed(fs, i + 1, endOfBuffer - |rest|)
    {
    }

    /** Reads on until a header's worth of bytes is at hand, or the file ends. */
    method FillHeader(ghost fs: seq<Fragment>, ghost i: nat) returns (ok: bool)
      requires Valid()
      modifies this`buffer, this`endOfBuffer, this`eof
      ensures Valid() && Used() >= old(Used())
      ensures if ok then |buffer| >= HEADER_SIZE else buffer == []
      ensures old(At(fs, i)) ==> if ok then At(fs, i) else i < |fs| ==> Start(fs, i + 1) > |file|
    {
      hide Reader.AtUsed, Start;
      ghost var good := At(fs, i);
      while |buffer| < HEADER_SIZE
        invariant Valid() && Used() >= old(Used()) && (good ==> At(fs, i))
        decreases !eof, |file| - endOfBuffer
      {
        if !eof {
          Refill(fs, i);
        } else {
          if good {
            AtEnd(fs, i);
          }
          buffer := [];
          return false;
        }
      }
      return true;
    }

    /** The next fragment, if the file has all of it. */
    method ReadPhysicalRecord(ghost fs: seq<Fragment>, ghost i: nat) returns (result: Physical)
      requires Valid()
      modifies this`buffer, this`endOfBuffer, this`eof, this`drops
      ensures Valid() && (result != Eof ==> Used() > old(Used()))
      ensures old(At(fs, i)) ==> drops == old(drops) && Delivered(fs, i, |file|, result)
      ensures old(At(fs, i)) && result != Eof ==> At(fs, i + 1)
    {
      hide CrcMatches, DecodeFixed32, Uint16, Header, Start, PadLength, Reader.AtUsed, FrontIs;
      ghost var good := At(fs, i);
      var ok := FillHeader(fs, i);
      if !ok {
        return Eof;
      }
      if good {
        AtFragment(fs, i);
        FrontReads(buffer, fs[i]);
      }
      var length := Uint16(buffer[4], buffer[5]);
      var code := buffer[6];
      if HEADER_SIZE + length > |buffer| {
        buffer := [];
        if !eof {
          drops := drops + 1;
          return BadRecord;
        }
        return Eof;
      }
      if code == 0 && length == 0 {
        buffer := [];
        return BadRecord;
      }
      if checksum && !CrcMatches(DecodeFixed32(buffer), buffer[6..HEADER_SIZE + length]) {
        buffer := [];
        drops := drops + 1;
        return BadRecord;
      }
      result := Record(code, buffer[HEADER_SIZE..HEADER_SIZE + length]);
      if good {
        AtNext(fs, i, buffer[HEADER_SIZE + length..]);
      }
      buffer := buffer[HEADER_SIZE + length..];
    }

    /** The file holds the beginning of this log, and record `r` is next. */
    ghost predicate AtRecord(records: seq<seq<byte>>, r: nat)
      reads `buffer, `endOfBuffer
    {
      r <= |records| && At(Fragments(0, records), RecordStart(records, r))
    }

    /** Puts the next record together from its fragments. */
    method ReadRecord(ghost records: seq<seq<byte>>, ghost r: nat) returns (record: Option<seq<byte>>)
      requires Valid()
      modifies this`buffer, this`endOfBuffer, this`eof, this`drops
      ensures Valid() && (record.Some? ==> Used() > old(Used()))
      ensures old(AtRecord(records, r)) ==> drops == old(drops) && RecordDelivered(records, r, |file|, record)
      ensures old(AtRecord(records, r)) && record.Some? ==> AtRecord(records, r + 1)
    {
      hide Fragments, Start, RecordStart, Reader.At, Delivered, PieceNext, Reader.Valid, RecordDelivered;
      ghost var good := AtRecord(records, r);
      ghost var fs, base, m := Fragments(0, records), if r <= |records| then RecordStart(records, r) else 0, 0;
      var scratch, inFragmentedRecord := [], false;
      if good {
        FirstNext(records, r);
      }
      while true
        invariant Valid() && Used() >= old(Used())
        invariant good ==> drops == old(drops) && r <= |records| && At(fs, base + m) && PieceNext(records, r, m, inFragmentedRecord, scratch)
        decreases |file| - Used()
      {
        var physical := ReadPhysicalRecord(fs, base + m);
        if good {
          Deliver(records, r, m, inFragmentedRecord, scratch, |file|, physical);
        }
        match physical
        case Eof =>
          return None;
        case BadRecord =>
          if inFragmentedRecord {
            drops := drops + 1;
            inFragmentedRecord, scratch := false, [];
          }
        case Record(code, fragment) =>
          if code == TypeCode(Full) {
            if inFragmentedRecord && scratch != [] {
              drops := drops + 1;
            }
            return Some(fragment);
          } else if code == TypeCode(First) {
            if inFragmentedRecord && scratch != [] {
              drops := drops + 1;
            }
            scratch, inFragmentedRecord := fragment, true;
          } else if code == TypeCode(Middle) {
            if !inFragmentedRecord {
              drops := drops + 1;
            } else {
              scratch := scratch + fragment;
            }
          } else if code == TypeCode(Last) {
            if !inFragmentedRecord {
              drops := drops + 1;
            } else {
              return Some(scratch + fragment);
            }
          } else {
            drops := drops + 1;
            inFragmentedRecord, scratch := false, [];
          }
        m := m + 1;
      }
    }
  }

  /** The record asked for if the file has all of it, and nothing otherwise. */
  ghost predicate RecordDelivered(records: seq<seq<byte>>, r: nat, size: nat, record: Option<seq<byte>>) {
    if r < |records| && |LogBytes(records[..r + 1])| <= size then record == Some(records[r]) else record == None
  }

  ghost function RecordStart(records: seq<seq<byte>>, r: nat): nat
    requires r <= |records|
  {
    |Fragments(0, records[..r])|
  }

  ghost function Pieces(records: seq<seq<byte>>, r: nat): seq<Fragment>
    requires r < |records|
  {
    Split(|LogBytes(records[..r])|, records[r], true)
  }

  lemma FragmentsOne(pos: nat, record: seq<byte>)
    ensures Fragments(pos, [record]) == Split(pos, record, true)
  {
    assert [record][1..] == [];
  }

  lemma RecordAt(records: seq<seq<byte>>, r: nat)
    requires r < |records|
    ensures Fragments(0, records[..r + 1]) == Fragments(0, records[..r]) + Pieces(records, r)
  {
    hide Layout, Split, Fragments, Header;
    var before := records[..r];
    assert records[..r + 1] == before + [records[r]];
    FragmentsConcat(0, before, [records[r]]);
    FragmentsOne(|LogBytes(before)|, records[r]);
  }

  lemma FragmentsPrefix(records: seq<seq<byte>>, r: nat)
    requires r <= |records|
    ensures Fragments(0, records[..r]) <= Fragments(0, records)
  {
    hide Layout, Split, Fragments, Header;
    assert records == records[..r] + records[r..];
    FragmentsConcat(0, records[..r], records[r..]);
  }

  /** Where piece `m` of record `r` is among all fragments. */
  lemma PieceAt(records: seq<seq<byte>>, r: nat, m: nat)
    requires r < |records| && m < |Pieces(records, r)|
    ensures var fs, i := Fragments(0, records), RecordStart(records, r) + m;
      && i < |fs| && fs[i] == Pieces(records, r)[m]
      && Start(fs, i + 1) <= |LogBytes(records[..r + 1])|
      && (m + 1 == |Pieces(records, r)| ==> i + 1 == RecordStart(records, r + 1) && Start(fs, i + 1) == |LogBytes(records[..r + 1])|)
  {
    hide Layout, Fragments, Pieces;
    RecordAt(records, r);
    FragmentsPrefix(records, r + 1);
    var fs, i := Fragments(0, records), RecordStart(records, r) + m;
    var end := RecordStart(records, r + 1);
    assert fs[..end] == Fragments(0, records[..r + 1]);
    StartGrows(fs, i + 1, end);
  }

  /** What piece `m` of record `r` is. */
  lemma PieceIs(records: seq<seq<byte>>, r: nat, m: nat)
    requires r < |records| && m < |Pieces(records, r)|
    ensures var ps := Pieces(records, r);
      && ps[m].kind == KindOf(m == 0, m + 1 == |ps|)
      && Joined(ps[..m + 1]) == (if m == 0 then [] else Joined(ps[..m])) + ps[m].payload
      && (m + 1 == |ps| ==> Joined(ps[..m + 1]) == records[r])
  {
    hide Layout, Fragments, Split;
    var ps := Pieces(records, r);
    SplitKinds(|LogBytes(records[..r])|, records[r], true, m);
    SplitJoins(|LogBytes(records[..r])|, records[r], true);
    assert ps[..m + 1][..m] == ps[..m];
    assert ps[..|ps|] == ps;
  }

  /** Piece `m` of record `r` is the next to be read, and `scratch` holds the pieces before it. */
  ghost predicate PieceNext(records: seq<seq<byte>>, r: nat, m: nat, fragmented: bool, scratch: seq<byte>)
    requires r <= |records|
  {
    if r == |records| then m == 0 else
      m < |Pieces(records, r)| && (fragmented <==> m > 0) && (m > 0 ==> scratch == Joined(Pieces(records, r)[..m]))
  }

  lemma FirstNext(records: seq<seq<byte>>, r: nat)
    requires r <= |records|
    ensures PieceNext(records, r, 0, false, [])
  {
  }

  /** What the next physical record means for the record being read. */
  lemma Deliver(records: seq<seq<byte>>, r: nat, m: nat, fragmented: bool, scratch: seq<byte>, size: nat, physical: Physical)
    requires r <= |records| && PieceNext(records, r, m, fragmented, scratch)
    requires Delivered(Fragments(0, records), RecordStart(records, r) + m, size, physical)
    ensures physical == Eof ==> RecordDelivered(records, r, size, None)
    ensures physical != BadRecord
    ensures physical.Record? ==> (physical.code == TypeCode(Full) || physical.code == TypeCode(First) <==> !fragmented)
    ensures physical.Record? && physical.code == TypeCode(Full) ==> RecordDelivered(records, r, size, Some(physical.data))
    ensures physical.Record? && physical.code == TypeCode(First) ==> PieceNext(records, r, m + 1, true, physical.data)
    ensures physical.Record? && physical.code == TypeCode(Middle) ==> PieceNext(records, r, m + 1, true, scratch + physical.data)
    ensures physical.Record? && physical.code == TypeCode(Last) ==> RecordDelivered(records, r, size, Some(scratch + physical.data))
    ensures physical.Record? ==> 1 <= physical.code <= 4
    ensures physical.Record? && (physical.code == TypeCode(Full) || physical.code == TypeCode(Last)) ==>
      r < |records| && RecordStart(records, r) + m + 1 == RecordStart(records, r + 1)
  {
    hide Fragments, Start, RecordStart, Pieces, LogBytes, Joined;
    if r < |records| {
      PieceAt(records, r, m);
      PieceIs(records, r, m);
    } else {
      NoMoreRecords(records);
    }
  }

  lemma NoMoreRecords(records: seq<seq<byte>>)
    ensures RecordStart(records, |records|) == |Fragments(0, records)|
  {
    assert records[..|records|] == records;
  }

  /** The first `k` records end inside the file for exactly the `k` up to `n`. */
  ghost predicate EndInside(records: seq<seq<byte>>, size: nat, n: nat) {
    forall k :: 0 <= k <= |records| ==> (k <= n <==> |LogBytes(records[..k])| <= size)
  }

  /** Only one number of records ends inside. */
  lemma EndInsideOnce(records: seq<seq<byte>>, size: nat, m: nat, n: nat)
    requires m <= |records| && n <= |records| && EndInside(records, size, m) && EndInside(records, size, n)
    ensures m == n
  {
    hide LogBytes;
    var hint := |LogBytes(records[..m])| <= size && |LogBytes(records[..n])| <= size;
  }

  lemma {:induction false} LogPrefix(records: seq<seq<byte>>, j: nat, k: nat)
    requires j <= k <= |records|
    ensures |LogBytes(records[..j])| <= |LogBytes(records[..k])|
    decreases k - j
  {
    hide LogBytes, Layout, Split, Header;
    if j < k {
      LogPrefix(records, j, k - 1);
      assert records[..k] == records[..k - 1] + [records[k - 1]];
      LogGrows(records[..k - 1], records[k - 1]);
    }
  }

  lemma CountInside(records: seq<seq<byte>>, size: nat, n: nat)
    requires n <= |records| && |LogBytes(records[..n])| <= size
    requires n < |records| ==> |LogBytes(records[..n + 1])| > size
    ensures EndInside(records, size, n)
  {
    hide LogBytes;
    forall k | 0 <= k <= |records| ensures k <= n <==> |LogBytes(records[..k])| <= size {
      if k <= n {
        LogPrefix(records, k, n);
      } else {
        LogPrefix(records, n + 1, k);
      }
    }
  }

  lemma StartsAtFirst(reader: Reader, records: seq<seq<byte>>)
    requires reader.Valid() && reader.Used() == 0 && reader.file <= LogBytes(records)
    ensures reader.AtRecord(records, 0)
  {
    hide Header;
    FragmentsFit(0, records);
    assert records[..0] == [] && Fragments(0, records)[..0] == [];
  }

  /** The recovery loop: every record of the log, up to where the file was cut off. */
  method ReadLog(file: seq<byte>, checksum: bool, ghost records: seq<seq<byte>>) returns (found: seq<seq<byte>>, drops: nat)
    ensures file <= LogBytes(records) ==> drops == 0 && found <= records && EndInside(records, |file|, |found|)
  {
    hide LogBytes, Reader.Valid, Reader.AtRecord, EndInside;
    var reader := new Reader(file, checksum);
    ghost var good := file <= LogBytes(records);
    if good {
      StartsAtFirst(reader, records);
    }
    found := [];
    LogOfNothing();
    assert records[..0] == [];
    var more := true;
    while more
      invariant reader.Valid() && reader.Used() <= |file| && reader.file == file
      invariant good ==> reader.drops == 0 && |found| <= |records| && found == records[..|found|]
      invariant good ==> if more then reader.AtRecord(records, |found|) else RecordDelivered(records, |found|, |file|, None)
      invariant good ==> |LogBytes(records[..|found|])| <= |file|
      decreases more, |file| - reader.Used()
    {
      var record := reader.ReadRecord(records, |found|);
      if record.Some? {
        found := found + [record.value];
      } else {
        more := false;
      }
    }
    drops := reader.drops;
    if good {
      CountInside(records, |file|, |found|);
    }
  }

  /** Log records, lose the end of the file at any byte, recover: the records that were whole are
      all there, in order, nothing else is, and nothing is reported as corrupt. */
  method CrashAndRecover(records: seq<seq<byte>>, cut: nat, checksum: bool) returns (found: seq<seq<byte>>, drops: nat)
    ensures drops == 0 && found <= records
    ensures cut <= |LogBytes(records)| ==> EndInside(records, cut, |found|)
    ensures cut >= |LogBytes(records)| ==> found == records
  {
    hide LogBytes, EndInside, Writer.Valid;
    LogOfNothing();
    var writer := new Writer([], []);
    for i := 0 to |records|
      invariant writer.Valid() && writer.records == records[..i]
    {
      writer.AddRecord(records[i]);
    }
    assert records[..|records|] == records;
    WriterDest(writer);
    var size := if cut < |writer.dest| then cut else |writer.dest|;
    found, drops := ReadLog(writer.dest[..size], checksum, records);
    if cut >= |LogBytes(records)| {
      AllInside(records, |found|);
    }
  }

  /** A cut anywhere leaves some number of whole records. */
  lemma SomeInside(records: seq<seq<byte>>, size: nat) returns (n: nat)
    ensures n <= |records| && EndInside(records, size, n)
  {
    hide LogBytes, EndInside;
    LogOfNothing();
    assert records[..0] == [];
    n := |records|;
    while |LogBytes(records[..n])| > size
      invariant n <= |records| && (n < |records| ==> |LogBytes(records[..n + 1])| > size)
      decreases n
    {
      n := n - 1;
    }
    CountInside(records, size, n);
  }

  lemma AllInside(records: seq<seq<byte>>, n: nat)
    requires n <= |records| && EndInside(records, |LogBytes(records)|, n)
    ensures n == |records|
  {
    hide LogBytes;
    assert records[..|records|] == records;
  }

  lemma LogOfNothing()
    ensures LogBytes([]) == []
  {
  }

  lemma WriterDest(writer: Writer)
    requires writer.Valid()
    ensures writer.dest == LogBytes(writer.records)
  {
  }
}
