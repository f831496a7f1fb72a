/** Version edits as manifest records (db/version_edit.cc). */
module EditFormat {
  import opened Format
  import opened Versions
  import opened Coding
  import opened Builder

  /** A file as the manifest describes it; keys are in their stored form. */
  datatype FileMeta = FileMeta(number: nat, size: nat, smallest: seq<byte>, largest: seq<byte>)

  type WireEdit = EditOf<seq<byte>, FileMeta>

  const EMPTY_EDIT: WireEdit := Edit(None, None, None, None, None, [], [], [])

  /** One tagged item of a record. */
  datatype Field =
    | Comparator(name: seq<byte>)
    | LogNumber(number: nat)
    | NextFile(number: nat)
    | LastSequence(number: nat)
    | CompactPointer(level: nat, key: seq<byte>)
    | DeletedFile(level: nat, number: nat)
    | NewFile(level: nat, file: FileMeta)
    | PrevLogNumber(number: nat)

  function FieldBytes(f: Field): seq<byte> {
    match f
    case Comparator(name) => Varint(1) + LengthPrefixed(name)
    case LogNumber(number) => Varint(2) + Varint(number)
    case NextFile(number) => Varint(3) + Varint(number)
    case LastSequence(number) => Varint(4) + Varint(number)
    case CompactPointer(level, key) => Varint(5) + Varint(level) + LengthPrefixed(key)
    case DeletedFile(level, number) => Varint(6) + Varint(level) + Varint(number)
    case NewFile(level, file) =>
      Varint(7) + Varint(level) + Varint(file.number) + Varint(file.size) + LengthPrefixed(file.smallest) + LengthPrefixed(file.largest)
    case PrevLogNumber(number) => Varint(9) + Varint(number)
  }

  /** Numbers fit in 64 bits, strings in 32, and levels exist. */
  ghost predicate FieldFits(f: Field) {
    match f
    case Comparator(name) => |name| < TWO_TO_32
    case LogNumber(number) => number < TWO_TO_64
    case NextFile(number) => number < TWO_TO_64
    case LastSequence(number) => number < TWO_TO_64
    case CompactPointer(level, key) => level < NUM_LEVELS && |key| < TWO_TO_32
    case DeletedFile(level, number) => level < NUM_LEVELS && number < TWO_TO_64
    case NewFile(level, file) =>
      level < NUM_LEVELS && file.number < TWO_TO_64 && file.size < TWO_TO_64 && |file.smallest| < TWO_TO_32 && |file.largest| < TWO_TO_32
    case PrevLogNumber(number) => number < TWO_TO_64
  }

  /** GetLevel. */
  function GetLevel(input: seq<byte>): (r: Option<(nat, seq<byte>)>)
    ensures r.Some? ==> |r.value.1| < |input|
  {
    match GetVarint(input, false)
    case None => None
    case Some((level, rest)) => if level < NUM_LEVELS then Some((level, rest)) else None
  }

  /** What follows a tag, or nothing when it is malformed. */
  function GetField(tag: nat, input: seq<byte>): (r: Option<(Field, seq<byte>)>)
    ensures r.Some? ==> |r.value.1| <= |input|
  {
    if tag == 1 then
      match GetLengthPrefixed(input) { case None => None case Some((name, rest)) => Some((Comparator(name), rest)) }
    else if tag == 2 then
      match GetVarint(input, true) { case None => None case Some((n, rest)) => Some((LogNumber(n), rest)) }
    else if tag == 9 then
      match GetVarint(input, true) { case None => None case Some((n, rest)) => Some((PrevLogNumber(n), rest)) }
    else if tag == 3 then
      match GetVarint(input, true) { case None => None case Some((n, rest)) => Some((NextFile(n), rest)) }
    else if tag == 4 then
      match GetVarint(input, true) { case None => None case Some((n, rest)) => Some((LastSequence(n), rest)) }
    else if tag == 5 then
      match GetLevel(input)
      case None => None
      case Some((level, afterLevel)) =>
        match GetLengthPrefixed(afterLevel) { case None => None case Some((key, rest)) => Some((CompactPointer(level, key), rest)) }
    else if tag == 6 then
      match GetLevel(input)
      case None => None
      case Some((level, afterLevel)) =>
        match GetVarint(afterLevel, true) { case None => None case Some((n, rest)) => Some((DeletedFile(level, n), rest)) }
    else if tag == 7 then
      GetNewFile(input)
    else
      None
  }

  function GetNewFile(input: seq<byte>): (r: Option<(Field, seq<byte>)>)
    ensures r.Some? ==> |r.value.1| <= |input|
  {
    match GetLevel(input)
    case None => None
    case Some((level, afterLevel)) =>
      match GetVarint(afterLevel, true)
      case None => None
      case Some((number, afterNumber)) =>
        match GetVarint(afterNumber, true)
        case None => None
        case Some((size, afterSize)) =>
          match GetLengthPrefixed(afterSize)
          case None => None
          case Some((smallest, afterSmallest)) =>
            match GetLengthPrefixed(afterSmallest)
            case None => None
            case Some((largest, rest)) => Some((NewFile(level, FileMeta(number, size, smallest, largest)), rest))
  }

  function TagOf(f: Field): nat {
    match f
    case Comparator(_) => 1
    case LogNumber(_) => 2
    case NextFile(_) => 3
    case LastSequence(_) => 4
    case CompactPointer(_, _) => 5
    case DeletedFile(_, _) => 6
    case NewFile(_, _) => 7
    case PrevLogNumber(_) => 9
  }

  /** A written field is read back, and what follows it is left. */
  lemma FieldReads(f: Field, rest: seq<byte>)
    requires FieldFits(f)
    ensures GetVarint(FieldBytes(f) + rest, false).Some?
    ensures GetVarint(FieldBytes(f) + rest, false).value.0 == TagOf(f)
    ensures GetField(TagOf(f), GetVarint(FieldBytes(f) + rest, false).value.1) == Some((f, rest))
  {
    hide Varint, GetVarint, LengthPrefixed, GetLengthPrefixed;
    match f
    case Comparator(name) => NameReads(name, rest);
    case LogNumber(number) => NumberReads(2, number, rest);
    case NextFile(number) => NumberReads(3, number, rest);
    case LastSequence(number) => NumberReads(4, number, rest);
    case PrevLogNumber(number) => NumberReads(9, number, rest);
    case CompactPointer(level, key) => PointerReads(level, key, rest);
    case DeletedFile(level, number) => DeletionReads(level, number, rest);
    case NewFile(level, file) => NewFileReads(level, file, rest);
  }

  lemma NameReads(name: seq<byte>, rest: seq<byte>)
    requires |name| < TWO_TO_32
    ensures GetVarint(Varint(1) + LengthPrefixed(name) + rest, false) == Some((1, LengthPrefixed(name) + rest))
    ensures GetLengthPrefixed(LengthPrefixed(name) + rest) == Some((name, rest))
  {
    hide Varint, GetVarint, LengthPrefixed, GetLengthPrefixed;
    assert Varint(1) + LengthPrefixed(name) + rest == Varint(1) + (LengthPrefixed(name) + rest);
    VarintRoundTrip(1, LengthPrefixed(name) + rest, false);
    LengthPrefixedReads(name, rest);
  }

  lemma PointerReads(level: nat, key: seq<byte>, rest: seq<byte>)
    requires FieldFits(CompactPointer(level, key))
    ensures var bytes := FieldBytes(CompactPointer(level, key)) + rest;
      GetVarint(bytes, false).Some? && GetVarint(bytes, false).value.0 == 5
      && GetField(5, GetVarint(bytes, false).value.1) == Some((CompactPointer(level, key), rest))
  {
    hide Varint, GetVarint, LengthPrefixed, GetLengthPrefixed;
    var b := LengthPrefixed(key) + rest;
    var a := Varint(level) + b;
    assert FieldBytes(CompactPointer(level, key)) + rest == Varint(5) + a;
    VarintRoundTrip(5, a, false);
    VarintRoundTrip(level, b, false);
    LengthPrefixedReads(key, rest);
  }

  lemma DeletionReads(level: nat, number: nat, rest: seq<byte>)
    requires FieldFits(DeletedFile(level, number))
    ensures var bytes := FieldBytes(DeletedFile(level, number)) + rest;
      GetVarint(bytes, false).Some? && GetVarint(bytes, false).value.0 == 6
      && GetField(6, GetVarint(bytes, false).value.1) == Some((DeletedFile(level, number), rest))
  {
    hide Varint, GetVarint;
    var b := Varint(number) + rest;
    var a := Varint(level) + b;
    assert FieldBytes(DeletedFile(level, number)) + rest == Varint(6) + a;
    VarintRoundTrip(6, a, false);
    VarintRoundTrip(level, b, false);
    VarintRoundTrip(number, rest, true);
  }

  lemma NumberReads(tag: nat, number: nat, rest: seq<byte>)
    requires tag < TWO_TO_32 && number < TWO_TO_64
    ensures GetVarint(Varint(tag) + Varint(number) + rest, false) == Some((tag, Varint(number) + rest))
    ensures GetVarint(Varint(number) + rest, true) == Some((number, rest))
  {
    hide Varint, GetVarint;
    assert Varint(tag) + Varint(number) + rest == Varint(tag) + (Varint(number) + rest);
    VarintRoundTrip(tag, Varint(number) + rest, false);
    VarintRoundTrip(number, rest, true);
  }

  lemma NewFileReads(level: nat, file: FileMeta, rest: seq<byte>)
    requires FieldFits(NewFile(level, file))
    ensures var bytes := FieldBytes(NewFile(level, file)) + rest;
      GetVarint(bytes, false).Some? && GetVarint(bytes, false).value.0 == 7
      && GetNewFile(GetVarint(bytes, false).value.1) == Some((NewFile(level, file), rest))
  {
    hide Varint, GetVarint, LengthPrefixed, GetLengthPrefixed;
    var e := LengthPrefixed(file.largest) + rest;
    var d := LengthPrefixed(file.smallest) + e;
    var c := Varint(file.size) + d;
    var b := Varint(file.number) + c;
    var a := Varint(level) + b;
    assert FieldBytes(NewFile(level, file)) + rest == Varint(7) + a;
    VarintRoundTrip(7, a, false);
    VarintRoundTrip(level, b, false);
    VarintRoundTrip(file.number, c, true);
    VarintRoundTrip(file.size, d, true);
    LengthPrefixedReads(file.smallest, e);
    LengthPrefixedReads(file.largest, rest);
  }

  // ----- whole edits

  function OptionField<T>(o: Option<T>, field: T -> Field): seq<Field> {
    if o.Some? then [field(o.value)] else []
  }

  function HeadFields(e: WireEdit): seq<Field> {
    OptionField(e.comparator, c => Comparator(c)) + OptionField(e.logNumber, n => LogNumber(n)) + OptionField(e.prevLogNumber, n => PrevLogNumber(n))
    + OptionField(e.nextFile, n => NextFile(n)) + OptionField(e.lastSequence, n => LastSequence(n))
  }

  function PointerFields(ps: seq<(nat, seq<byte>)>): (fs: seq<Field>)
    ensures |fs| == |ps| && forall i :: 0 <= i < |ps| ==> fs[i] == CompactPointer(ps[i].0, ps[i].1)
  {
    seq(|ps|, i requires 0 <= i < |ps| => CompactPointer(ps[i].0, ps[i].1))
  }

  function DeletedFields(ds: seq<(nat, nat)>): (fs: seq<Field>)
    ensures |fs| == |ds| && forall i :: 0 <= i < |ds| ==> fs[i] == DeletedFile(ds[i].0, ds[i].1)
  {
    seq(|ds|, i requires 0 <= i < |ds| => DeletedFile(ds[i].0, ds[i].1))
  }

  function AddedFields(ns: seq<(nat, FileMeta)>): (fs: seq<Field>)
    ensures |fs| == |ns| && forall i :: 0 <= i < |ns| ==> fs[i] == NewFile(ns[i].0, ns[i].1)
  {
    seq(|ns|, i requires 0 <= i < |ns| => NewFile(ns[i].0, ns[i].1))
  }

  function FieldsOf(e: WireEdit): seq<Field> {
    HeadFields(e) + PointerFields(e.compactPointers) + DeletedFields(e.deleted) + AddedFields(e.added)
  }

  function FieldsBytes(fs: seq<Field>): seq<byte> {
    if fs == [] then [] else FieldBytes(fs[0]) + FieldsBytes(fs[1..])
  }

  /** VersionEdit::EncodeTo. */
  function EditBytes(e: WireEdit): seq<byte> {
    FieldsBytes(FieldsOf(e))
  }

  /** What decoding one item does to the edit. */
  function SetField(e: WireEdit, f: Field): WireEdit {
    match f
    case Comparator(name) => e.(comparator := Some(name))
    case LogNumber(number) => e.(logNumber := Some(number))
    case NextFile(number) => e.(nextFile := Some(number))
    case LastSequence(number) => e.(lastSequence := Some(number))
    case CompactPointer(level, key) => e.(compactPointers := e.compactPointers + [(level, key)])
    case DeletedFile(level, number) => e.(deleted := InsertPair(e.deleted, (level, number)))
    case NewFile(level, file) => e.(added := e.added + [(level, file)])
    case PrevLogNumber(number) => e.(prevLogNumber := Some(number))
  }

  function SetFields(e: WireEdit, fs: seq<Field>): WireEdit
    decreases |fs|
  {
    if fs == [] then e else SetFields(SetField(e, fs[0]), fs[1..])
  }

  /** VersionEdit::DecodeFrom, into a fresh edit: nothing when the record is corrupt. */
  function DecodeFields(input: seq<byte>, e: WireEdit): Option<WireEdit>
    decreases |input|
  {
    match GetVarint(input, false)
    case None => if input == [] then Some(e) else None
    case Some((tag, afterTag)) =>
      match GetField(tag, afterTag)
      case None => None
      case Some((f, rest)) => DecodeFields(rest, SetField(e, f))
  }

  method DecodeFrom(src: seq<byte>) returns (result: Option<WireEdit>)
    ensures result == DecodeFields(src, EMPTY_EDIT)
  {
    hide GetField, GetVarint, SetField;
    var edit, input := EMPTY_EDIT, src;
    while true
      invariant DecodeFields(input, edit) == DecodeFields(src, EMPTY_EDIT)
      decreases |input|
    {
      var tag := DecodeVarint(input, false);
      if tag == None {
        break;
      }
      var field := GetField(tag.value.0, tag.value.1);
      if field == None {
        return None;
      }
      edit := SetField(edit, field.value.0);
      input := field.value.1;
    }
    if input != [] {
      return None;
    }
    return Some(edit);
  }

  /** EncodeTo, item by item. */
  method EncodeTo(e: WireEdit) returns (dst: seq<byte>)
    ensures dst == EditBytes(e)
  {
    hide FieldBytes, FieldsOf;
    var fields := FieldsOf(e);
    dst := [];
    for i := 0 to |fields|
      invariant dst + FieldsBytes(fields[i..]) == EditBytes(e)
    {
      assert fields[i..][1..] == fields[i + 1..];
      dst := dst + FieldBytes(fields[i]);
    }
    assert fields[|fields|..] == [];
  }

  lemma {:induction false} FieldsRead(fs: seq<Field>, e: WireEdit)
    requires forall i :: 0 <= i < |fs| ==> FieldFits(fs[i])
    ensures DecodeFields(FieldsBytes(fs), e) == Some(SetFields(e, fs))
    decreases |fs|
  {
    hide FieldBytes, GetVarint, GetField, SetField, FieldFits;
    if fs == [] {
      NothingReads();
    } else {
      FieldReads(fs[0], FieldsBytes(fs[1..]));
      FieldsRead(fs[1..], SetField(e, fs[0]));
    }
  }

  lemma NothingReads()
    ensures GetVarint([], false) == None
  {
  }

  lemma {:induction false} SetFieldsConcat(e: WireEdit, a: seq<Field>, b: seq<Field>)
    ensures SetFields(e, a + b) == SetFields(SetFields(e, a), b)
    decreases |a|
  {
    hide SetField;
    if a == [] {
      assert a + b == b;
    } else {
      assert (a + b)[0] == a[0] && (a + b)[1..] == a[1..] + b;
      SetFieldsConcat(SetField(e, a[0]), a[1..], b);
    }
  }

  ghost predicate PairsOrdered(ds: seq<(nat, nat)>) {
    forall i, j :: 0 <= i < j < |ds| ==> PairLess(ds[i], ds[j])
  }

  lemma {:induction false} SetPointers(e: WireEdit, ps: seq<(nat, seq<byte>)>)
    ensures SetFields(e, PointerFields(ps)) == e.(compactPointers := e.compactPointers + ps)
    decreases |ps|
  {
    if ps != [] {
      var fs := PointerFields(ps);
      assert fs[1..] == PointerFields(ps[1..]) && fs[0] == CompactPointer(ps[0].0, ps[0].1);
      SetPointers(SetField(e, fs[0]), ps[1..]);
      assert e.compactPointers + [(ps[0].0, ps[0].1)] + ps[1..] == e.compactPointers + ps;
    } else {
      assert e.compactPointers + ps == e.compactPointers;
    }
  }

  lemma {:induction false} SetDeletions(e: WireEdit, ds: seq<(nat, nat)>)
    requires PairsOrdered(e.deleted + ds)
    ensures SetFields(e, DeletedFields(ds)) == e.(deleted := e.deleted + ds)
    decreases |ds|
  {
    if ds != [] {
      var fs := DeletedFields(ds);
      assert fs[1..] == DeletedFields(ds[1..]) && fs[0] == DeletedFile(ds[0].0, ds[0].1);
      var n := |e.deleted|;
      assert (e.deleted + ds)[n] == ds[0] && (n > 0 ==> (e.deleted + ds)[n - 1] == e.deleted[n - 1]);
      assert InsertPair(e.deleted, ds[0]) == e.deleted + [ds[0]];
      assert e.deleted + [ds[0]] + ds[1..] == e.deleted + ds;
      SetDeletions(SetField(e, fs[0]), ds[1..]);
    } else {
      assert e.deleted + ds == e.deleted;
    }
  }

  lemma {:induction false} SetAdditions(e: WireEdit, ns: seq<(nat, FileMeta)>)
    ensures SetFields(e, AddedFields(ns)) == e.(added := e.added + ns)
    decreases |ns|
  {
    if ns != [] {
      var fs := AddedFields(ns);
      assert fs[1..] == AddedFields(ns[1..]) && fs[0] == NewFile(ns[0].0, ns[0].1);
      SetAdditions(SetField(e, fs[0]), ns[1..]);
      assert e.added + [(ns[0].0, ns[0].1)] + ns[1..] == e.added + ns;
    } else {
      assert e.added + ns == e.added;
    }
  }

  lemma SetOption<T>(e: WireEdit, o: Option<T>, field: T -> Field)
    ensures SetFields(e, OptionField(o, field)) == if o.Some? then SetField(e, field(o.value)) else e
  {
    if o.Some? {
      var fs := [field(o.value)];
      assert fs[1..] == [];
    }
  }

  lemma SetHead(e: WireEdit)
    ensures SetFields(EMPTY_EDIT, HeadFields(e)) == e.(compactPointers := [], deleted := [], added := [])
  {
    hide SetFields, OptionField;
    var c := OptionField(e.comparator, x => Comparator(x));
    var l := OptionField(e.logNumber, n => LogNumber(n));
    var p := OptionField(e.prevLogNumber, n => PrevLogNumber(n));
    var n := OptionField(e.nextFile, n => NextFile(n));
    var s := OptionField(e.lastSequence, n => LastSequence(n));
    SetOption(EMPTY_EDIT, e.comparator, x => Comparator(x));
    SetFieldsConcat(EMPTY_EDIT, c, l);
    SetOption(SetFields(EMPTY_EDIT, c), e.logNumber, n => LogNumber(n));
    SetFieldsConcat(EMPTY_EDIT, c + l, p);
    SetOption(SetFields(EMPTY_EDIT, c + l), e.prevLogNumber, n => PrevLogNumber(n));
    SetFieldsConcat(EMPTY_EDIT, c + l + p, n);
    SetOption(SetFields(EMPTY_EDIT, c + l + p), e.nextFile, n => NextFile(n));
    SetFieldsConcat(EMPTY_EDIT, c + l + p + n, s);
    SetOption(SetFields(EMPTY_EDIT, c + l + p + n), e.lastSequence, n => LastSequence(n));
  }

  lemma SetAll(e: WireEdit)
    requires PairsOrdered(e.deleted)
    ensures SetFields(EMPTY_EDIT, FieldsOf(e)) == e
  {
    hide SetFields, HeadFields, PairsOrdered;
    var h, p, d, a := HeadFields(e), PointerFields(e.compactPointers), DeletedFields(e.deleted), AddedFields(e.added);
    SetHead(e);
    var e1 := e.(compactPointers := [], deleted := [], added := []);
    SetFieldsConcat(EMPTY_EDIT, h, p);
    SetPointers(e1, e.compactPointers);
    var e2 := e1.(compactPointers := e1.compactPointers + e.compactPointers);
    SetFieldsConcat(EMPTY_EDIT, h + p, d);
    assert e2.deleted + e.deleted == e.deleted;
    SetDeletions(e2, e.deleted);
    var e3 := e2.(deleted := e2.deleted + e.deleted);
    SetFieldsConcat(EMPTY_EDIT, h + p + d, a);
    SetAdditions(e3, e.added);
    assert [] + e.compactPointers == e.compactPointers && [] + e.deleted == e.deleted && [] + e.added == e.added;
  }

  /** An edit that can be stored: its numbers and strings fit, its deletions are a set. */
  ghost predicate Storable(e: WireEdit) {
    PairsOrdered(e.deleted) && forall i :: 0 <= i < |FieldsOf(e)| ==> FieldFits(FieldsOf(e)[i])
  }

  /** DecodeFrom undoes EncodeTo. */
  lemma EditRoundTrip(e: WireEdit)
    requires Storable(e)
    ensures DecodeFields(EditBytes(e), EMPTY_EDIT) == Some(e)
  {
    hide FieldsBytes, SetFields, DecodeFields, FieldsOf;
    FieldsRead(FieldsOf(e), EMPTY_EDIT);
    SetAll(e);
  }

  /** A record with every kind of item, byte for byte. */
  lemma EditExample()
    ensures EditBytes(Edit(Some([99]), Some(300), Some(10), Some(12), Some(5), [(1, [97])], [(2, 8)], [(3, FileMeta(9, 200, [98], [99]))]))
      == [1, 1, 99, 2, 172, 2, 9, 10, 3, 12, 4, 5, 5, 1, 1, 97, 6, 2, 8, 7, 3, 9, 200, 1, 1, 98, 1, 99]
  {
    NumberExamples();
    FileExamples();
    hide FieldBytes, FieldsBytes, FieldsOf;
    var fs := [Comparator([99]), LogNumber(300), PrevLogNumber(10), NextFile(12), LastSequence(5), CompactPointer(1, [97]), DeletedFile(2, 8),
               NewFile(3, FileMeta(9, 200, [98], [99]))];
    ExampleFields(fs);
    EightFields(fs);
  }

  lemma NumberExamples()
    ensures FieldBytes(Comparator([99])) == [1, 1, 99] && FieldBytes(LogNumber(300)) == [2, 172, 2]
    ensures FieldBytes(PrevLogNumber(10)) == [9, 10] && FieldBytes(NextFile(12)) == [3, 12] && FieldBytes(LastSequence(5)) == [4, 5]
  {
    assert Varint(300) == [172, 2];
  }

  lemma FileExamples()
    ensures FieldBytes(CompactPointer(1, [97])) == [5, 1, 1, 97] && FieldBytes(DeletedFile(2, 8)) == [6, 2, 8]
    ensures FieldBytes(NewFile(3, FileMeta(9, 200, [98], [99]))) == [7, 3, 9, 200, 1, 1, 98, 1, 99]
  {
    assert Varint(200) == [200, 1];
  }

  lemma ExampleFields(fs: seq<Field>)
    requires fs == [Comparator([99]), LogNumber(300), PrevLogNumber(10), NextFile(12), LastSequence(5), CompactPointer(1, [97]), DeletedFile(2, 8),
                    NewFile(3, FileMeta(9, 200, [98], [99]))]
    ensures FieldsOf(Edit(Some([99]), Some(300), Some(10), Some(12), Some(5), [(1, [97])], [(2, 8)], [(3, FileMeta(9, 200, [98], [99]))])) == fs
  {
    hide FieldBytes;
  }

  lemma FirstFields(fs: seq<Field>)
    requires |fs| >= 2
    ensures FieldsBytes(fs) == FieldBytes(fs[0]) + FieldBytes(fs[1]) + FieldsBytes(fs[2..])
  {
    hide FieldBytes;
    assert fs[1..][1..] == fs[2..];
    assert FieldsBytes(fs[1..]) == FieldBytes(fs[1]) + FieldsBytes(fs[2..]);
  }

  lemma EightFields(fs: seq<Field>)
    requires |fs| == 8
    ensures FieldsBytes(fs) == FieldBytes(fs[0]) + FieldBytes(fs[1]) + (FieldBytes(fs[2]) + FieldBytes(fs[3])
      + (FieldBytes(fs[4]) + FieldBytes(fs[5]) + (FieldBytes(fs[6]) + FieldBytes(fs[7]))))
  {
    FirstFields(fs);
    FirstFields(fs[2..]);
    FirstFields(fs[4..]);
    FirstFields(fs[6..]);
    assert fs[2..][2..] == fs[4..] && fs[4..][2..] == fs[6..] && fs[6..][2..] == [];
    assert FieldsBytes([]) == [];
    hide FieldBytes, FieldsBytes;
  }
}
