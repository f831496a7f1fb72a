/** Finding the files that matter for a key or a range (db/version_set.cc). */
module Overlap {
  import opened Format
  import opened Versions
  import opened CompactionReads

  /** Neither before `lo` nor after `hi`; a missing bound is unbounded. */
  predicate InRange(f: File, lo: Option<UserKey>, hi: Option<UserKey>) {
    && !(lo.Some? && f.largest.user < lo.value)
    && !(hi.Some? && f.smallest.user > hi.value)
  }

  /** FindFile: the first file whose largest key is at or after `key`, by binary search. */
  method FindFile(files: seq<File>, key: IKey) returns (right: nat)
    requires forall i, j :: 0 <= i < j < |files| ==> Less(files[i].largest, files[j].largest)
    ensures right <= |files|
    ensures forall i :: 0 <= i < right ==> Less(files[i].largest, key)
    ensures forall i :: right <= i < |files| ==> !Less(files[i].largest, key)
  {
    var left := 0;
    right := |files|;
    while left < right
      invariant 0 <= left <= right <= |files|
      invariant forall i :: 0 <= i < left ==> Less(files[i].largest, key)
      invariant forall i :: right <= i < |files| ==> !Less(files[i].largest, key)
    {
      var mid := (left + right) / 2;
      if Less(files[mid].largest, key) {
        left := mid + 1;
      } else {
        right := mid;
      }
    }
  }

  lemma RowLargestSorted(files: seq<File>, lastSequence: nat)
    requires Row(files, lastSequence)
    ensures forall i, j :: 0 <= i < j < |files| ==> Less(files[i].largest, files[j].largest)
  {
    forall i: nat, j: nat | i < j < |files| ensures Less(files[i].largest, files[j].largest) {
      Follow(files, lastSequence, i, j);
      hide Row;
      EntryInRange(files[j], lastSequence, files[j].entries[0]);
    }
  }

  /** SomeFileOverlapsRange: exact for any file list, and by one probe for a sorted level. */
  method SomeFileOverlapsRange(disjointSorted: bool, files: seq<File>, lo: Option<UserKey>, hi: Option<UserKey>,
                               ghost lastSequence: nat) returns (overlaps: bool)
    requires disjointSorted ==> Row(files, lastSequence) && lastSequence <= MAX_SEQUENCE
    ensures overlaps <==> exists f :: f in files && InRange(f, lo, hi)
  {
    if !disjointSorted {
      for i := 0 to |files|
        invariant forall j :: 0 <= j < i ==> !InRange(files[j], lo, hi)
      {
        if InRange(files[i], lo, hi) {
          return true;
        }
      }
      return false;
    }
    var index := 0;
    if lo.Some? {
      RowLargestSorted(files, lastSequence);
      index := FindFile(files, SeekKey(lo.value, MAX_SEQUENCE));
    }
    forall i: nat | i < |files| ensures files[i].largest.seqno <= MAX_SEQUENCE {
      Follow(files, lastSequence, i, i);
      hide Row;
      assert files[i].entries[|files[i].entries| - 1] in files[i].entries;
    }
    if index >= |files| {
      return false;
    }
    overlaps := !(hi.Some? && hi.value < files[index].smallest.user);
    forall i: nat | index <= i < |files| ensures files[index].smallest.user <= files[i].smallest.user {
      Follow(files, lastSequence, index, i);
    }
    hide Row;
    if overlaps {
      assert files[index] in files && InRange(files[index], lo, hi);
    }
  }

  /** The files of a list inside a range, in list order. */
  function Select(files: seq<File>, lo: Option<UserKey>, hi: Option<UserKey>): (inputs: seq<File>)
    ensures forall f :: f in inputs <==> f in files && InRange(f, lo, hi)
  {
    if files == [] then []
    else
      var rest := Select(files[..|files| - 1], lo, hi);
      var f := files[|files| - 1];
      if InRange(f, lo, hi) then rest + [f] else rest
  }

  ghost predicate Wider(lo: Option<UserKey>, hi: Option<UserKey>, lo': Option<UserKey>, hi': Option<UserKey>) {
    && (lo'.Some? ==> lo.Some? && lo'.value <= lo.value)
    && (hi'.Some? ==> hi.Some? && hi.value <= hi'.value)
  }

  /** Widening a range selects no fewer files, and the same number only if the same files. */
  lemma {:induction false} SelectWider(files: seq<File>, lo: Option<UserKey>, hi: Option<UserKey>, lo': Option<UserKey>, hi': Option<UserKey>)
    requires Wider(lo, hi, lo', hi')
    ensures |Select(files, lo, hi)| <= |Select(files, lo', hi')|
    ensures |Select(files, lo, hi)| == |Select(files, lo', hi')| ==> Select(files, lo, hi) == Select(files, lo', hi')
  {
    if files != [] {
      SelectWider(files[..|files| - 1], lo, hi, lo', hi');
    }
  }

  /** Every file that overlaps the range lies inside it. */
  ghost predicate Closed(files: seq<File>, lo: Option<UserKey>, hi: Option<UserKey>) {
    forall f :: f in files && InRange(f, lo, hi) ==>
      && (lo.Some? ==> lo.value <= f.smallest.user)
      && (hi.Some? ==> f.largest.user <= hi.value)
  }

  /** The least range that contains `begin..end` and is closed under overlap. */
  ghost predicate LeastClosed(files: seq<File>, begin: Option<UserKey>, end: Option<UserKey>, lo: Option<UserKey>, hi: Option<UserKey>) {
    && Wider(begin, end, lo, hi) && (begin.Some? <==> lo.Some?) && (end.Some? <==> hi.Some?)
    && Closed(files, lo, hi)
    && forall l, h :: Wider(begin, end, l, h) && Closed(files, l, h) ==> Wider(lo, hi, l, h)
  }

  ghost function StartsBefore(files: seq<File>, b: Option<UserKey>): set<File> {
    set f | f in files && b.Some? && f.smallest.user < b.value
  }

  ghost function EndsAfter(files: seq<File>, e: Option<UserKey>): set<File> {
    set f | f in files && e.Some? && f.largest.user > e.value
  }

  /** Version::GetOverlappingInputs.  At level 0 the range grows until it is closed under overlap,
      restarting the scan each time. */
  method GetOverlappingInputs(files: seq<File>, level: nat, begin: Option<UserKey>, end: Option<UserKey>)
    returns (inputs: seq<File>, ghost lo: Option<UserKey>, ghost hi: Option<UserKey>)
    requires forall f :: f in files ==> f.smallest.user <= f.largest.user
    ensures level > 0 ==> lo == begin && hi == end
    ensures level == 0 ==> LeastClosed(files, begin, end, lo, hi)
    ensures inputs == Select(files, lo, hi)
  {
    inputs := [];
    var userBegin, userEnd := begin, end;
    var i := 0;
    while i < |files|
      invariant 0 <= i <= |files|
      invariant level > 0 ==> userBegin == begin && userEnd == end
      invariant Wider(begin, end, userBegin, userEnd) && (begin.Some? <==> userBegin.Some?) && (end.Some? <==> userEnd.Some?)
      invariant level == 0 ==> forall l, h :: Wider(begin, end, l, h) && Closed(files, l, h) ==> Wider(userBegin, userEnd, l, h)
      invariant level == 0 ==> Closed(files[..i], userBegin, userEnd)
      invariant inputs == Select(files[..i], userBegin, userEnd)
      decreases StartsBefore(files, userBegin), EndsAfter(files, userEnd), |files| - i
    {
      var f := files[i];
      assert files[..i + 1][..i] == files[..i];
      i := i + 1;
      if userBegin.Some? && f.largest.user < userBegin.value {
      } else if userEnd.Some? && f.smallest.user > userEnd.value {
      } else {
        inputs := inputs + [f];
        if level == 0 {
          if userBegin.Some? && f.smallest.user < userBegin.value {
            GrowBegin(files, f, begin, end, userBegin, userEnd);
            userBegin := Some(f.smallest.user);
            inputs := [];
            i := 0;
          } else if userEnd.Some? && f.largest.user > userEnd.value {
            GrowEnd(files, f, begin, end, userBegin, userEnd);
            userEnd := Some(f.largest.user);
            inputs := [];
            i := 0;
          }
        }
      }
    }
    assert files[..i] == files;
    lo, hi := userBegin, userEnd;
  }

  lemma GrowBegin(files: seq<File>, f: File, begin: Option<UserKey>, end: Option<UserKey>, b: Option<UserKey>, e: Option<UserKey>)
    requires f in files && InRange(f, b, e) && b.Some? && f.smallest.user < b.value
    requires forall l, h :: Wider(begin, end, l, h) && Closed(files, l, h) ==> Wider(b, e, l, h)
    ensures StartsBefore(files, Some(f.smallest.user)) < StartsBefore(files, b)
    ensures forall l, h :: Wider(begin, end, l, h) && Closed(files, l, h) ==> Wider(Some(f.smallest.user), e, l, h)
  {
    assert f in StartsBefore(files, b);
  }

  lemma GrowEnd(files: seq<File>, f: File, begin: Option<UserKey>, end: Option<UserKey>, b: Option<UserKey>, e: Option<UserKey>)
    requires f in files && InRange(f, b, e) && e.Some? && f.largest.user > e.value
    requires forall l, h :: Wider(begin, end, l, h) && Closed(files, l, h) ==> Wider(b, e, l, h)
    ensures EndsAfter(files, Some(f.largest.user)) < EndsAfter(files, e)
    ensures forall l, h :: Wider(begin, end, l, h) && Closed(files, l, h) ==> Wider(b, Some(f.largest.user), l, h)
  {
    assert f in EndsAfter(files, e);
  }
}
