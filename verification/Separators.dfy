/** Byte-wise key order and the short keys that stand between blocks (util/comparator.cc, db/dbformat.cc). */
module Separators {
  import opened Format

  /** BytewiseComparator: shorter first where one string begins the other. */
  predicate Below(a: seq<byte>, b: seq<byte>) {
    b != [] && (a == [] || a[0] < b[0] || (a[0] == b[0] && Below(a[1..], b[1..])))
  }

  lemma {:induction false} BelowTotal(a: seq<byte>, b: seq<byte>)
    ensures Below(a, b) || Below(b, a) || a == b
    ensures !(Below(a, b) && Below(b, a)) && !Below(a, a)
  {
    if a != [] {
      BelowTotal(a[1..], a[1..]);
      if b != [] {
        BelowTotal(a[1..], b[1..]);
        assert a == [a[0]] + a[1..] && b == [b[0]] + b[1..];
      }
    }
  }

  lemma {:induction false} BelowTrans(a: seq<byte>, b: seq<byte>, c: seq<byte>)
    requires Below(a, b) && Below(b, c)
    ensures Below(a, c)
  {
    if a != [] && a[0] == b[0] && b[0] == c[0] {
      BelowTrans(a[1..], b[1..], c[1..]);
    }
  }

  /** Strings that agree up to `d` are ordered by what comes there. */
  lemma {:induction false} FirstDifference(a: seq<byte>, b: seq<byte>, d: nat)
    requires d <= |a| && d <= |b| && a[..d] == b[..d]
    ensures Below(a, b) <==> Below(a[d..], b[d..])
  {
    if d > 0 {
      assert a[0] == a[..d][0] && b[0] == b[..d][0];
      assert a[1..][..d - 1] == a[..d][1..] && b[1..][..d - 1] == b[..d][1..];
      FirstDifference(a[1..], b[1..], d - 1);
      assert a[1..][d - 1..] == a[d..] && b[1..][d - 1..] == b[d..];
    } else {
      assert a[0..] == a && b[0..] == b;
    }
  }

  /** FindShortestSeparator of the byte-wise comparator. */
  method FindShortestSeparator(start: seq<byte>, limit: seq<byte>) returns (sep: seq<byte>)
    ensures sep == start || Below(start, sep)
    ensures if Below(start, limit) then Below(sep, limit) else sep == start
    ensures |sep| <= |start|
  {
    var minLength := if |start| < |limit| then |start| else |limit|;
    var diff := 0;
    while diff < minLength && start[diff] == limit[diff]
      invariant diff <= minLength && start[..diff] == limit[..diff]
    {
      diff := diff + 1;
    }
    sep := start;
    if diff < minLength {
      FirstDifference(start, limit, diff);
      if start[diff] < 255 && start[diff] + 1 < limit[diff] {
        sep := start[..diff] + [start[diff] + 1];
        assert sep[..diff] == start[..diff];
        FirstDifference(start, sep, diff);
        FirstDifference(sep, limit, diff);
      }
    }
  }

  /** FindShortSuccessor of the byte-wise comparator: a run of 0xff bytes is left alone. */
  method FindShortSuccessor(key: seq<byte>) returns (succ: seq<byte>)
    ensures succ == key || Below(key, succ)
    ensures |succ| <= |key|
    ensures succ == key <==> forall j :: 0 <= j < |key| ==> key[j] == 255
  {
    var i := 0;
    while i < |key|
      invariant i <= |key| && forall j :: 0 <= j < i ==> key[j] == 255
    {
      if key[i] != 255 {
        succ := key[..i] + [key[i] + 1];
        assert succ[..i] == key[..i];
        FirstDifference(key, succ, i);
        assert succ[i] != key[i];
        return;
      }
      i := i + 1;
    }
    return key;
  }

  /** An internal key: a user key and its packed sequence number and type. */
  datatype InternalKey = InternalKey(user: seq<byte>, tag: nat)

  const SEEK_TAG: nat := MAX_SEQUENCE * 256 + 1

  /** InternalKeyComparator::Compare. */
  predicate KeyLess(a: InternalKey, b: InternalKey) {
    Below(a.user, b.user) || (a.user == b.user && a.tag > b.tag)
  }

  lemma KeyTotal(a: InternalKey, b: InternalKey)
    ensures KeyLess(a, b) || KeyLess(b, a) || a == b
    ensures !(KeyLess(a, b) && KeyLess(b, a)) && !KeyLess(a, a)
  {
    BelowTotal(a.user, b.user);
    BelowTotal(a.user, a.user);
  }

  lemma KeyTrans(a: InternalKey, b: InternalKey, c: InternalKey)
    requires KeyLess(a, b) && KeyLess(b, c)
    ensures KeyLess(a, c)
  {
    if Below(a.user, b.user) && Below(b.user, c.user) {
      BelowTrans(a.user, b.user, c.user);
    }
  }

  /** InternalKeyComparator::FindShortestSeparator: between two keys, at or after the first. */
  method FindKeySeparator(start: InternalKey, limit: InternalKey) returns (sep: InternalKey)
    requires KeyLess(start, limit)
    ensures (sep == start || KeyLess(start, sep)) && KeyLess(sep, limit)
    ensures |sep.user| <= |start.user| && (sep == start || sep.tag == SEEK_TAG)
  {
    var tmp := FindShortestSeparator(start.user, limit.user);
    if |tmp| < |start.user| && Below(start.user, tmp) {
      sep := InternalKey(tmp, SEEK_TAG);
    } else {
      sep := start;
    }
  }

  /** InternalKeyComparator::FindShortSuccessor. */
  method FindKeySuccessor(key: InternalKey) returns (succ: InternalKey)
    ensures succ == key || KeyLess(key, succ)
    ensures |succ.user| <= |key.user| && (succ == key || succ.tag == SEEK_TAG)
  {
    var tmp := FindShortSuccessor(key.user);
    if |tmp| < |key.user| && Below(key.user, tmp) {
      succ := InternalKey(tmp, SEEK_TAG);
    } else {
      succ := key;
    }
  }
}
