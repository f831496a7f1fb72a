/** DBIter (db/db_iter.cc): a bidirectional cursor over the newest visible undeleted entries. */
module UserIteration {
  import opened Format
  import opened Merger

  ghost predicate Seen(es: seq<Entry>, i: nat, s: nat) {
    i < |es| && es[i].key.seqno <= s
  }

  /** The newest visible entry of its key, and not a deletion. */
  ghost predicate IsLive(es: seq<Entry>, i: nat, s: nat) {
    && Seen(es, i, s) && es[i].key.kind.Put?
    && forall j :: 0 <= j < i && es[j].key.user == es[i].key.user ==> !Seen(es, j, s)
  }

  /** The first live entry at or after `i`, or one past the end. */
  ghost function NextLive(es: seq<Entry>, i: nat, s: nat): (n: nat)
    requires i <= |es|
    ensures i <= n <= |es| && (n < |es| ==> IsLive(es, n, s))
    ensures forall j :: i <= j < n ==> !IsLive(es, j, s)
    decreases |es| - i
  {
    if i == |es| || IsLive(es, i, s) then i else NextLive(es, i + 1, s)
  }

  /** The last live entry before `i`, or one past the end if there is none. */
  ghost function PrevLive(es: seq<Entry>, i: nat, s: nat): (n: nat)
    requires i <= |es|
    ensures n == |es| || (n < i && IsLive(es, n, s))
    ensures forall j :: 0 <= j < i && (n == |es| || n < j) ==> !IsLive(es, j, s)
  {
    if i == 0 then |es| else if IsLive(es, i - 1, s) then i - 1 else PrevLive(es, i - 1, s)
  }

  lemma NextLiveIs(es: seq<Entry>, i: nat, s: nat, n: nat)
    requires i <= n <= |es| && (n < |es| ==> IsLive(es, n, s))
    requires forall j :: i <= j < n ==> !IsLive(es, j, s)
    ensures NextLive(es, i, s) == n
  {
    var m := NextLive(es, i, s);
    var hint := m < |es| && IsLive(es, m, s);
  }

  lemma PrevLiveIs(es: seq<Entry>, i: nat, s: nat, n: nat)
    requires i <= |es| && (n == |es| || (n < i && IsLive(es, n, s)))
    requires forall j :: 0 <= j < i && (n == |es| || n < j) ==> !IsLive(es, j, s)
    ensures PrevLive(es, i, s) == n
  {
    var m := PrevLive(es, i, s);
    var hint := m < |es| && IsLive(es, m, s);
  }

  /** The live entries are exactly what reads at that sequence find. */
  lemma ReadIsLive(es: seq<Entry>, all: iset<Entry>, s: nat, k: UserKey, v: Value)
    requires Sorted(es) && forall e :: e in all <==> e in es
    ensures Read(all, k, s) == Some(v) <==> exists j: nat :: IsLive(es, j, s) && es[j].key.user == k && es[j].value == v
  {
    forall a, b | a in all && b in all && a.key.user == b.key.user && a.key.seqno == b.key.seqno ensures a == b {
      var i: nat :| i < |es| && es[i] == a;
      var j: nat :| j < |es| && es[j] == b;
      SameKeyOrder(es, i, j);
    }
    if j: nat :| IsLive(es, j, s) && es[j].key.user == k && es[j].value == v {
      LiveIsNewest(es, all, s, j);
      ReadNewest(all, k, s, es[j]);
    }
    if Read(all, k, s) == Some(v) {
      var e :| IsNewest(all, k, s, e) && e.key.kind.Put?;
      ReadNewest(all, k, s, e);
      var j: nat :| j < |es| && es[j] == e;
      LiveIsNewest(es, all, s, j);
    }
  }

  lemma LiveIsNewest(es: seq<Entry>, all: iset<Entry>, s: nat, j: nat)
    requires Sorted(es) && j < |es| && forall e :: e in all <==> e in es
    ensures IsLive(es, j, s) <==> es[j].key.kind.Put? && IsNewest(all, es[j].key.user, s, es[j])
  {
    forall i: nat | i < |es| && es[i].key.user == es[j].key.user ensures i < j <==> es[i].key.seqno > es[j].key.seqno {
      SameKeyOrder(es, i, j);
    }
    if IsLive(es, j, s) {
      forall o | o in all && Visible(o, es[j].key.user, s) ensures o.key.seqno <= es[j].key.seqno {
        var i: nat :| i < |es| && es[i] == o;
        var hint := Seen(es, i, s);
      }
    }
    if es[j].key.kind.Put? && IsNewest(all, es[j].key.user, s, es[j]) {
      forall i: nat | i < j && es[i].key.user == es[j].key.user ensures !Seen(es, i, s) {
        assert es[i] in all;
      }
    }
  }

  lemma LiveUsersDiffer(es: seq<Entry>, s: nat, i: nat, j: nat)
    requires Sorted(es) && IsLive(es, i, s) && IsLive(es, j, s) && i < j
    ensures es[i].key.user < es[j].key.user
  {
    UsersGrow(es, i, j);
  }

  /** Nothing visible strictly between two positions. */
  ghost predicate BlindBetween(es: seq<Entry>, a: int, b: int, s: nat) {
    forall j :: 0 <= j < |es| && a < j < b ==> !Seen(es, j, s)
  }

  ghost predicate DeadBetween(es: seq<Entry>, a: int, b: int, s: nat) {
    forall j :: 0 <= j < |es| && a < j < b ==> !IsLive(es, j, s)
  }

  /** Users grow along a sorted run. */
  lemma UsersGrow(es: seq<Entry>, i: nat, j: nat)
    requires Sorted(es) && i <= j < |es|
    ensures es[i].key.user <= es[j].key.user
  {
    if i < j {
      assert Before(es[i].key, es[j].key);
    }
  }

  /** Live, and past the key being skipped. */
  ghost predicate Wanted(es: seq<Entry>, j: nat, s: nat, bound: Option<UserKey>) {
    IsLive(es, j, s) && (bound.Some? ==> es[j].key.user > bound.value)
  }

  ghost predicate NoneWanted(es: seq<Entry>, a: nat, b: nat, s: nat, bound: Option<UserKey>) {
    forall j: nat :: a <= j < b ==> !Wanted(es, j, s, bound)
  }

  ghost predicate Hidden(user: UserKey, hider: Option<UserKey>) {
    hider.Some? && user <= hider.value
  }

  /** The forward scan from `i0` has reached `i`: everything visible before it is hidden by the
      saved key or has a smaller user key than all that follows, and nothing wanted was passed. */
  ghost predicate Scanned(es: seq<Entry>, s: nat, i0: nat, i: nat, bound: Option<UserKey>, hider: Option<UserKey>) {
    && i0 <= i <= |es|
    && (bound.Some? ==> hider.Some? && bound.value <= hider.value)
    && (bound.Some? ==> forall j :: i0 <= j < |es| && Seen(es, j, s) ==> bound.value <= es[j].key.user)
    && (hider == bound || exists j: nat :: i0 <= j < i && Seen(es, j, s) && hider == Some(es[j].key.user))
    && (forall j :: i0 <= j < i && Seen(es, j, s) ==> Hidden(es[j].key.user, hider))
    && (forall j :: 0 <= j < i0 < |es| && Seen(es, j, s) ==> Hidden(es[j].key.user, hider) || es[j].key.user < es[i0].key.user)
    && NoneWanted(es, i0, i, s, bound)
  }

  lemma ScanUnseen(es: seq<Entry>, s: nat, i0: nat, i: nat, bound: Option<UserKey>, hider: Option<UserKey>)
    requires Scanned(es, s, i0, i, bound, hider) && i < |es| && !Seen(es, i, s)
    ensures Scanned(es, s, i0, i + 1, bound, hider)
  {
  }

  lemma ScanDeletion(es: seq<Entry>, s: nat, i0: nat, i: nat, bound: Option<UserKey>, hider: Option<UserKey>)
    requires Sorted(es) && Scanned(es, s, i0, i, bound, hider) && i < |es| && Seen(es, i, s) && es[i].key.kind.Deletion?
    ensures Scanned(es, s, i0, i + 1, bound, Some(es[i].key.user))
  {
    var user := es[i].key.user;
    if hider.Some? && hider != bound {
      var j: nat :| i0 <= j < i && Seen(es, j, s) && hider == Some(es[j].key.user);
      UsersGrow(es, j, i);
    }
    assert hider.Some? ==> hider.value <= user;
    forall j | i0 <= j < i && Seen(es, j, s) ensures es[j].key.user <= user {
      UsersGrow(es, j, i);
    }
  }

  lemma ScanHidden(es: seq<Entry>, s: nat, i0: nat, i: nat, bound: Option<UserKey>, hider: Option<UserKey>)
    requires Sorted(es) && Scanned(es, s, i0, i, bound, hider) && i < |es| && Hidden(es[i].key.user, hider)
    ensures Scanned(es, s, i0, i + 1, bound, hider)
  {
    if hider != bound {
      var j: nat :| i0 <= j < i && Seen(es, j, s) && hider == Some(es[j].key.user);
      UsersGrow(es, j, i);
    }
    assert !Wanted(es, i, s, bound);
  }

  lemma ScanHit(es: seq<Entry>, s: nat, i0: nat, i: nat, bound: Option<UserKey>, hider: Option<UserKey>)
    requires Sorted(es) && Scanned(es, s, i0, i, bound, hider)
    requires i < |es| && Seen(es, i, s) && es[i].key.kind.Put? && !Hidden(es[i].key.user, hider)
    ensures Wanted(es, i, s, bound) && IsLive(es, i, s) && NoneWanted(es, i0, i, s, bound)
  {
    UsersGrow(es, i0, i);
  }

  lemma ScanEnd(es: seq<Entry>, s: nat, i0: nat, i: nat, bound: Option<UserKey>, hider: Option<UserKey>)
    requires Scanned(es, s, i0, i, bound, hider)
    ensures NoneWanted(es, i0, i, s, bound)
  {
  }

  /** The backward scan from `b` has reached `i`; `p` is the newest entry seen so far of a key
      that is not deleted as far as has been seen. */
  ghost predicate ScannedBack(es: seq<Entry>, s: nat, i: int, b: int, found: Option<nat>) {
    && -1 <= i <= b < |es|
    && match found
      case None => DeadBetween(es, i, b + 1, s)
      case Some(p) => i < p <= b && Seen(es, p, s) && es[p].key.kind.Put? && BlindBetween(es, i, p, s) && DeadBetween(es, p, b + 1, s)
  }

  lemma ScanBackStart(es: seq<Entry>, s: nat, b: int)
    requires -1 <= b < |es|
    ensures ScannedBack(es, s, b, b, None)
  {
  }

  lemma ScanBackUnseen(es: seq<Entry>, s: nat, i: nat, b: int, found: Option<nat>)
    requires ScannedBack(es, s, i, b, found) && !Seen(es, i, s)
    ensures ScannedBack(es, s, i - 1, b, found)
  {
  }

  lemma ScanBackSeen(es: seq<Entry>, s: nat, i: nat, b: int, found: Option<nat>)
    requires Sorted(es) && ScannedBack(es, s, i, b, found) && Seen(es, i, s)
    requires found.Some? ==> found.value < |es| && es[i].key.user >= es[found.value].key.user
    ensures ScannedBack(es, s, i - 1, b, if es[i].key.kind.Put? then Some(i) else None)
  {
    if found.Some? {
      UsersGrow(es, i, found.value);
      assert !IsLive(es, found.value, s);
    }
  }

  lemma ScanBackNone(es: seq<Entry>, s: nat, i: int, b: int)
    requires ScannedBack(es, s, i, b, None) && i == -1
    ensures PrevLive(es, b + 1, s) == |es|
  {
    PrevLiveIs(es, b + 1, s, |es|);
  }

  lemma ScanBackHit(es: seq<Entry>, s: nat, i: int, b: int, p: nat)
    requires Sorted(es) && ScannedBack(es, s, i, b, Some(p))
    requires i >= 0 ==> Seen(es, i, s) && es[i].key.user < es[p].key.user
    ensures i < p && IsLive(es, p, s) && BlindBetween(es, i, p, s) && PrevLive(es, b + 1, s) == p
  {
    forall j | 0 <= j < p && es[j].key.user == es[p].key.user ensures !Seen(es, j, s) {
      if j <= i {
        UsersGrow(es, j, i);
      }
    }
    PrevLiveIs(es, b + 1, s, p);
  }

  /** Skipping starts right: at the shown entry, or after the last visible one before it. */
  lemma SkipCurrent(es: seq<Entry>, s: nat, from: nat, cur: nat)
    requires Sorted(es) && from <= cur < |es| && BlindBetween(es, from - 1, cur, s)
    ensures Scanned(es, s, from, from, Some(es[cur].key.user), Some(es[cur].key.user))
  {
    forall j: nat | j < |es| ensures j <= cur ==> es[j].key.user <= es[cur].key.user {
      if j <= cur {
        UsersGrow(es, j, cur);
      }
    }
    forall j | from <= j < |es| && Seen(es, j, s) ensures es[cur].key.user <= es[j].key.user {
      UsersGrow(es, cur, j);
    }
  }

  lemma NextAfter(es: seq<Entry>, s: nat, from: nat, cur: nat, next: nat)
    requires Sorted(es) && from <= cur < |es| && IsLive(es, cur, s) && from <= next <= |es|
    requires next < |es| ==> Wanted(es, next, s, Some(es[cur].key.user))
    requires NoneWanted(es, from, next, s, Some(es[cur].key.user))
    ensures next == NextLive(es, cur + 1, s)
  {
    if next <= cur {
      UsersGrow(es, next, cur);
    }
    forall j: nat | cur < j < next ensures !IsLive(es, j, s) {
      UsersGrow(es, cur, j);
      var hint := Wanted(es, j, s, Some(es[cur].key.user));
    }
    NextLiveIs(es, cur + 1, s, next);
  }

  lemma NextFromFirst(es: seq<Entry>, s: nat, next: nat)
    requires next <= |es| && (next < |es| ==> IsLive(es, next, s)) && NoneWanted(es, 0, next, s, None)
    ensures next == NextLive(es, 0, s)
  {
    forall j: nat | j < next ensures !IsLive(es, j, s) {
      var hint := Wanted(es, j, s, None);
    }
    NextLiveIs(es, 0, s, next);
  }

  /** Backing up to `b` passes nothing live. */
  lemma PrevBefore(es: seq<Entry>, s: nat, b: int, cur: nat)
    requires Sorted(es) && -1 <= b < cur < |es| && IsLive(es, cur, s)
    requires BlindBetween(es, b, cur, s) || forall j :: b < j < cur ==> es[j].key.user == es[cur].key.user
    ensures PrevLive(es, cur, s) == PrevLive(es, b + 1, s)
  {
    PrevLiveIs(es, cur, s, PrevLive(es, b + 1, s));
  }

  lemma SeekStarts(es: seq<Entry>, s: nat, target: UserKey)
    requires Sorted(es)
    ensures var from := SeekIndex(es, SeekKey(target, s)); Scanned(es, s, from, from, None, None)
  {
  }

  lemma SeekFinds(es: seq<Entry>, s: nat, target: UserKey, from: nat, cur: nat)
    requires Sorted(es) && from == SeekIndex(es, SeekKey(target, s)) && from <= cur <= |es|
    requires cur < |es| ==> IsLive(es, cur, s)
    requires NoneWanted(es, from, cur, s, None)
    ensures forall j: nat :: IsLive(es, j, s) ==> (j < cur <==> es[j].key.user < target)
  {
    forall j: nat | IsLive(es, j, s) ensures j < cur <==> es[j].key.user < target {
      SeekIndexSplits(es, SeekKey(target, s), j);
      var hint := Wanted(es, j, s, None);
    }
  }

  class DBIter {
    const iter: MergingIterator
    const sequence: nat
    var savedKey: Option<UserKey>
    var savedValue: Value
    var direction: Direction
    var valid: bool
    /** The index of the entry the iterator shows; one past the end when it shows none. */
    ghost var cur: nat

    ghost function Entries(): seq<Entry> {
      iter.merged
    }

    /** In reverse the internal iterator waits at the last visible entry before the shown key's. */
    ghost predicate WaitsBefore(at: nat)
      requires cur < |iter.merged|
      reads this
    {
      var es := iter.merged;
      if at == |es| then BlindBetween(es, -1, cur, sequence)
      else at < cur && Seen(es, at, sequence) && es[at].key.user < es[cur].key.user && BlindBetween(es, at, cur, sequence)
    }

    /** What the fields say of the shown entry. */
    ghost predicate Shows(at: nat)
      requires cur < |iter.merged|
      reads this
    {
      var es := iter.merged;
      match direction
      case Forward => at == cur
      case Reverse => savedKey == Some(es[cur].key.user) && savedValue == es[cur].value && WaitsBefore(at)
    }

    ghost predicate Inv()
      reads this, iter
    {
      var es := iter.merged;
      && iter.Inv() && Sorted(es) && cur <= |es|
      && (valid <==> cur < |es|)
      && (valid ==> IsLive(es, cur, sequence) && Shows(iter.at))
    }

    constructor (iter: MergingIterator, sequence: nat)
      requires iter.Inv() && Sorted(iter.merged)
      ensures Inv() && !valid && this.iter == iter && this.sequence == sequence
    {
      this.iter := iter;
      this.sequence := sequence;
      savedKey, savedValue, direction, valid := None, [], Forward, false;
      cur := |iter.merged|;
    }

    function Key(): UserKey
      requires Inv() && valid
      reads this, iter
      ensures Key() == Entries()[cur].key.user
    {
      if direction == Forward then iter.Current().key.user else savedKey.value
    }

    function Value(): Value
      requires Inv() && valid
      reads this, iter
      ensures Value() == Entries()[cur].value
    {
      if direction == Forward then iter.Current().value else savedValue
    }

    /** Skips entries the saved key hides, until a value that nothing hides. */
    method FindNextUserEntry(skip: bool)
      requires iter.Inv() && Sorted(iter.merged) && iter.Valid() && direction == Forward
      requires skip ==> savedKey.Some?
      requires Scanned(iter.merged, sequence, iter.at, iter.at, if skip then savedKey else None, if skip then savedKey else None)
      modifies this, iter
      ensures Inv() && old(iter.at) <= cur && direction == Forward
      ensures valid ==> Wanted(Entries(), cur, sequence, if skip then old(savedKey) else None)
      ensures NoneWanted(Entries(), old(iter.at), cur, sequence, if skip then old(savedKey) else None)
    {
      hide MergingIterator.Inv, Scanned, Wanted, NoneWanted, Sorted, IsLive;
      ghost var i0 := iter.at;
      ghost var bound := if skip then savedKey else None;
      ghost var es := iter.merged;
      var skipping := skip;
      while iter.Valid()
        invariant iter.Inv() && i0 <= iter.at && direction == Forward && (skipping ==> savedKey.Some?)
        invariant iter.at <= |es| && Scanned(es, sequence, i0, iter.at, bound, if skipping then savedKey else None)
        decreases |es| - iter.at
      {
        var ikey := iter.Current().key;
        if ikey.seqno <= sequence {
          match ikey.kind
          case Deletion =>
            ScanDeletion(es, sequence, i0, iter.at, bound, if skipping then savedKey else None);
            savedKey, skipping := Some(ikey.user), true;
          case Put =>
            if skipping && ikey.user <= savedKey.value {
              ScanHidden(es, sequence, i0, iter.at, bound, if skipping then savedKey else None);
            } else {
              ScanHit(es, sequence, i0, iter.at, bound, if skipping then savedKey else None);
              valid, savedKey := true, None;
              cur := iter.at;
              return;
            }
        } else {
          ScanUnseen(es, sequence, i0, iter.at, bound, if skipping then savedKey else None);
        }
        iter.Next();
      }
      ScanEnd(es, sequence, i0, |es|, bound, if skipping then savedKey else None);
      savedKey, valid := None, false;
      cur := |es|;
    }

    /** Walks back over the entries of one key to its newest visible one, over deleted keys, and
        stops before the first visible entry of a smaller key. */
    method FindPrevUserEntry()
      requires iter.Inv() && Sorted(iter.merged) && direction == Reverse
      modifies this, iter
      ensures Inv()
      ensures cur == PrevLive(Entries(), if old(iter.Valid()) then old(iter.at) + 1 else 0, sequence)
    {
      hide MergingIterator.Inv, ScannedBack, BlindBetween, Sorted;
      var valueType := Deletion;
      ghost var es := iter.merged;
      ghost var b := if iter.Valid() then iter.at else -1;
      ghost var i, p: nat := b, 0;
      ScanBackStart(es, sequence, b);
      while iter.Valid()
        invariant iter.Inv() && iter.at <= |es| && direction == Reverse
        invariant -1 <= i <= b < |es| && iter.at == if i >= 0 then i else |es|
        invariant ScannedBack(es, sequence, i, b, if valueType.Put? then Some(p) else None)
        invariant valueType.Put? ==> p < |es| && savedKey == Some(es[p].key.user) && savedValue == es[p].value
        decreases i
      {
        var ikey := iter.Current().key;
        if ikey.seqno <= sequence {
          if valueType != Deletion && ikey.user < savedKey.value {
            break;
          }
          ScanBackSeen(es, sequence, i, b, if valueType.Put? then Some(p) else None);
          valueType := ikey.kind;
          if valueType == Deletion {
            savedKey, savedValue := None, [];
          } else {
            savedKey, savedValue := Some(ikey.user), iter.Current().value;
            p := i;
          }
        } else {
          ScanBackUnseen(es, sequence, i, b, if valueType.Put? then Some(p) else None);
        }
        iter.Prev();
        i := i - 1;
      }
      if valueType == Deletion {
        ScanBackNone(es, sequence, i, b);
        valid, savedKey, savedValue, direction := false, None, [], Forward;
        cur := |es|;
      } else {
        ScanBackHit(es, sequence, i, b, p);
        valid := true;
        cur := p;
      }
    }

    /** Moves to the next live entry, from either direction. */
    method Next()
      requires Inv() && valid
      modifies this, iter
      ensures Inv() && cur == NextLive(Entries(), old(cur) + 1, sequence)
    {
      assert iter.WellFormed();
      hide MergingIterator.Inv, Scanned, Wanted, NoneWanted, BlindBetween;
      ghost var here := cur;
      ghost var from := iter.at;
      if direction == Reverse {
        direction := Forward;
        from := if iter.at == |iter.merged| then 0 else iter.at + 1;
        if !iter.Valid() {
          iter.SeekToFirst();
        } else {
          iter.Next();
        }
        if !iter.Valid() {
          assert false;
        }
      } else {
        savedKey := Some(iter.Current().key.user);
      }
      SkipCurrent(Entries(), sequence, from, here);
      FindNextUserEntry(true);
      NextAfter(Entries(), sequence, from, here, cur);
    }

    /** Moves to the live entry before, from either direction. */
    method Prev()
      requires Inv() && valid
      modifies this, iter
      ensures Inv() && cur == PrevLive(Entries(), old(cur), sequence)
    {
      hide MergingIterator.Inv, IsLive, Sorted;
      ghost var here := cur;
      ghost var es := iter.merged;
      ghost var b: int := iter.at;
      if direction == Forward {
        savedKey := Some(iter.Current().key.user);
        while true
          invariant iter.Inv() && iter.Valid() && b == iter.at && 0 <= b <= here
          invariant savedKey == Some(es[here].key.user) && forall j :: b <= j <= here ==> es[j].key.user == es[here].key.user
          decreases b
        {
          iter.Prev();
          b := b - 1;
          if !iter.Valid() {
            valid, savedKey, savedValue := false, None, [];
            cur := |es|;
            PrevBefore(es, sequence, b, here);
            PrevLiveIs(es, 0, sequence, |es|);
            return;
          }
          if iter.Current().key.user < savedKey.value {
            break;
          }
          UsersGrow(es, b, here);
        }
        direction := Reverse;
        PrevBefore(es, sequence, b, here);
      } else {
        b := if iter.Valid() then b else -1;
        PrevBefore(es, sequence, b, here);
      }
      FindPrevUserEntry();
    }

    /** Moves to the first live entry whose key is at or after the target. */
    method Seek(target: UserKey)
      requires Inv()
      modifies this, iter
      ensures Inv()
      ensures forall j: nat :: IsLive(Entries(), j, sequence) ==> (j < cur <==> Entries()[j].key.user < target)
    {
      assert iter.WellFormed();
      hide MergingIterator.Inv, Scanned;
      direction, savedKey, savedValue := Forward, None, [];
      iter.Seek(SeekKey(target, sequence));
      ghost var from := iter.at;
      SeekStarts(Entries(), sequence, target);
      if iter.Valid() {
        FindNextUserEntry(false);
      } else {
        valid := false;
        cur := |Entries()|;
      }
      SeekFinds(Entries(), sequence, target, from, cur);
    }

    method SeekToFirst()
      requires Inv()
      modifies this, iter
      ensures Inv() && cur == NextLive(Entries(), 0, sequence)
    {
      assert iter.WellFormed();
      hide MergingIterator.Inv;
      direction, savedValue := Forward, [];
      iter.SeekToFirst();
      if iter.Valid() {
        FindNextUserEntry(false);
      } else {
        valid := false;
        cur := |Entries()|;
      }
      NextFromFirst(Entries(), sequence, cur);
    }

    method SeekToLast()
      requires Inv()
      modifies this, iter
      ensures Inv() && cur == PrevLive(Entries(), |Entries()|, sequence)
    {
      assert iter.WellFormed();
      hide MergingIterator.Inv;
      direction, savedValue := Reverse, [];
      iter.SeekToLast();
      FindPrevUserEntry();
    }
  }

  ghost predicate Ascending(pairs: seq<(UserKey, Value)>) {
    forall i, j :: 0 <= i < j < |pairs| ==> pairs[i].0 < pairs[j].0
  }

  ghost predicate LiveAt(es: seq<Entry>, s: nat, j: nat, k: UserKey, v: Value) {
    IsLive(es, j, s) && es[j].key.user == k && es[j].value == v
  }

  /** The pairs are the live entries before `cur`. */
  ghost predicate ScannedTo(es: seq<Entry>, s: nat, cur: nat, pairs: seq<(UserKey, Value)>) {
    && Ascending(pairs)
    && (forall k, v :: (k, v) in pairs <==> exists j: nat :: j < cur && LiveAt(es, s, j, k, v))
  }

  lemma ScanStarts(es: seq<Entry>, s: nat)
    ensures ScannedTo(es, s, NextLive(es, 0, s), [])
  {
  }

  lemma ScanStep(es: seq<Entry>, s: nat, cur: nat, pairs: seq<(UserKey, Value)>)
    requires Sorted(es) && ScannedTo(es, s, cur, pairs) && IsLive(es, cur, s)
    ensures ScannedTo(es, s, NextLive(es, cur + 1, s), pairs + [(es[cur].key.user, es[cur].value)])
  {
    var pair := (es[cur].key.user, es[cur].value);
    forall i | 0 <= i < |pairs| ensures pairs[i].0 < pair.0 {
      assert pairs[i] == (pairs[i].0, pairs[i].1) && pairs[i] in pairs;
      var j: nat :| j < cur && LiveAt(es, s, j, pairs[i].0, pairs[i].1);
      LiveUsersDiffer(es, s, j, cur);
    }
    var next := NextLive(es, cur + 1, s);
    assert LiveAt(es, s, cur, pair.0, pair.1);
    forall k, v ensures (k, v) in pairs + [pair] <==> exists j: nat :: j < next && LiveAt(es, s, j, k, v) {
      if j: nat :| j < next && LiveAt(es, s, j, k, v) {
        assert j <= cur;
      }
    }
  }

  lemma ScanEnds(es: seq<Entry>, all: iset<Entry>, s: nat, pairs: seq<(UserKey, Value)>)
    requires Sorted(es) && ScannedTo(es, s, |es|, pairs) && forall e :: e in all <==> e in es
    ensures Ascending(pairs) && forall k, v :: (k, v) in pairs <==> Read(all, k, s) == Some(v)
  {
    forall k, v ensures (k, v) in pairs <==> Read(all, k, s) == Some(v) {
      ReadIsLive(es, all, s, k, v);
      if j: nat :| IsLive(es, j, s) && es[j].key.user == k && es[j].value == v {
        assert LiveAt(es, s, j, k, v);
      }
    }
  }

  /** From SeekToFirst on, Next yields every key a read finds, once, in key order. */
  method Scan(it: DBIter, ghost all: iset<Entry>) returns (pairs: seq<(UserKey, Value)>)
    requires it.Inv() && forall e :: e in all <==> e in it.Entries()
    modifies it, it.iter
    ensures Ascending(pairs) && forall k, v :: (k, v) in pairs <==> Read(all, k, it.sequence) == Some(v)
  {
    assert Sorted(it.Entries());
    hide DBIter.Inv, DBIter.Shows, Read, Ascending, ScannedTo, IsLive, Sorted;
    pairs := [];
    it.SeekToFirst();
    ghost var es, s := it.Entries(), it.sequence;
    ScanStarts(es, s);
    while it.valid
      invariant it.Inv() && it.cur <= |es| && ScannedTo(es, s, it.cur, pairs)
      decreases |es| - it.cur
    {
      ShownIsLive(it);
      ScanStep(es, s, it.cur, pairs);
      pairs := pairs + [(it.Key(), it.Value())];
      it.Next();
    }
    ShownIsLive(it);
    ScanEnds(es, all, s, pairs);
  }

  lemma ShownIsLive(it: DBIter)
    requires it.Inv()
    ensures it.valid <==> it.cur < |it.Entries()|
    ensures it.valid ==> IsLive(it.Entries(), it.cur, it.sequence)
  {
  }
}
