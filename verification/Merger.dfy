/** MergingIterator (table/merger.cc): a bidirectional cursor over the merge of sorted children. */
module Merger {
  import opened Format

  datatype Direction = Forward | Reverse

  ghost predicate HeldByChild(children: seq<seq<Entry>>, e: Entry) {
    exists i, j :: 0 <= i < |children| && 0 <= j < |children[i]| && children[i][j] == e
  }

  /** The children are sorted, have no two equal keys between them, and merge into `merged`. */
  ghost predicate MergeOf(children: seq<seq<Entry>>, merged: seq<Entry>) {
    && Sorted(merged)
    && (forall i :: 0 <= i < |children| ==> Sorted(children[i]))
    && (forall i, j :: 0 <= i < |children| && 0 <= j < |children[i]| ==> children[i][j] in merged)
    && (forall r :: 0 <= r < |merged| ==> HeldByChild(children, merged[r]))
    && (forall i, j, k, l | 0 <= i < |children| && 0 <= k < |children| && 0 <= j < |children[i]| && 0 <= l < |children[k]| ::
      children[i][j] == children[k][l] ==> i == k && j == l)
  }

  /** The children's entries before their positions are exactly the first `q` of the merge. */
  ghost predicate SplitAt(children: seq<seq<Entry>>, pos: seq<nat>, merged: seq<Entry>, q: nat) {
    && |pos| == |children| && q <= |merged|
    && (forall i :: 0 <= i < |children| ==> pos[i] <= |children[i]|)
    && (forall i, j, r :: 0 <= i < |children| && 0 <= j < |children[i]| && 0 <= r < |merged| && children[i][j] == merged[r] ==>
      (j < pos[i] <==> r < q))
  }

  /** Seen from the right: how many entries of each child are at or before its position. */
  ghost function Lefts(children: seq<seq<Entry>>, pos: seq<nat>): seq<nat>
    requires |pos| == |children|
  {
    seq(|pos|, i requires 0 <= i < |pos| => if pos[i] == |children[i]| then 0 else pos[i] + 1)
  }

  lemma DistinctRanks(merged: seq<Entry>, r: nat, q: nat)
    requires Sorted(merged) && r < |merged| && q < |merged| && merged[r] == merged[q]
    ensures r == q
  {
    OrderIff(merged, r, q);
    OrderIff(merged, q, r);
  }

  lemma RankOf(children: seq<seq<Entry>>, merged: seq<Entry>, i: nat, j: nat) returns (r: nat)
    requires MergeOf(children, merged) && i < |children| && j < |children[i]|
    ensures r < |merged| && merged[r] == children[i][j] && Sorted(children[i]) && Sorted(merged)
  {
    assert children[i][j] in merged;
    r :| r < |merged| && merged[r] == children[i][j];
  }

  lemma PlaceOf(children: seq<seq<Entry>>, merged: seq<Entry>, r: nat) returns (i: nat, j: nat)
    requires MergeOf(children, merged) && r < |merged|
    ensures i < |children| && j < |children[i]| && children[i][j] == merged[r] && Sorted(children[i]) && Sorted(merged)
  {
    assert HeldByChild(children, merged[r]);
    i, j :| 0 <= i < |children| && 0 <= j < |children[i]| && children[i][j] == merged[r];
  }

  lemma SideOf(children: seq<seq<Entry>>, pos: seq<nat>, merged: seq<Entry>, q: nat, i: nat, j: nat, r: nat)
    requires SplitAt(children, pos, merged, q)
    requires i < |children| && j < |children[i]| && r < |merged| && children[i][j] == merged[r]
    ensures i < |pos| && q <= |merged| && pos[i] <= |children[i]| && (j < pos[i] <==> r < q)
  {
  }

  lemma SplitBounds(children: seq<seq<Entry>>, pos: seq<nat>, merged: seq<Entry>, q: nat)
    requires SplitAt(children, pos, merged, q)
    ensures |pos| == |children| && q <= |merged| && forall i :: 0 <= i < |children| ==> pos[i] <= |children[i]|
  {
  }

  /** The least of the entries at the positions is the next of the merge. */
  lemma SplitHead(children: seq<seq<Entry>>, pos: seq<nat>, merged: seq<Entry>, q: nat, cur: nat)
    requires MergeOf(children, merged) && SplitAt(children, pos, merged, q)
    requires cur < |children| && pos[cur] < |children[cur]|
    requires forall i :: 0 <= i < |children| && pos[i] < |children[i]| ==> !Less(children[i][pos[i]].key, children[cur][pos[cur]].key)
    ensures q < |merged| && children[cur][pos[cur]] == merged[q]
  {
    hide MergeOf, SplitAt, Sorted, Less;
    SplitBounds(children, pos, merged, q);
    var r := RankOf(children, merged, cur, pos[cur]);
    SideOf(children, pos, merged, q, cur, pos[cur], r);
    var i, j := PlaceOf(children, merged, q);
    SideOf(children, pos, merged, q, i, j, q);
    var h := RankOf(children, merged, i, pos[i]);
    HeadRank(children[i], merged, pos[i], j, h, q, r);
  }

  lemma HeadRank(child: seq<Entry>, merged: seq<Entry>, p: nat, j: nat, h: nat, q: nat, r: nat)
    requires Sorted(child) && Sorted(merged) && p <= j < |child| && h < |merged| && q <= r < |merged|
    requires child[j] == merged[q] && child[p] == merged[h] && !Less(merged[h].key, merged[r].key)
    ensures r == q
  {
    OrderIff(child, p, j);
    OrderIff(merged, h, q);
    OrderIff(merged, h, r);
    if p == j {
      DistinctRanks(merged, h, q);
    }
  }

  lemma SplitNoHead(children: seq<seq<Entry>>, pos: seq<nat>, merged: seq<Entry>, q: nat)
    requires MergeOf(children, merged) && SplitAt(children, pos, merged, q)
    requires forall i :: 0 <= i < |children| ==> pos[i] == |children[i]|
    ensures q == |merged|
  {
    var held := q < |merged| && HeldByChild(children, merged[q]);
  }

  /** The rightmost entry of a child that is left of its position. */
  function LastLeft(children: seq<seq<Entry>>, left: seq<nat>, i: nat): Entry
    requires |left| == |children| && i < |children| && 0 < left[i] <= |children[i]|
  {
    children[i][left[i] - 1]
  }

  /** The greatest of the entries left of the positions is the one before in the merge. */
  lemma SplitTail(children: seq<seq<Entry>>, left: seq<nat>, merged: seq<Entry>, q: nat, cur: nat)
    requires MergeOf(children, merged) && SplitAt(children, left, merged, q)
    requires cur < |children| && left[cur] > 0
    requires forall i :: 0 <= i < |children| && left[i] > 0 ==> !Less(LastLeft(children, left, cur).key, LastLeft(children, left, i).key)
    ensures q > 0 && LastLeft(children, left, cur) == merged[q - 1]
  {
    hide MergeOf, SplitAt, Sorted, Less;
    SplitBounds(children, left, merged, q);
    var r := RankOf(children, merged, cur, left[cur] - 1);
    SideOf(children, left, merged, q, cur, left[cur] - 1, r);
    var w := q - 1;
    var i, j := PlaceOf(children, merged, w);
    SideOf(children, left, merged, q, i, j, w);
    var p := left[i] - 1;
    assert LastLeft(children, left, i) == children[i][p];
    var h := RankOf(children, merged, i, p);
    TailRank(children[i], merged, j, p, w, h, r);
  }

  lemma TailRank(child: seq<Entry>, merged: seq<Entry>, j: nat, p: nat, w: nat, h: nat, r: nat)
    requires Sorted(child) && Sorted(merged) && j <= p < |child| && w < |merged| && h < |merged| && r <= w
    requires child[j] == merged[w] && child[p] == merged[h] && !Less(merged[r].key, merged[h].key)
    ensures r == w
  {
    OrderIff(child, j, p);
    OrderIff(merged, w, h);
    OrderIff(merged, r, h);
    if p == j {
      DistinctRanks(merged, h, w);
    }
  }

  lemma SplitNoTail(children: seq<seq<Entry>>, left: seq<nat>, merged: seq<Entry>, q: nat)
    requires MergeOf(children, merged) && SplitAt(children, left, merged, q)
    requires forall i :: 0 <= i < |children| ==> left[i] == 0
    ensures q == 0
  {
    var held := q > 0 && HeldByChild(children, merged[q - 1]);
  }

  lemma SplitStep(children: seq<seq<Entry>>, pos: seq<nat>, merged: seq<Entry>, q: nat, cur: nat)
    requires MergeOf(children, merged) && SplitAt(children, pos, merged, q)
    requires cur < |children| && pos[cur] < |children[cur]| && q < |merged| && children[cur][pos[cur]] == merged[q]
    ensures SplitAt(children, pos[cur := pos[cur] + 1], merged, q + 1)
  {
    forall i: nat, j: nat, r: nat | i < |children| && j < |children[i]| && r < |merged| && children[i][j] == merged[r]
      ensures j < pos[cur := pos[cur] + 1][i] <==> r < q + 1
    {
      SamePlace(children, merged, i, j, cur, pos[cur], r, q);
    }
  }

  /** An entry has one place among the children and one in the merge. */
  lemma SamePlace(children: seq<seq<Entry>>, merged: seq<Entry>, i: nat, j: nat, k: nat, l: nat, r: nat, q: nat)
    requires MergeOf(children, merged) && i < |children| && j < |children[i]| && k < |children| && l < |children[k]|
    requires r < |merged| && q < |merged| && children[i][j] == merged[r] && children[k][l] == merged[q]
    ensures i == k && j == l <==> r == q
  {
    if i == k && j == l {
      DistinctRanks(merged, r, q);
    }
  }

  lemma SplitBack(children: seq<seq<Entry>>, left: seq<nat>, merged: seq<Entry>, q: nat, cur: nat)
    requires MergeOf(children, merged) && SplitAt(children, left, merged, q)
    requires cur < |children| && left[cur] > 0 && q > 0 && LastLeft(children, left, cur) == merged[q - 1]
    ensures SplitAt(children, left[cur := left[cur] - 1], merged, q - 1)
  {
    forall i: nat, j: nat, r: nat | i < |children| && j < |children[i]| && r < |merged| && children[i][j] == merged[r]
      ensures j < left[cur := left[cur] - 1][i] <==> r < q - 1
    {
      SamePlace(children, merged, i, j, cur, left[cur] - 1, r, q - 1);
    }
  }

  function SeekAll(children: seq<seq<Entry>>, target: IKey): (pos: seq<nat>)
    ensures |pos| == |children|
    ensures forall i :: 0 <= i < |children| ==> pos[i] == SeekIndex(children[i], target)
  {
    seq(|children|, i requires 0 <= i < |children| => SeekIndex(children[i], target))
  }

  lemma SeekSplits(children: seq<seq<Entry>>, merged: seq<Entry>, target: IKey)
    requires MergeOf(children, merged)
    ensures SplitAt(children, SeekAll(children, target), merged, SeekIndex(merged, target))
  {
    forall i: nat, j: nat, r: nat | i < |children| && j < |children[i]| && r < |merged| && children[i][j] == merged[r]
      ensures j < SeekAll(children, target)[i] <==> r < SeekIndex(merged, target)
    {
      SeekIndexSplits(children[i], target, j);
      SeekIndexSplits(merged, target, r);
    }
  }

  /** The merge of sorted children, built one entry at a time. */
  ghost function InsertAll(merged: seq<Entry>, es: seq<Entry>): seq<Entry> {
    if es == [] then merged else InsertEntry(InsertAll(merged, es[..|es| - 1]), es[|es| - 1])
  }

  ghost function MergeAll(children: seq<seq<Entry>>): seq<Entry> {
    if children == [] then [] else InsertAll(MergeAll(children[..|children| - 1]), children[|children| - 1])
  }

  lemma {:induction false} InsertAllSorted(merged: seq<Entry>, es: seq<Entry>)
    requires Sorted(merged) && Sorted(es)
    requires forall e :: e in es ==> Comparable(merged, e)
    ensures Sorted(InsertAll(merged, es))
    ensures forall d :: d in InsertAll(merged, es) <==> d in merged || d in es
  {
    if es != [] {
      var n := |es| - 1;
      assert es == es[..n] + [es[n]];
      InsertAllSorted(merged, es[..n]);
      forall d | d in es[..n] ensures Before(d.key, es[n].key) {
        var i :| 0 <= i < n && es[i] == d;
      }
      assert es[n] in es && Comparable(merged, es[n]);
      InsertEntrySorted(InsertAll(merged, es[..n]), es[n]);
    }
  }

  /** Sorted children whose keys can all be told apart. */
  ghost predicate Mergeable(children: seq<seq<Entry>>) {
    && (forall i :: 0 <= i < |children| ==> Sorted(children[i]))
    && (forall i, k, e :: 0 <= i < k < |children| && e in children[k] ==> Comparable(children[i], e))
  }

  lemma {:induction false} MergeAllSorted(children: seq<seq<Entry>>)
    requires Mergeable(children)
    ensures Sorted(MergeAll(children))
    ensures forall e :: e in MergeAll(children) <==> exists i :: 0 <= i < |children| && e in children[i]
  {
    if children != [] {
      var n := |children| - 1;
      var init := children[..n];
      assert children == init + [children[n]];
      MergeAllSorted(init);
      forall e | e in children[n] ensures Comparable(MergeAll(init), e) {
        forall d | d in MergeAll(init) ensures Before(d.key, e.key) || Before(e.key, d.key) {
          var i :| 0 <= i < n && d in init[i];
          assert Comparable(children[i], e);
        }
      }
      InsertAllSorted(MergeAll(init), children[n]);
    }
  }

  /** Any sorted children with distinct keys have a merge. */
  lemma MergeExists(children: seq<seq<Entry>>)
    requires Mergeable(children)
    ensures MergeOf(children, MergeAll(children))
  {
    MergeAllSorted(children);
    var merged := MergeAll(children);
    forall r | 0 <= r < |merged| ensures HeldByChild(children, merged[r]) {
      assert merged[r] in merged;
      var i :| 0 <= i < |children| && merged[r] in children[i];
      var j :| 0 <= j < |children[i]| && children[i][j] == merged[r];
    }
    forall i: nat, j: nat, k: nat, l: nat | i < |children| && k < |children| && j < |children[i]| && l < |children[k]| && children[i][j] == children[k][l]
      ensures i == k && j == l
    {
      OnePlace(children, i, j, k, l);
    }
  }

  lemma OnePlace(children: seq<seq<Entry>>, i: nat, j: nat, k: nat, l: nat)
    requires Mergeable(children)
    requires i < |children| && k < |children| && j < |children[i]| && l < |children[k]| && children[i][j] == children[k][l]
    ensures i == k && j == l
  {
    var e := children[i][j];
    assert e in children[i] && e in children[k];
    assert i == k by {
      assert i < k ==> Comparable(children[i], e);
      assert k < i ==> Comparable(children[k], e);
    }
    DistinctRanks(children[i], j, l);
  }

  class MergingIterator {
    const children: seq<seq<Entry>>
    ghost const merged: seq<Entry>
    var pos: seq<nat>
    var current: Option<nat>
    var direction: Direction
    /** Where the iterator stands in the merge; one past the end means it is not valid. */
    ghost var at: nat

    ghost predicate WellFormed()
      reads this
    {
      && MergeOf(children, merged) && at <= |merged| && InBounds()
    }

    ghost predicate InBounds()
      reads this
    {
      |pos| == |children| && forall i :: 0 <= i < |children| ==> pos[i] <= |children[i]|
    }

    ghost predicate Inv()
      reads this
    {
      && WellFormed()
      && (current == None <==> at == |merged|)
      && (current.Some? ==>
        && current.value < |children| && pos[current.value] < |children[current.value]|
        && children[current.value][pos[current.value]] == merged[at]
        && match direction
          case Forward => SplitAt(children, pos, merged, at)
          case Reverse => SplitAt(children, Lefts(children, pos), merged, at + 1))
    }

    constructor (children: seq<seq<Entry>>, ghost merged: seq<Entry>)
      requires MergeOf(children, merged)
      ensures Inv() && at == |merged| && this.children == children && this.merged == merged
    {
      this.children := children;
      this.merged := merged;
      pos := seq(|children|, i requires 0 <= i < |children| => |children[i]|);
      current, direction, at := None, Forward, |merged|;
    }

    predicate Valid()
      reads this
      ensures Inv() ==> at <= |merged| && (Valid() <==> at < |merged|)
    {
      current.Some?
    }

    function Current(): Entry
      requires Inv() && Valid()
      reads this
      ensures at < |merged| && Current() == merged[at]
    {
      children[current.value][pos[current.value]]
    }

    /** FindSmallest: the least of the valid children becomes current. */
    method FindSmallest()
      requires InBounds()
      modifies this`current
      ensures current == None ==> forall i :: 0 <= i < |children| ==> pos[i] == |children[i]|
      ensures current.Some? ==> current.value < |children| && pos[current.value] < |children[current.value]|
      ensures current.Some? ==> forall i :: 0 <= i < |children| && pos[i] < |children[i]| ==>
        !Less(children[i][pos[i]].key, children[current.value][pos[current.value]].key)
    {
      var smallest: Option<nat> := None;
      for i := 0 to |children|
        invariant smallest == None ==> forall j :: 0 <= j < i ==> pos[j] == |children[j]|
        invariant smallest.Some? ==> smallest.value < |children| && pos[smallest.value] < |children[smallest.value]|
        invariant smallest.Some? ==> forall j :: 0 <= j < i && pos[j] < |children[j]| ==>
          !Less(children[j][pos[j]].key, children[smallest.value][pos[smallest.value]].key)
      {
        if pos[i] < |children[i]| {
          if smallest == None || Less(children[i][pos[i]].key, children[smallest.value][pos[smallest.value]].key) {
            smallest := Some(i);
          }
        }
      }
      current := smallest;
    }

    /** FindLargest: the greatest of the valid children, scanning from the last. */
    method FindLargest()
      requires InBounds()
      modifies this`current
      ensures current == None ==> forall i :: 0 <= i < |children| ==> pos[i] == |children[i]|
      ensures current.Some? ==> current.value < |children| && pos[current.value] < |children[current.value]|
      ensures current.Some? ==> forall i :: 0 <= i < |children| && pos[i] < |children[i]| ==>
        !Less(children[current.value][pos[current.value]].key, children[i][pos[i]].key)
    {
      var largest: Option<nat> := None;
      for i := |children| downto 0
        invariant largest == None ==> forall j :: i <= j < |children| ==> pos[j] == |children[j]|
        invariant largest.Some? ==> largest.value < |children| && pos[largest.value] < |children[largest.value]|
        invariant largest.Some? ==> forall j :: i <= j < |children| && pos[j] < |children[j]| ==>
          !Less(children[largest.value][pos[largest.value]].key, children[j][pos[j]].key)
      {
        if pos[i] < |children[i]| {
          if largest == None || Less(children[largest.value][pos[largest.value]].key, children[i][pos[i]].key) {
            largest := Some(i);
          }
        }
      }
      current := largest;
    }

    /** After moving the children to a split of the merge, FindSmallest lands on its right side. */
    method SettleForward(ghost q: nat)
      requires MergeOf(children, merged) && SplitAt(children, pos, merged, q)
      modifies this`current, this`direction, this`at
      ensures Inv() && at == q && direction == Forward
    {
      hide MergeOf;
      FindSmallest();
      direction := Forward;
      at := q;
      if current.Some? {
        SplitHead(children, pos, merged, q, current.value);
      } else {
        SplitNoHead(children, pos, merged, q);
      }
    }

    method SettleReverse(ghost q: nat)
      requires MergeOf(children, merged) && InBounds() && SplitAt(children, Lefts(children, pos), merged, q)
      modifies this`current, this`direction, this`at
      ensures Inv() && direction == Reverse
      ensures at == if q == 0 then |merged| else q - 1
    {
      hide MergeOf;
      FindLargest();
      direction := Reverse;
      ghost var left := Lefts(children, pos);
      if current.Some? {
        assert forall i :: 0 <= i < |children| && left[i] > 0 ==> LastLeft(children, left, i) == children[i][pos[i]];
        SplitTail(children, left, merged, q, current.value);
        at := q - 1;
      } else {
        SplitNoTail(children, left, merged, q);
        at := |merged|;
      }
    }

    method Seek(target: IKey)
      requires WellFormed()
      modifies this
      ensures Inv() && at == SeekIndex(merged, target) && direction == Forward
    {
      hide MergeOf;
      pos := SeekAll(children, target);
      SeekSplits(children, merged, target);
      SettleForward(SeekIndex(merged, target));
    }

    method SeekToFirst()
      requires WellFormed()
      modifies this
      ensures Inv() && at == 0 && direction == Forward
    {
      pos := seq(|children|, i => 0);
      assert SplitAt(children, pos, merged, 0);
      SettleForward(0);
    }

    method SeekToLast()
      requires WellFormed()
      modifies this
      ensures Inv() && at == (if |merged| == 0 then 0 else |merged| - 1) && direction == Reverse
    {
      pos := seq(|children|, i requires 0 <= i < |children| => ChildLast(|children[i]|));
      assert SplitAt(children, Lefts(children, pos), merged, |merged|);
      SettleReverse(|merged|);
    }

    /** One step forward in the merge, from either direction. */
    method Next()
      requires Inv() && Valid()
      modifies this
      ensures Inv() && at == old(at) + 1 && direction == Forward
    {
      hide MergeOf;
      ghost var p := at;
      if direction != Forward {
        TurnForward();
      }
      SplitStep(children, pos, merged, p, current.value);
      pos := pos[current.value := pos[current.value] + 1];
      SettleForward(p + 1);
    }

    /** One step back in the merge, from either direction. */
    method Prev()
      requires Inv() && Valid()
      modifies this
      ensures Inv() && direction == Reverse
      ensures at == if old(at) == 0 then |merged| else old(at) - 1
    {
      hide MergeOf;
      ghost var p := at;
      if direction != Reverse {
        TurnReverse();
      }
      ghost var left := Lefts(children, pos);
      SplitBack(children, left, merged, p + 1, current.value);
      pos := pos[current.value := ChildPrev(|children[current.value]|, pos[current.value])];
      assert Lefts(children, pos) == left[current.value := left[current.value] - 1];
      SettleReverse(p);
    }

    /** Every other child is put at its first entry after the current key. */
    method TurnForward()
      requires Inv() && Valid() && direction == Reverse
      modifies this`pos, this`direction
      ensures Inv() && Valid() && direction == Forward
    {
      hide MergeOf;
      ghost var here := pos[current.value];
      var key := Current().key;
      for i := 0 to |children|
        invariant WellFormed() && pos[current.value] == here
        invariant forall j :: 0 <= j < i && j != current.value ==> pos[j] == SeekIndex(children[j], key)
      {
        if i != current.value {
          pos := pos[i := SeekIndex(children[i], key)];
          if pos[i] < |children[i]| && SameKey(key, children[i][pos[i]].key) {
            pos := pos[i := pos[i] + 1];
          }
          KeysDiffer(children, merged, current.value, here, i);
        }
      }
      direction := Forward;
      SeekCurrent(children, merged, current.value, here, at);
      SeekSplits(children, merged, key);
      assert pos == SeekAll(children, key);
    }

    /** Every other child is put at its last entry before the current key. */
    method TurnReverse()
      requires Inv() && Valid() && direction == Forward
      modifies this`pos, this`direction
      ensures Inv() && Valid() && direction == Reverse
    {
      hide MergeOf;
      ghost var here := pos[current.value];
      var key := Current().key;
      for i := 0 to |children|
        invariant WellFormed() && pos[current.value] == here
        invariant forall j :: 0 <= j < i && j != current.value ==> LeftOf(children[j], pos[j]) == SeekIndex(children[j], key)
      {
        if i != current.value {
          var seek := SeekIndex(children[i], key);
          pos := pos[i := if seek < |children[i]| then ChildPrev(|children[i]|, seek) else ChildLast(|children[i]|)];
        }
      }
      direction := Reverse;
      SeekCurrent(children, merged, current.value, here, at);
      SeekSplits(children, merged, key);
      ghost var seeked := SeekAll(children, key);
      SplitStep(children, seeked, merged, at, current.value);
      assert Lefts(children, pos) == seeked[current.value := seeked[current.value] + 1];
    }
  }

  /** From SeekToFirst on, Next yields the whole merge. */
  method Drain(children: seq<seq<Entry>>, ghost merged: seq<Entry>) returns (entries: seq<Entry>)
    requires MergeOf(children, merged)
    ensures entries == merged
  {
    hide MergeOf;
    var iter := new MergingIterator(children, merged);
    iter.SeekToFirst();
    entries := [];
    while iter.Valid()
      invariant iter.Inv() && iter.merged == merged && entries == merged[..iter.at]
      decreases |merged| - iter.at
    {
      entries := entries + [iter.Current()];
      iter.Next();
    }
  }

  function LeftOf(child: seq<Entry>, p: nat): nat {
    if p == |child| then 0 else p + 1
  }

  /** A child's Prev: one past the end, not valid, when it was at its first entry. */
  function ChildPrev(length: nat, p: nat): nat
    requires p < length
  {
    if p == 0 then length else p - 1
  }

  function ChildLast(length: nat): nat {
    if length == 0 then 0 else length - 1
  }

  predicate SameKey(a: IKey, b: IKey) {
    !Less(a, b) && !Less(b, a)
  }

  lemma SeekCurrent(children: seq<seq<Entry>>, merged: seq<Entry>, cur: nat, here: nat, at: nat)
    requires MergeOf(children, merged) && cur < |children| && here < |children[cur]| && at < |merged|
    requires children[cur][here] == merged[at]
    ensures SeekIndex(children[cur], merged[at].key) == here && SeekIndex(merged, merged[at].key) == at
  {
    SeekIndexOfKey(children[cur], here);
    SeekIndexOfKey(merged, at);
  }

  /** No other child has an entry with the current key. */
  lemma KeysDiffer(children: seq<seq<Entry>>, merged: seq<Entry>, cur: nat, here: nat, i: nat)
    requires MergeOf(children, merged) && cur < |children| && here < |children[cur]| && i < |children| && i != cur
    ensures forall j :: 0 <= j < |children[i]| ==> !SameKey(children[cur][here].key, children[i][j].key)
  {
    assert children[cur][here] in merged;
    var r: nat :| r < |merged| && merged[r] == children[cur][here];
    forall j | 0 <= j < |children[i]| ensures !SameKey(children[cur][here].key, children[i][j].key) {
      assert children[i][j] in merged;
      var h: nat :| h < |merged| && merged[h] == children[i][j];
      OrderIff(merged, r, h);
      OrderIff(merged, h, r);
    }
  }
}
