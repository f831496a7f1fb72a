/** The store is a map: whatever runs in the background, the latest value of a key is what the
    writes so far, applied one after another, leave there. */
module MapRefinement {
  import opened Format
  import opened Versions
  import opened CompactionReads
  import opened Reading
  import opened States

  /** What a read without a snapshot returns. */
  ghost function Current(s: State, k: UserKey): Option<Value> {
    Read(All(s), k, s.lastSequence)
  }

  /** What a list of operations makes of the value of a key. */
  function Applied(ops: seq<Op>, k: UserKey, before: Option<Value>): Option<Value> {
    if ops == [] then before else
      match ops[|ops| - 1]
      case PutOp(user, value) => if user == k then Some(value) else Applied(ops[..|ops| - 1], k, before)
      case DeleteOp(user) => if user == k then None else Applied(ops[..|ops| - 1], k, before)
  }

  lemma {:induction false} AppliedConcat(a: seq<Op>, b: seq<Op>, k: UserKey, before: Option<Value>)
    ensures Applied(a + b, k, before) == Applied(b, k, Applied(a, k, before))
    decreases |b|
  {
    if b == [] {
      assert a + b == a;
    } else {
      assert (a + b)[..|a + b| - 1] == a + b[..|b| - 1];
      AppliedConcat(a, b[..|b| - 1], k, before);
    }
  }

  /** The last operation on a key, if any, decides. */
  lemma {:induction false} LastOperation(ops: seq<Op>, k: UserKey, before: Option<Value>) returns (last: Option<nat>)
    ensures last == None ==> Applied(ops, k, before) == before && forall i :: 0 <= i < |ops| ==> ops[i].user != k
    ensures last.Some? ==> last.value < |ops| && ops[last.value].user == k
    ensures last.Some? ==> Applied(ops, k, before) == if ops[last.value].PutOp? then Some(ops[last.value].value) else None
    ensures last.Some? ==> forall i :: last.value < i < |ops| ==> ops[i].user != k
  {
    if ops == [] {
      last := None;
    } else if ops[|ops| - 1].user == k {
      last := Some(|ops| - 1);
    } else {
      last := LastOperation(ops[..|ops| - 1], k, before);
    }
  }

  lemma WriteShows(s: State, ops: seq<Op>, t: State, k: UserKey)
    requires Inv(s) && Next(s, Write(ops), t)
    ensures Current(t, k) == Applied(ops, k, Current(s, k))
  {
    InvWrite(s, ops, t);
    LayersUnique(s);
    LayersUnique(t);
    AllUpTo(s);
    hide Inv, All, Read;
    var last := LastOperation(ops, k, Current(s, k));
    var base := s.lastSequence + 1;
    if last.Some? {
      var e := EntryOf(ops[last.value], base + last.value);
      assert WrittenBy(ops, base, e);
      forall o | o in All(t) && Visible(o, k, t.lastSequence) ensures o.key.seqno <= e.key.seqno {
        if WrittenBy(ops, base, o) {
          var i :| 0 <= i < |ops| && o == EntryOf(ops[i], base + i);
        }
      }
      ReadNewest(All(t), k, t.lastSequence, e);
    } else {
      forall e ensures e in All(t) && Visible(e, k, t.lastSequence) <==> e in All(s) && Visible(e, k, t.lastSequence) {
        if WrittenBy(ops, base, e) {
          var i :| 0 <= i < |ops| && e == EntryOf(ops[i], base + i);
        }
      }
      SameVisible(All(s), All(t), k, t.lastSequence);
      ReadLater(s, k, t.lastSequence);
    }
  }

  lemma AllUpTo(s: State)
    requires Inv(s)
    ensures forall e :: e in All(s) ==> e.key.seqno <= s.lastSequence
  {
    hide Shape, Contents, SnapshotsOk;
    BelowUpTo(s);
  }

  /** Nothing is hidden from a read above the last sequence. */
  lemma ReadLater(s: State, k: UserKey, snapshot: nat)
    requires Inv(s) && s.lastSequence <= snapshot
    ensures Read(All(s), k, snapshot) == Current(s, k)
  {
    LayersUnique(s);
    AllUpTo(s);
    hide Inv, All, Read;
    if e :| e in All(s) && Visible(e, k, s.lastSequence) {
      NewestExists(All(s), k, s.lastSequence, e);
      var n :| IsNewest(All(s), k, s.lastSequence, n);
      ReadNewest(All(s), k, s.lastSequence, n);
      assert IsNewest(All(s), k, snapshot, n);
      ReadNewest(All(s), k, snapshot, n);
    } else {
      NothingVisible(All(s), k, s.lastSequence);
      assert forall e :: e in All(s) ==> !Visible(e, k, snapshot);
      NothingVisible(All(s), k, snapshot);
    }
  }

  lemma NothingVisible(es: iset<Entry>, k: UserKey, s: nat)
    requires forall e :: e in es ==> !Visible(e, k, s)
    ensures Read(es, k, s) == None
  {
  }

  function OpsOf(ev: Event): seq<Op> {
    if ev.Write? then ev.ops else []
  }

  /** Each step changes the map by the operations it writes, and by nothing else. */
  lemma StepRefinesMap(s: State, ev: Event, t: State, k: UserKey)
    requires Inv(s) && Next(s, ev, t) && Unexposed(s, ev)
    ensures Current(t, k) == Applied(OpsOf(ev), k, Current(s, k))
  {
    hide Contents, Read, Shape, Sorted;
    match ev
    case Write(ops) =>
      WriteShows(s, ops, t, k);
    case Skip(count) =>
      InvSkip(s, count, t);
      ReadLater(s, k, t.lastSequence);
    case Switch => InvSwitch(s, t);
    case Flush(level, size) => InvFlush(s, level, size, t);
    case Move(c) => InvMove(s, c, t);
    case Compact(c, input, outputs) =>
      assert SmallestSnapshot(s) <= s.lastSequence;
      CompactKeepsReads(s, c, input, outputs, t, k, s.lastSequence);
    case TakeSnapshot => assert All(t) == All(s);
    case ReleaseSnapshot(i) => assert All(t) == All(s);
  }

  function AllOps(events: seq<Event>): seq<Op> {
    if events == [] then [] else AllOps(events[..|events| - 1]) + OpsOf(events[|events| - 1])
  }

  /** The store after any run holds what its writes, applied in order to an empty map, leave. */
  lemma {:induction false} RunRefinesMap(states: seq<State>, events: seq<Event>, j: nat, k: UserKey)
    requires Run(states, events) && j < |states| && AllUnexposed(states, events, 0, j)
    ensures Current(states[j], k) == Applied(AllOps(events[..j]), k, None)
  {
    hide Next, Inv, Unexposed, Read, All, Current;
    if j == 0 {
      EmptyReads(states[0], k);
    } else {
      RunRefinesMap(states, events, j - 1, k);
      RunInv(states, events, j - 1);
      StepRefinesMap(states[j - 1], events[j - 1], states[j], k);
      assert events[..j][..j - 1] == events[..j - 1];
      AppliedConcat(AllOps(events[..j - 1]), OpsOf(events[j - 1]), k, None);
    }
  }

  lemma EmptyReads(s: State, k: UserKey)
    requires IsEmptyStore(s)
    ensures Current(s, k) == None
  {
    forall e, l | 0 <= l < NUM_LEVELS ensures !Holds(s.version[l], e) {}
    forall e ensures e !in All(s) {}
    NothingVisible(All(s), k, s.lastSequence);
  }
}
