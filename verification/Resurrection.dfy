/** The guard can fail: a run of the store, from an empty database, that ends with a compaction after
    which a deleted key reads as a value again (SetupOtherInputs, version_set.cc:1403-1462). */
module Resurrection {
  import opened Format
  import opened Versions
  import opened Steps
  import opened CompactionReads
  import opened Picking
  import opened States
  import opened MapRefinement
  import opened Overlap
  import Store

  // The run writes key 2, takes a snapshot, deletes key 2 and writes key 1.
  const OLD_VALUE := Entry(IKey(2.0, 1, Put), [7])
  const TOMBSTONE := Entry(IKey(2.0, 2, Deletion), [])
  const OLD_A := Entry(IKey(1.0, 3, Put), [])
  const A := Entry(IKey(1.0, 4, Put), [])

  /** The first table; the two it is compacted into, cut inside key 2; a table of key 1 alone. */
  const FIRST := File(3, 1, OLD_A.key, OLD_VALUE.key, [OLD_A, TOMBSTONE, OLD_VALUE])
  const CHOSEN := File(4, 1, OLD_A.key, TOMBSTONE.key, [OLD_A, TOMBSTONE])
  const LEFT_BEHIND := File(5, 1, OLD_VALUE.key, OLD_VALUE.key, [OLD_VALUE])
  const MOVING := File(7, 1, A.key, A.key, [A])
  const OUTPUT := File(8, 1, A.key, A.key, [A])

  const SPLIT := Inputs(2, [FIRST], [], 1.0, 2.0)
  const PICKED := Inputs(2, [MOVING], [CHOSEN], 1.0, 1.0)

  /** A version with files at levels 2 and 3 only. */
  function Two(level2: seq<File>, level3: seq<File>): (v: Version)
    ensures forall l, f :: 0 <= l < NUM_LEVELS ==> (f in v[l] <==> (l == 2 && f in level2) || (l == 3 && f in level3))
    ensures v[2] == level2 && v[3] == level3
  {
    [[], [], level2, level3, [], [], []]
  }

  lemma TwoOrdered(level2: seq<File>, level3: seq<File>)
    requires Ordered(level2) && Ordered(level3)
    ensures forall l :: 0 <= l < NUM_LEVELS ==> Ordered(Two(level2, level3)[l])
  {
  }

  function Events(): seq<Event> {
    [
      Write([PutOp(2.0, [7])]), TakeSnapshot, Write([DeleteOp(2.0), PutOp(1.0, [])]), Switch, Flush(2, 1),
      Compact(SPLIT, FIRST.entries, [CHOSEN, LEFT_BEHIND]), ReleaseSnapshot(0),
      Write([PutOp(1.0, [])]), Switch, Flush(2, 1),
      Compact(PICKED, [A, OLD_A, TOMBSTONE], [OUTPUT])
    ]
  }

  function Start(): Version {
    Two([MOVING], [CHOSEN, LEFT_BEHIND])
  }

  /** Before the last compaction. */
  function Before(): State {
    State([], None, Start(), [], 4, 8)
  }

  function StateAfter(i: nat): State
    requires i <= 11
  {
    if i == 0 then State([], None, Two([], []), [], 0, 2)
    else if i == 1 then State([OLD_VALUE], None, Two([], []), [], 1, 2)
    else if i == 2 then State([OLD_VALUE], None, Two([], []), [1], 1, 2)
    else if i == 3 then State(FIRST.entries, None, Two([], []), [1], 3, 2)
    else if i == 4 then State([], Some(FIRST.entries), Two([], []), [1], 3, 3)
    else if i == 5 then State([], None, Two([FIRST], []), [1], 3, 4)
    else if i == 6 then State([], None, Two([], [CHOSEN, LEFT_BEHIND]), [1], 3, 6)
    else if i == 7 then State([], None, Two([], [CHOSEN, LEFT_BEHIND]), [], 3, 6)
    else if i == 8 then State([A], None, Two([], [CHOSEN, LEFT_BEHIND]), [], 4, 6)
    else if i == 9 then State([], Some([A]), Two([], [CHOSEN, LEFT_BEHIND]), [], 4, 7)
    else if i == 10 then Before()
    else State([], None, Two([], [OUTPUT, LEFT_BEHIND]), [], 4, 9)
  }

  lemma Writes()
    ensures Next(StateAfter(0), Events()[0], StateAfter(1))
    ensures Next(StateAfter(2), Events()[2], StateAfter(3))
    ensures Next(StateAfter(7), Events()[7], StateAfter(8))
  {
    var first, second := [PutOp(2.0, [7])], [DeleteOp(2.0), PutOp(1.0, [])];
    assert first[..0] == [] && second[..1] == [DeleteOp(2.0)] && second[..1][..0] == [];
    assert AddAll([], first, 1) == [OLD_VALUE];
    assert InsertEntry([OLD_VALUE], TOMBSTONE) == [TOMBSTONE, OLD_VALUE];
    assert AddAll([OLD_VALUE], second[..1], 2) == [TOMBSTONE, OLD_VALUE];
    assert InsertEntry([TOMBSTONE, OLD_VALUE], OLD_A) == FIRST.entries;
    var third := [PutOp(1.0, [])];
    assert third[..0] == [];
    assert AddAll([], third, 4) == [A];
  }

  lemma SimpleSteps()
    ensures Next(StateAfter(1), Events()[1], StateAfter(2))
    ensures Next(StateAfter(3), Events()[3], StateAfter(4))
    ensures Next(StateAfter(6), Events()[6], StateAfter(7))
    ensures Next(StateAfter(8), Events()[8], StateAfter(9))
  {
  }

  lemma Flushes()
    ensures Next(StateAfter(4), Events()[4], StateAfter(5))
    ensures Next(StateAfter(9), Events()[9], StateAfter(10))
  {
    assert TableOf(3, 1, FIRST.entries) == FIRST && TableOf(7, 1, [A]) == MOVING;
    assert Ordered([CHOSEN, LEFT_BEHIND]);
    TwoOrdered([FIRST], []);
    TwoOrdered([MOVING], [CHOSEN, LEFT_BEHIND]);
  }

  // ----- the first compaction, under a snapshot between the two entries of key 2, keeps both

  lemma FirstHolds(e: Entry)
    ensures InputEntry(SPLIT, e) <==> e in FIRST.entries
  {
    assert FIRST in SPLIT.inputs0;
  }

  lemma FirstInputs(v: Version)
    requires v == Two([FIRST], [])
    ensures WellChosen(v, SPLIT) && Merged(SPLIT, FIRST.entries)
  {
    forall e ensures InputEntry(SPLIT, e) <==> e in FIRST.entries {
      FirstHolds(e);
    }
  }

  lemma FirstKept(v: Version)
    requires v == Two([FIRST], [])
    ensures OutputsKept(v, SPLIT, FIRST.entries, 1, [CHOSEN, LEFT_BEHIND])
  {
    var input, outputs := FIRST.entries, [CHOSEN, LEFT_BEHIND];
    assert !Dropped(v, 2, input, 0, 1) && !Dropped(v, 2, input, 1, 1) && !Dropped(v, 2, input, 2, 1);
    hide Dropped;
    forall e ensures Holds(outputs, e) <==> Kept(v, 2, input, 1, e) {
      assert CHOSEN in outputs && LEFT_BEHIND in outputs;
      assert input[0] == OLD_A && input[1] == TOMBSTONE && input[2] == OLD_VALUE;
    }
  }

  lemma FirstGood(v: Version)
    requires v == Two([FIRST], [])
    ensures GoodOutputs(v, SPLIT, [CHOSEN, LEFT_BEHIND], 3, 6)
  {
    FirstHolds(OLD_A);
    FirstHolds(TOMBSTONE);
    FirstHolds(OLD_VALUE);
    hide InputEntry;
  }

  lemma FirstReplaced(v: Version)
    requires v == Two([FIRST], [])
    ensures Replaced(v, SPLIT, [CHOSEN, LEFT_BEHIND], Two([], [CHOSEN, LEFT_BEHIND]))
  {
    assert FileOrder(CHOSEN, LEFT_BEHIND);
    TwoOrdered([], [CHOSEN, LEFT_BEHIND]);
    hide Ordered, Two;
  }

  lemma FirstCompaction()
    ensures Next(StateAfter(5), Events()[5], StateAfter(6))
  {
    var v := Two([FIRST], []);
    FirstInputs(v);
    FirstKept(v);
    FirstGood(v);
    FirstReplaced(v);
    hide WellChosen, Merged, OutputsKept, GoodOutputs, Replaced, Two;
  }

  // ----- the last compaction drops the deletion and leaves the old value behind

  lemma LastInputs()
    ensures WellChosen(Start(), PICKED) && Merged(PICKED, [A, OLD_A, TOMBSTONE])
  {
    assert CHOSEN in Start()[3];
    forall e ensures InputEntry(PICKED, e) <==> e in [A, OLD_A, TOMBSTONE] {
      assert MOVING in PICKED.inputs0 && CHOSEN in PICKED.inputs1;
    }
  }

  lemma LastKept()
    ensures OutputsKept(Start(), PICKED, [A, OLD_A, TOMBSTONE], 4, [OUTPUT])
  {
    var v, input, outputs := Start(), [A, OLD_A, TOMBSTONE], [OUTPUT];
    assert !Dropped(v, 2, input, 0, 4) && Hidden(input, 1, 4) && Obsolete(v, 2, input[2], 4);
    forall e ensures Holds(outputs, e) <==> Kept(v, 2, input, 4, e) {
      assert OUTPUT in outputs;
      assert input[0] == A;
    }
  }

  lemma LastGood()
    ensures GoodOutputs(Start(), PICKED, [OUTPUT], 4, 9)
  {
    assert InputEntry(PICKED, A) by {
      assert MOVING in PICKED.inputs0;
    }
    hide InputEntry;
  }

  lemma LastReplaced()
    ensures Replaced(Start(), PICKED, [OUTPUT], Two([], [OUTPUT, LEFT_BEHIND]))
  {
    assert FileOrder(OUTPUT, LEFT_BEHIND);
    TwoOrdered([], [OUTPUT, LEFT_BEHIND]);
    hide Ordered, Two;
  }

  lemma LastCompaction()
    ensures Next(StateAfter(10), Events()[10], StateAfter(11))
  {
    LastInputs();
    LastKept();
    LastGood();
    LastReplaced();
    hide WellChosen, Merged, OutputsKept, GoodOutputs, Replaced, Two, Start;
  }

  // ----- what comes of it

  function History(): (states: seq<State>)
    ensures |states| == 12 && forall i :: 0 <= i < 12 ==> states[i] == StateAfter(i)
  {
    seq(12, i requires 0 <= i < 12 => StateAfter(i))
  }

  lemma StartsEmpty()
    ensures IsEmptyStore(StateAfter(0)) && |Events()| == 11
  {
  }

  lemma StepIs(i: nat)
    requires i < |Events()|
    ensures |Events()| == 11 && Next(StateAfter(i), Events()[i], StateAfter(i + 1))
  {
    hide *;
    StartsEmpty();
    if i == 0 || i == 2 || i == 7 {
      Writes();
    } else if i == 1 || i == 3 || i == 6 || i == 8 {
      SimpleSteps();
    } else if i == 4 || i == 9 {
      Flushes();
    } else if i == 5 {
      FirstCompaction();
    } else {
      LastCompaction();
    }
  }

  lemma RunIs(states: seq<State>, events: seq<Event>)
    requires |states| == |events| + 1 && IsEmptyStore(states[0])
    requires forall i :: 0 <= i < |events| ==> Next(states[i], events[i], states[i + 1])
    ensures Run(states, events)
  {
    hide Next, IsEmptyStore;
  }

  /** The eleven steps are a run of the store from an empty database. */
  lemma IsRun()
    ensures Run(History(), Events())
  {
    hide *;
    StartsEmpty();
    forall i | 0 <= i < |Events()| ensures Next(History()[i], Events()[i], History()[i + 1]) {
      StepIs(i);
    }
    RunIs(History(), Events());
  }

  lemma BeforeIs()
    ensures All(Before()) == Contents(Start()) && StateAfter(10) == Before()
  {
    hide Start, Contents;
  }

  lemma BeforeIsReached()
    ensures Inv(Before()) && All(Before()) == Contents(Start()) && History()[10] == Before()
  {
    hide *;
    BeforeIs();
    IsRun();
    assert |History()| == 12;
    RunInv(History(), Events(), 10);
  }

  lemma StartHolds(e: Entry)
    ensures e in Contents(Start()) <==> e in [A, OLD_A, TOMBSTONE, OLD_VALUE]
  {
    var v := Start();
    assert MOVING in v[2] && CHOSEN in v[3] && LEFT_BEHIND in v[3];
    assert Holds(v[2], A) && Holds(v[3], OLD_A) && Holds(v[3], TOMBSTONE) && Holds(v[3], OLD_VALUE);
  }

  lemma TombstoneIsNewest()
    ensures IsNewest(Contents(Start()), 2.0, 4, TOMBSTONE)
  {
    StartHolds(TOMBSTONE);
    forall o | o in Contents(Start()) && Visible(o, 2.0, 4) ensures o.key.seqno <= 2 {
      StartHolds(o);
    }
    hide Contents;
  }

  lemma TombstoneIsObsolete()
    ensures Obsolete(Start(), 2, TOMBSTONE, 4) && Cut(Start()[3], [CHOSEN], 0)
  {
  }

  /** Any compaction of the chosen file with files of level 2 is exposed at key 2. */
  lemma AlwaysExposed(c: Inputs)
    requires c.level == 2 && c.inputs1 == [CHOSEN]
    ensures Exposed(Start(), c, 4, 2.0)
  {
    TombstoneIsNewest();
    TombstoneIsObsolete();
    assert InputEntry(c, TOMBSTONE) by {
      assert CHOSEN in c.inputs1;
    }
    assert Start()[3][1].entries[0] == OLD_VALUE && Start()[3][0].largest.user == 2.0;
    hide IsNewest, Obsolete, Cut, InputEntry;
  }

  /** Whatever such a compaction drops and wherever it cuts its outputs: key 2 reads as deleted
      before it, and has a value after it. */
  lemma AlwaysComesBack(c: Inputs, input: seq<Entry>, outputs: seq<File>, t: State)
    requires Next(Before(), Compact(c, input, outputs), t) && c.level == 2 && c.inputs1 == [CHOSEN]
    ensures Current(Before(), 2.0) == None && Current(t, 2.0).Some?
  {
    BeforeIsReached();
    AlwaysExposed(c);
    AfterIs(c, input, outputs, t);
    hide Exposed, Read, Contents, Inv, All, Compacted, History, Start;
    InvCompact(Before(), c, input, outputs, t);
    ExposedIsChanged(Start(), c, input, 4, outputs, t.version, 4, 8, 2.0);
  }

  lemma AfterIs(c: Inputs, input: seq<Entry>, outputs: seq<File>, t: State)
    requires Next(Before(), Compact(c, input, outputs), t)
    ensures All(t) == Contents(t.version) && t.lastSequence == 4 && NextCompact(Before(), c, input, outputs, t)
  {
    hide WellChosen, Merged, OutputsKept, GoodOutputs, Replaced, Start, Contents;
  }

  /** A run from an empty database whose writes leave key 2 deleted, and whose last step, a
      compaction, brings it back: the guard of snapshot isolation and of the map refinement fails. */
  lemma DeletedKeyComesBack()
    ensures Run(History(), Events()) && |History()| == 12 && |Events()| == 11 && !Unexposed(History()[10], Events()[10])
    ensures Applied(AllOps(Events()), 2.0, None) == None
    ensures Current(History()[10], 2.0) == None && Current(History()[11], 2.0).Some?
  {
    hide *;
    StartsEmpty();
    IsRun();
    LastCompaction();
    AllWritten();
    LastIsExposed();
    BeforeIsReached();
    LastEvent();
    AlwaysComesBack(PICKED, [A, OLD_A, TOMBSTONE], [OUTPUT], StateAfter(11));
  }

  lemma LastEvent()
    ensures |Events()| == 11 && Events()[10] == Compact(PICKED, [A, OLD_A, TOMBSTONE], [OUTPUT])
    ensures StateAfter(10) == Before() && PICKED.level == 2 && PICKED.inputs1 == [CHOSEN]
  {
  }

  lemma LastIsExposed()
    ensures |Events()| == 11 && !Unexposed(Before(), Events()[10])
  {
    AlwaysExposed(PICKED);
    assert Events()[10] == Compact(PICKED, [A, OLD_A, TOMBSTONE], [OUTPUT]);
    hide Events, Exposed, Start;
  }

  lemma EventOps()
    ensures var es := Events(); |es| == 11 && OpsOf(es[0]) == [PutOp(2.0, [7])] && OpsOf(es[2]) == [DeleteOp(2.0), PutOp(1.0, [])] && OpsOf(es[7]) == [PutOp(1.0, [])]
    ensures var es := Events(); forall i :: 0 <= i < 11 && i != 0 && i != 2 && i != 7 ==> OpsOf(es[i]) == []
  {
  }

  lemma AllWritten()
    ensures Applied(AllOps(Events()), 2.0, None) == None
  {
    hide *;
    EventOps();
    var es := Events();
    assert es[..11] == es;
    NoneYet(es);
    AllOpsStep(es, 0);
    AllOpsStep(es, 1);
    AllOpsStep(es, 2);
    SkipOps(es, 3, 7);
    AllOpsStep(es, 7);
    SkipOps(es, 8, 11);
    LastDeletes(AllOps(es));
  }

  lemma NoneYet(es: seq<Event>)
    ensures AllOps(es[..0]) == []
  {
  }

  lemma {:induction false} SkipOps(es: seq<Event>, i: nat, j: nat)
    requires i <= j <= |es| && forall n :: i <= n < j ==> OpsOf(es[n]) == []
    ensures AllOps(es[..j]) == AllOps(es[..i])
    decreases j
  {
    hide OpsOf, AllOps;
    if i < j {
      SkipOps(es, i, j - 1);
      AllOpsStep(es, j - 1);
    }
  }

  lemma AllOpsStep(es: seq<Event>, n: nat)
    requires n < |es|
    ensures AllOps(es[..n + 1]) == AllOps(es[..n]) + OpsOf(es[n])
  {
    assert es[..n + 1][..n] == es[..n];
  }

  lemma LastDeletes(ops: seq<Op>)
    requires ops == [PutOp(2.0, [7]), DeleteOp(2.0), PutOp(1.0, []), PutOp(1.0, [])]
    ensures Applied(ops, 2.0, None) == None
  {
    var last := LastOperation(ops, 2.0, None);
    assert ops[1].user == 2.0;
  }

  // ----- the store itself chooses such a compaction

  lemma ChoosesCut(c: Inputs)
    requires WellChosen(Start(), c) && Describes(Start(), c) && c.level == 2
    ensures c.inputs1 == [CHOSEN]
  {
    hide Select;
    var s, l :| Bottom(c.inputs0, s) && Top(c.inputs0, l) && s.user == c.lo && l.user == c.hi;
    assert c.lo == 1.0 && c.hi == 1.0;
    OnlyChosen();
  }

  lemma OnlyChosen()
    ensures Select([CHOSEN, LEFT_BEHIND], Some(1.0), Some(1.0)) == [CHOSEN]
  {
    var files := [CHOSEN, LEFT_BEHIND];
    assert files[..1] == [CHOSEN] && [CHOSEN][..0] == [];
    assert Select([CHOSEN], Some(1.0), Some(1.0)) == [CHOSEN];
  }

  /** From the state the run reaches, size compaction of level 2 brings the deleted key back,
      whatever the sizes of its tables and the compaction pointer are. */
  method StoreBringsBack(db: Store.Db) returns (ghost ev: Event)
    requires db.Valid() && db.St() == Before()
    modifies db
    ensures db.Valid() && Current(old(db.St()), 2.0) == None && Current(db.St(), 2.0).Some?
  {
    hide *;
    LevelTwo(db);
    ghost var s := db.St();
    ev := db.CompactBySize(2);
    Chosen(s, ev, db.St());
    AlwaysComesBack(ev.c, ev.input, ev.outputs, db.St());
  }

  lemma LevelTwo(db: Store.Db)
    requires db.St() == Before()
    ensures db.current == Start() && db.current[2] == [MOVING] && 2 + 1 < NUM_LEVELS
  {
  }

  lemma Chosen(s: State, ev: Event, t: State)
    requires s == Before() && (ev.Move? || ev.Compact?) && Next(s, ev, t) && Describes(Start(), ev.c) && ev.c.level == 2
    ensures ev.Compact? && ev == Compact(ev.c, ev.input, ev.outputs) && ev.c.inputs1 == [CHOSEN]
  {
    assert WellChosen(Start(), ev.c);
    hide WellChosen, Describes, Start, Merged, OutputsKept, GoodOutputs, Replaced;
    ChoosesCut(ev.c);
  }
}
