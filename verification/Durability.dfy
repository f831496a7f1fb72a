/** What a crash leaves of the log files, and what recovery makes of it (db/db_impl.cc). */
module Durability {
  import opened Format
  import opened Versions
  import opened LogFormat
  import opened LogReading
  import opened States
  import opened MapRefinement
  import opened GroupCommit
  import opened WriteBatches

  // ----- whole records

  /** The file of the records `from..to` has its first `n` whole, and among them every synced one. */
  ghost predicate Survives(s: Commit, from: nat, to: nat, n: nat) {
    from + n <= to && forall r: nat :: from <= r < to && r < |s.durable| && s.durable[r] ==> r < from + n
  }

  /** The bytes of a log file after a crash: whatever was lost, it was written after the last sync. */
  ghost predicate AfterCrash(s: Commit, from: nat, to: nat, batches: seq<Batch>, size: nat)
    requires AllFit(batches)
  {
    forall r: nat, k: nat :: from <= r < to && r < |s.durable| && s.durable[r] && r + 1 == from + k && k <= |batches| ==> HasWhole(batches, k, size)
  }

  /** The file has the first `k` batches whole. */
  ghost predicate HasWhole(batches: seq<Batch>, k: nat, size: nat)
    requires AllFit(batches) && k <= |batches|
  {
    |LogBytes(BatchRecords(batches)[..k])| <= size
  }

  lemma WholeInside(batches: seq<Batch>, k: nat, size: nat, n: nat)
    requires AllFit(batches) && k <= |batches| && HasWhole(batches, k, size) && EndInside(BatchRecords(batches), size, n)
    ensures k <= n
  {
    hide LogBytes;
  }

  /** The whole batches of a cut file include the synced ones. */
  lemma CutSurvives(s: Commit, from: nat, to: nat, rank: Rank, batches: seq<Batch>, size: nat, n: nat)
    requires AllFit(batches) && from <= to <= |s.log| && GroupsOf(rank, batches) == s.log[from..to]
    requires AfterCrash(s, from, to, batches, size) && n <= |batches| && EndInside(BatchRecords(batches), size, n)
    ensures Survives(s, from, to, n)
  {
    hide HasWhole, AllFit, EndInside;
    assert |batches| == |s.log[from..to]|;
    forall r: nat | from <= r < to && r < |s.durable| && s.durable[r] ensures r < from + n {
      var k: nat := r + 1 - from;
      assert r + 1 == from + k;
      WholeInside(batches, k, size, n);
    }
  }

  lemma OutcomeRecord(states: seq<Commit>, steps: seq<Step>, i: nat, o: Outcome)
    requires CommitRun(states, steps) && i < |states|
    requires o in states[i].finished && o.ok && o.request.batch.Some? && o.request.sync
    ensures o.record < |states[i].log| && Carries(states[i].log[o.record], o)
    ensures o.record < |states[i].durable| && states[i].durable[o.record]
  {
    hide CommitRun, Carries, AckedOps, LogOps;
    AckedIsLogged(states, steps, i);
  }

  lemma GroupAt(log: seq<Group>, from: nat, to: nat, rank: Rank, batches: seq<Batch>, n: nat, k: nat)
    requires from <= to <= |log| && GroupsOf(rank, batches) == log[from..to] && k < n <= |batches|
    ensures from + k < to && GroupsOf(rank, batches[..n])[k] == log[from + k]
  {
    assert log[from..to][k] == log[from + k];
    assert GroupsOf(rank, batches)[k] == GroupsOf(rank, batches[..n])[k];
  }

  /** However writers interleave, whichever log file it is and wherever the crash cuts it: the batch
      of a writer that asked for a sync and got OK is among the batches recovery replays from the
      file, under the sequence numbers the writer was given. */
  lemma SyncedWritesSurvive(states: seq<Commit>, steps: seq<Step>, i: nat, from: nat, to: nat, rank: Rank, batches: seq<Batch>, size: nat, n: nat, o: Outcome)
    requires CommitRun(states, steps) && i < |states| && AllFit(batches)
    requires from <= to <= |states[i].log| && GroupsOf(rank, batches) == states[i].log[from..to]
    requires AfterCrash(states[i], from, to, batches, size) && n <= |batches| && EndInside(BatchRecords(batches), size, n)
    requires o in states[i].finished && o.ok && o.request.batch.Some? && o.request.sync && from <= o.record < to
    ensures o.record - from < n && Carries(GroupsOf(rank, batches[..n])[o.record - from], o)
  {
    hide *;
    OutcomeRecord(states, steps, i, o);
    CutSurvives(states[i], from, to, rank, batches, size, n);
    SurvivesAt(states[i], from, to, n, o.record);
    GroupAt(states[i].log, from, to, rank, batches, n, o.record - from);
  }

  lemma SurvivesAt(s: Commit, from: nat, to: nat, n: nat, r: nat)
    requires Survives(s, from, to, n) && from <= r < to && r < |s.durable| && s.durable[r]
    ensures r < from + n
  {
  }

  // ----- what a log file replays to

  ghost predicate InOrder(gs: seq<Group>) {
    forall i, j :: 0 <= i < j < |gs| ==> gs[i].base + |gs[i].ops| <= gs[j].base
  }

  /** The entry is that of an operation of one of the groups. */
  ghost predicate Wrote(gs: seq<Group>, e: Entry) {
    exists i :: 0 <= i < |gs| && WrittenBy(gs[i].ops, gs[i].base, e)
  }

  lemma WroteStep(gs: seq<Group>, e: Entry)
    requires gs != []
    ensures Wrote(gs, e) <==> Wrote(gs[..|gs| - 1], e) || WrittenBy(gs[|gs| - 1].ops, gs[|gs| - 1].base, e)
  {
    hide WrittenBy;
    var n := |gs| - 1;
    if i :| 0 <= i < |gs| && WrittenBy(gs[i].ops, gs[i].base, e) {
      assert i < n ==> gs[..n][i] == gs[i];
    }
    if i :| 0 <= i < n && WrittenBy(gs[..n][i].ops, gs[..n][i].base, e) {
      assert gs[i] == gs[..n][i];
    }
  }

  lemma WroteBelow(gs: seq<Group>, e: Entry, next: nat)
    requires Wrote(gs, e) && forall i :: 0 <= i < |gs| ==> gs[i].base + |gs[i].ops| <= next
    ensures e.key.seqno < next
  {
    var i :| 0 <= i < |gs| && WrittenBy(gs[i].ops, gs[i].base, e);
    WrittenIsNew(gs[i].ops, gs[i].base, e);
  }

  /** Replaying groups with ascending ranges gives a sorted run of exactly their entries. */
  lemma {:induction false} ReplayHolds(gs: seq<Group>)
    requires InOrder(gs)
    ensures Sorted(Replay(gs))
    ensures forall e :: e in Replay(gs) <==> Wrote(gs, e)
    decreases |gs|
  {
    if gs != [] {
      var n := |gs| - 1;
      var before, g := gs[..n], gs[n];
      ReplayHolds(before);
      hide Wrote, WrittenBy, AddAll, Sorted;
      forall e | e in Replay(before) ensures e.key.seqno < g.base {
        WroteBelow(before, e, g.base);
      }
      AddAllOk(Replay(before), g.ops, g.base);
      forall e ensures e in Replay(gs) <==> Wrote(gs, e) {
        WroteStep(gs, e);
      }
    }
  }

  // ----- reads after a crash

  /** The store recovery comes to, when the previous log file has its first `n0` records whole and
      the current one its first `n1`.  The previous file is read while its memtable is not flushed. */
  ghost function AfterRecovery(s: Commit, n0: nat, n1: nat): iset<Entry>
    requires s.immStart + n0 <= s.fileStart && s.fileStart + n1 <= |s.log|
  {
    Over(Replay(s.log[s.fileStart..s.fileStart + n1]),
      Over(if s.store.imm.Some? then Replay(s.log[s.immStart..s.immStart + n0]) else [], Contents(s.store.version)))
  }

  ghost predicate NamesKey(g: Group, k: UserKey) {
    exists i :: 0 <= i < |g.ops| && g.ops[i].user == k
  }

  /** The first record that is not in the tables yet. */
  function FirstReplayed(s: Commit): nat {
    if s.store.imm.Some? then s.immStart else s.fileStart
  }

  /** The last finished record that names the key, of those not in the tables, was synced. */
  ghost predicate LastIsSynced(s: Commit, k: UserKey) {
    var end := |Settled(s.log, s.spoiled, s.phase)|;
    forall r: nat :: FirstReplayed(s) <= r < end && end <= |s.log| && NamesKey(s.log[r], k) && (forall q: nat :: r < q < end ==> !NamesKey(s.log[q], k)) ==>
      r < |s.durable| && s.durable[r]
  }

  ghost predicate WroteIn(log: seq<Group>, a: nat, b: nat, e: Entry) {
    exists r: nat :: a <= r < b && r < |log| && WrittenBy(log[r].ops, log[r].base, e)
  }

  lemma ReplaySlice(log: seq<Group>, a: nat, b: nat, e: Entry)
    requires a <= b <= |log| && InOrder(log)
    ensures e in Replay(log[a..b]) <==> WroteIn(log, a, b, e)
  {
    hide WrittenBy, Replay;
    var gs := log[a..b];
    ReplayHolds(gs);
    if i :| 0 <= i < |gs| && WrittenBy(gs[i].ops, gs[i].base, e) {
      assert gs[i] == log[a + i];
    }
    if r: nat :| a <= r < b && WrittenBy(log[r].ops, log[r].base, e) {
      assert gs[r - a] == log[r];
    }
  }

  /** Where the finished records end. */
  ghost function End(s: Commit): nat {
    if s.log != [] && InLog(s.phase) then |s.log| - 1 else |s.log|
  }

  /** What every run keeps, after no sync has failed. */
  ghost predicate Sound(s: Commit) {
    CommitInv(s) && RangesOrdered(s) && !s.spoiled
  }

  lemma SoundFacts(s: Commit)
    requires Sound(s)
    ensures s.immStart <= s.fileStart <= End(s) <= |s.log| && InOrder(s.log)
    ensures Settled(s.log, s.spoiled, s.phase) == s.log[..End(s)]
    ensures s.store.mem == Replay(s.log[s.fileStart..End(s)])
    ensures s.store.imm.Some? ==> s.store.imm.value == Replay(s.log[s.immStart..s.fileStart])
    ensures forall r :: 0 <= r < End(s) ==> s.log[r].base + |s.log[r].ops| <= s.store.lastSequence + 1
    ensures forall r :: End(s) <= r < |s.log| ==> s.log[r].base == s.store.lastSequence + 1
  {
    hide Inv, MemOk, LogOk, OutcomesOk, Replay;
    var settled := Settled(s.log, s.spoiled, s.phase);
    assert settled == s.log[..End(s)];
    assert settled[s.fileStart..] == s.log[s.fileStart..End(s)];
    assert settled[s.immStart..s.fileStart] == s.log[s.immStart..s.fileStart];
  }

  /** The store holds the tables and the finished records that are not in them yet. */
  lemma StoreHolds(s: Commit, e: Entry)
    requires Sound(s)
    ensures e in All(s.store) <==> e in Contents(s.store.version) || WroteIn(s.log, FirstReplayed(s), End(s), e)
  {
    hide CommitInv, RangesOrdered, Contents, WrittenBy, Sound, Replay, InOrder, End;
    SoundFacts(s);
    ReplaySlice(s.log, s.fileStart, End(s), e);
    ReplaySlice(s.log, s.immStart, s.fileStart, e);
  }

  lemma RecoveredHolds(s: Commit, n0: nat, n1: nat, e: Entry)
    requires Sound(s) && s.immStart + n0 <= s.fileStart && s.fileStart + n1 <= |s.log|
    ensures e in AfterRecovery(s, n0, n1) <==>
      e in Contents(s.store.version) || (s.store.imm.Some? && WroteIn(s.log, s.immStart, s.immStart + n0, e)) || WroteIn(s.log, s.fileStart, s.fileStart + n1, e)
  {
    hide CommitInv, RangesOrdered, Contents, WroteIn, Sound, Replay, InOrder, End;
    SoundFacts(s);
    ReplaySlice(s.log, s.fileStart, s.fileStart + n1, e);
    ReplaySlice(s.log, s.immStart, s.immStart + n0, e);
  }

  /** What recovery finds and readers could see was in the store. */
  lemma RecoveredIsOld(s: Commit, n0: nat, n1: nat, e: Entry)
    requires Sound(s) && s.immStart + n0 <= s.fileStart && s.fileStart + n1 <= |s.log|
    requires e in AfterRecovery(s, n0, n1) && e.key.seqno <= s.store.lastSequence
    ensures e in All(s.store)
  {
    hide Sound, Contents, AfterRecovery, All, InOrder, WrittenBy;
    SoundFacts(s);
    RecoveredHolds(s, n0, n1, e);
    StoreHolds(s, e);
    if WroteIn(s.log, s.fileStart, s.fileStart + n1, e) {
      var r: nat :| s.fileStart <= r < s.fileStart + n1 && WrittenBy(s.log[r].ops, s.log[r].base, e);
      WrittenIsNew(s.log[r].ops, s.log[r].base, e);
      assert r < End(s);
    }
  }

  /** The record of the newest entry of a key is the last one that names it. */
  lemma NewestIsLast(s: Commit, k: UserKey, e: Entry, r: nat, q: nat)
    requires Sound(s) && IsNewest(All(s.store), k, s.store.lastSequence, e)
    requires FirstReplayed(s) <= r < q < End(s) && r < |s.log| && WrittenBy(s.log[r].ops, s.log[r].base, e)
    ensures End(s) <= |s.log| && !NamesKey(s.log[q], k)
  {
    SoundFacts(s);
    if NamesKey(s.log[q], k) {
      var i :| 0 <= i < |s.log[q].ops| && s.log[q].ops[i].user == k;
      var later := EntryOf(s.log[q].ops[i], s.log[q].base + i);
      assert WrittenBy(s.log[q].ops, s.log[q].base, later);
      WrittenIsNew(s.log[r].ops, s.log[r].base, e);
      hide Sound, WrittenBy, All, Replay;
      StoreHolds(s, later);
      assert false;
    }
  }

  /** An entry that is the newest of its key, and not in the tables, comes from the last record that names the key. */
  lemma LastRecord(s: Commit, k: UserKey, e: Entry) returns (r: nat)
    requires Sound(s) && IsNewest(All(s.store), k, s.store.lastSequence, e) && e !in Contents(s.store.version)
    ensures FirstReplayed(s) <= r < End(s) <= |s.log| && WrittenBy(s.log[r].ops, s.log[r].base, e)
    ensures NamesKey(s.log[r], k) && forall q: nat :: r < q < End(s) ==> !NamesKey(s.log[q], k)
  {
    SoundFacts(s);
    StoreHolds(s, e);
    assert e in All(s.store) && e.key.user == k;
    hide Sound, Contents, All, Replay, InOrder, NamesKey, IsNewest, CommitInv;
    r :| FirstReplayed(s) <= r < End(s) && r < |s.log| && WrittenBy(s.log[r].ops, s.log[r].base, e);
    WriterNames(s.log[r], k, e);
    hide WrittenBy;
    forall q: nat | r < q < End(s) ensures !NamesKey(s.log[q], k) {
      NewestIsLast(s, k, e, r, q);
    }
  }

  lemma WriterNames(g: Group, k: UserKey, e: Entry)
    requires WrittenBy(g.ops, g.base, e) && e.key.user == k
    ensures NamesKey(g, k)
  {
    var i :| 0 <= i < |g.ops| && e == EntryOf(g.ops[i], g.base + i);
    assert g.ops[i].user == k;
  }

  lemma NewestSurvives(s: Commit, n0: nat, n1: nat, k: UserKey, e: Entry)
    requires Sound(s) && s.immStart + n0 <= s.fileStart && s.fileStart + n1 <= |s.log| && LastIsSynced(s, k)
    requires Survives(s, s.fileStart, |s.log|, n1) && (s.store.imm.Some? ==> Survives(s, s.immStart, s.fileStart, n0))
    requires IsNewest(All(s.store), k, s.store.lastSequence, e)
    ensures e in AfterRecovery(s, n0, n1)
  {
    hide Sound, Contents, All, AfterRecovery, Replay, InOrder, WrittenBy, NamesKey, IsNewest, Settled, End;
    SoundFacts(s);
    RecoveredHolds(s, n0, n1, e);
    if e !in Contents(s.store.version) {
      var r := LastRecord(s, k, e);
      assert |Settled(s.log, s.spoiled, s.phase)| == End(s);
      assert s.durable[r];
    }
  }

  /** With one entry of each sequence number in sight, the newest visible one decides a read. */
  lemma ReadOfNewest(es: iset<Entry>, k: UserKey, s: nat, e: Entry)
    requires IsNewest(es, k, s, e) && forall o :: o in es && Visible(o, k, s) && o.key.seqno == e.key.seqno ==> o == e
    ensures Read(es, k, s) == if e.key.kind.Put? then Some(e.value) else None
  {
    forall o | IsNewest(es, k, s, o) ensures o == e {}
  }

  lemma SameNewest(all: iset<Entry>, es: iset<Entry>, k: UserKey, s: nat)
    requires Unique(all) && forall e :: e in es && e.key.seqno <= s ==> e in all
    requires forall e :: IsNewest(all, k, s, e) ==> e in es
    ensures Read(es, k, s) == Read(all, k, s)
  {
    if e :| e in all && Visible(e, k, s) {
      NewestExists(all, k, s, e);
      var n :| IsNewest(all, k, s, n);
      assert IsNewest(es, k, s, n);
      ReadNewest(all, k, s, n);
      ReadOfNewest(es, k, s, n);
    } else {
      NoneReads(all, k, s);
      NoneReads(es, k, s);
    }
  }

  lemma NoneReads(es: iset<Entry>, k: UserKey, s: nat)
    requires forall e :: e in es ==> !Visible(e, k, s)
    ensures Read(es, k, s) == None
  {
  }

  /** Over every run without a failed sync, and wherever the crash cuts the log files after their
      synced parts: if the last write of a key was synced, or is in the tables, recovery reads the
      key as it was read before the crash. */
  lemma SyncedReadsSurvive(states: seq<Commit>, steps: seq<Step>, i: nat, n0: nat, n1: nat, k: UserKey)
    requires CommitRun(states, steps) && i < |states| && !states[i].spoiled
    requires var s := states[i]; s.immStart + n0 <= s.fileStart && s.fileStart + n1 <= |s.log| && LastIsSynced(s, k)
    requires var s := states[i]; Survives(s, s.fileStart, |s.log|, n1) && (s.store.imm.Some? ==> Survives(s, s.immStart, s.fileStart, n0))
    ensures var s := states[i]; Read(AfterRecovery(s, n0, n1), k, s.store.lastSequence) == Read(All(s.store), k, s.store.lastSequence)
  {
    var s := states[i];
    CommitRunInv(states, steps, i);
    LoggedRangesDisjoint(states, steps, i);
    assert Inv(s.store) && Sound(s);
    LayersUnique(s.store);
    hide CommitRun, CommitInv, Sound, Inv, RangesOrdered, All, AfterRecovery, Read, LastIsSynced, Survives, Unique;
    forall e | e in AfterRecovery(s, n0, n1) && e.key.seqno <= s.store.lastSequence ensures e in All(s.store) {
      RecoveredIsOld(s, n0, n1, e);
    }
    forall e | IsNewest(All(s.store), k, s.store.lastSequence, e) ensures e in AfterRecovery(s, n0, n1) {
      NewestSurvives(s, n0, n1, k, e);
    }
    SameNewest(All(s.store), AfterRecovery(s, n0, n1), k, s.store.lastSequence);
  }

  /** And that is what the acknowledged batches say. */
  lemma SyncedKeysSurvive(states: seq<Commit>, steps: seq<Step>, i: nat, n0: nat, n1: nat, k: UserKey)
    requires CommitRun(states, steps) && i < |states| && !states[i].spoiled && forall j :: 0 <= j < i ==> StepUnexposed(states[j], steps[j])
    requires var s := states[i]; s.immStart + n0 <= s.fileStart && s.fileStart + n1 <= |s.log| && LastIsSynced(s, k)
    requires var s := states[i]; Survives(s, s.fileStart, |s.log|, n1) && (s.store.imm.Some? ==> Survives(s, s.immStart, s.fileStart, n0))
    ensures var s := states[i]; Read(AfterRecovery(s, n0, n1), k, s.store.lastSequence) == Applied(AckedOps(s.finished), k, None)
  {
    SyncedReadsSurvive(states, steps, i, n0, n1, k);
    AckedMap(states, steps, i, k);
    hide CommitRun, Survives, LastIsSynced, AfterRecovery, Read, All;
  }
}
