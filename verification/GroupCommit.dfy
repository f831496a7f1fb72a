/** Group commit (DBImpl::Write, BuildBatchGroup): many writers, one of them logging for a group.

    The mutex is released while a leader appends to the log, syncs it and fills the memtable, so
    each of these is a step of its own; whatever runs under the mutex is one step. */
module GroupCommit {
  import opened Format
  import opened States
  import opened Versions
  import MapRefinement

  /** A writer in the queue.  No batch means "wait for the writes before me". */
  datatype Request = Request(batch: Option<seq<Op>>, size: nat, sync: bool)

  /** A writer that has returned; `record` is the log record that carries its batch. */
  datatype Outcome = Outcome(request: Request, ok: bool, first: nat, record: nat)

  /** A log record: one batch group. */
  datatype Group = Group(base: nat, ops: seq<Op>)

  datatype Stage =
    | Fresh
    | Appended
    | Inserting(done: nat)
    | Broken(syncFailed: bool)

  datatype Phase = Idle | Leading(members: nat, group: Group, stage: Stage)

  /** `store` is the state the readers are promised; `mem` is the memtable as it is right now.
      The records of the current log file start at `fileStart`, those of the file before it, whose
      memtable may still be waiting to be flushed, at `immStart`; `durable` are the synced ones.
      `failed` says that an error was recorded, `spoiled` that the last record could not be synced. */
  datatype Commit = Commit(
    queue: seq<Request>,
    finished: seq<Outcome>,
    log: seq<Group>,
    immStart: nat,
    fileStart: nat,
    durable: seq<bool>,
    store: State,
    mem: seq<Entry>,
    failed: bool,
    spoiled: bool,
    phase: Phase)

  const SMALL_BATCH: nat := 131072
  const MAX_GROUP: nat := 1048576

  function BatchOps(r: Request): seq<Op> {
    if r.batch.Some? then r.batch.value else []
  }

  function OpsOf(rs: seq<Request>): seq<Op> {
    if rs == [] then [] else OpsOf(rs[..|rs| - 1]) + BatchOps(rs[|rs| - 1])
  }

  function SizeOf(rs: seq<Request>): nat {
    if rs == [] then 0 else SizeOf(rs[..|rs| - 1]) + if rs[|rs| - 1].batch.Some? then rs[|rs| - 1].size else 0
  }

  function MaxSize(first: Request): nat {
    if first.size <= SMALL_BATCH then first.size + SMALL_BATCH else MAX_GROUP
  }

  /** A leader takes the first `n` of the queue along. */
  ghost predicate GroupOf(queue: seq<Request>, n: nat) {
    && 0 < n <= |queue| && queue[0].batch.Some?
    && (forall i :: 0 <= i < n && queue[i].sync ==> queue[0].sync)
    && (n == 1 || SizeOf(queue[..n]) <= MaxSize(queue[0]) || forall i :: 0 < i < n ==> queue[i].batch == None)
  }

  /** The group cannot take the next writer. */
  ghost predicate GroupFull(queue: seq<Request>, n: nat)
    requires 0 < n <= |queue|
  {
    n < |queue| ==> (queue[n].sync && !queue[0].sync) || (queue[n].batch.Some? && SizeOf(queue[..n + 1]) > MaxSize(queue[0]))
  }

  lemma OneAlone(queue: seq<Request>)
    requires queue != []
    ensures OpsOf(queue[..1]) == if queue[0].batch.Some? then queue[0].batch.value else []
    ensures SizeOf(queue[..1]) == if queue[0].batch.Some? then queue[0].size else 0
  {
    assert queue[..1][..0] == [];
  }

  lemma OneMore(queue: seq<Request>, n: nat)
    requires n < |queue|
    ensures OpsOf(queue[..n + 1]) == OpsOf(queue[..n]) + if queue[n].batch.Some? then queue[n].batch.value else []
    ensures SizeOf(queue[..n + 1]) == SizeOf(queue[..n]) + if queue[n].batch.Some? then queue[n].size else 0
  {
    assert queue[..n + 1][..n] == queue[..n];
  }

  /** BuildBatchGroup: as many writers as fit behind the leader, and their operations in order.
      Several batches keep to 1 MB, or to 128 KB more than a leader of at most 128 KB, and the batch
      left waiting would not. */
  method BuildBatchGroup(queue: seq<Request>) returns (n: nat, ops: seq<Op>)
    requires queue != [] && queue[0].batch.Some?
    ensures GroupOf(queue, n) && GroupFull(queue, n) && ops == OpsOf(queue[..n])
    ensures (exists i :: 0 < i < n && queue[i].batch.Some?) ==> SizeOf(queue[..n]) <= 0x10_0000
    ensures (exists i :: 0 < i < n && queue[i].batch.Some?) && queue[0].size <= 0x2_0000 ==> SizeOf(queue[..n]) <= queue[0].size + 0x2_0000
    ensures n < |queue| ==> (queue[n].sync && !queue[0].sync) || queue[n].batch.Some?
    ensures n < |queue| && !queue[n].sync ==> SizeOf(queue[..n + 1]) > if queue[0].size <= 0x2_0000 then queue[0].size + 0x2_0000 else 0x10_0000
  {
    hide OpsOf, SizeOf;
    OneAlone(queue);
    var first := queue[0];
    var size := first.size;
    var maxSize := MAX_GROUP;
    if size <= SMALL_BATCH {
      maxSize := size + SMALL_BATCH;
    }
    ops := first.batch.value;
    n := 1;
    while n < |queue|
      invariant GroupOf(queue, n) && ops == OpsOf(queue[..n]) && size == SizeOf(queue[..n])
    {
      OneMore(queue, n);
      var w := queue[n];
      if w.sync && !first.sync {
        break;
      }
      if w.batch.Some? {
        size := size + w.size;
        if size > maxSize {
          break;
        }
        ops := ops + w.batch.value;
      }
      n := n + 1;
    }
  }

  datatype Step =
    | Enqueue(request: Request)
    | Refuse
    | Wait
    | SwitchLog
    | Lead(members: nat)
    | Append(ok: bool)
    | Sync(ok: bool)
    | Insert
    | Finish
    | Background(ev: Event)
    | BackgroundError

  /** The leader is at the front of the queue and holds the mutex. */
  ghost predicate AtFront(s: Commit) {
    s.phase.Idle? && s.queue != []
  }

  ghost predicate AtStage(s: Commit, stage: Stage) {
    s.phase.Leading? && s.phase.stage == stage
  }

  /** The leader returns alone. */
  function Alone(s: Commit, ok: bool): Commit
    requires s.queue != []
  {
    s.(queue := s.queue[1..], finished := s.finished + [Outcome(s.queue[0], ok, 0, 0)])
  }

  function Outcomes(s: Commit, ok: bool): (os: seq<Outcome>)
    requires s.phase.Leading? && s.phase.members <= |s.queue|
    ensures |os| == s.phase.members
  {
    seq(s.phase.members, i requires 0 <= i < s.phase.members =>
      Outcome(s.queue[i], ok, s.phase.group.base + |OpsOf(s.queue[..i])|, if s.log == [] then 0 else |s.log| - 1))
  }

  /** The leader has the mutex again: it publishes the sequence numbers and wakes its group. */
  function Finished(s: Commit): Commit
    requires s.phase.Leading? && s.phase.members <= |s.queue|
  {
    var ok := s.phase.stage.Inserting?;
    var last := s.store.lastSequence + |s.phase.group.ops|;
    s.(queue := s.queue[s.phase.members..],
       finished := s.finished + Outcomes(s, ok),
       store := s.store.(mem := s.mem, lastSequence := last),
       failed := s.failed || s.phase.stage == Broken(true),
       spoiled := s.phase.stage == Broken(true),
       phase := Idle)
  }

  ghost predicate InBackground(ev: Event) {
    ev.Flush? || ev.Move? || ev.Compact? || ev.TakeSnapshot? || ev.ReleaseSnapshot?
  }

  /** A sync covers every record of the current file. */
  function Synced(s: Commit): (durable: seq<bool>)
    ensures |durable| == |s.durable|
    ensures forall i :: 0 <= i < |durable| ==> (durable[i] <==> s.durable[i] || s.fileStart <= i)
  {
    seq(|s.durable|, i requires 0 <= i < |s.durable| => s.durable[i] || s.fileStart <= i)
  }

  ghost predicate NextAppend(s: Commit, ok: bool, t: Commit) {
    && AtStage(s, Fresh) && s.queue != []
    && t == if ok then s.(log := s.log + [s.phase.group], durable := s.durable + [false], phase := s.phase.(stage := if s.queue[0].sync then Appended else Inserting(0)))
            else s.(phase := s.phase.(stage := Broken(false)))
  }

  ghost predicate NextSync(s: Commit, ok: bool, t: Commit) {
    && AtStage(s, Appended)
    && t == if ok then s.(durable := Synced(s), phase := s.phase.(stage := Inserting(0)))
            else s.(phase := s.phase.(stage := Broken(true)))
  }

  ghost predicate NextInsert(s: Commit, t: Commit) {
    && s.phase.Leading? && s.phase.stage.Inserting? && s.phase.stage.done < |s.phase.group.ops|
    && var d := s.phase.stage.done;
       t == s.(mem := InsertEntry(s.mem, EntryOf(s.phase.group.ops[d], s.phase.group.base + d)), phase := s.phase.(stage := Inserting(d + 1)))
  }

  ghost predicate NextLead(s: Commit, n: nat, t: Commit) {
    && AtFront(s) && !s.failed && GroupOf(s.queue, n) && GroupFull(s.queue, n)
    && s.store.lastSequence + |OpsOf(s.queue[..n])| < MAX_SEQUENCE
    && t == s.(phase := Leading(n, Group(s.store.lastSequence + 1, OpsOf(s.queue[..n])), Fresh))
  }

  ghost predicate NextFinish(s: Commit, t: Commit) {
    && s.phase.Leading? && s.phase.members <= |s.queue|
    && (s.phase.stage.Broken? || s.phase.stage == Inserting(|s.phase.group.ops|))
    && t == Finished(s)
  }

  ghost predicate NextStep(s: Commit, step: Step, t: Commit) {
    match step
    case Enqueue(request) => t == s.(queue := s.queue + [request])
    case Refuse => AtFront(s) && t == Alone(s, false)
    case Wait => AtFront(s) && !s.failed && s.queue[0].batch == None && t == Alone(s, true)
    case SwitchLog =>
      AtFront(s) && !s.failed && Next(s.store, Switch, t.store)
      && t == s.(store := t.store, mem := [], immStart := s.fileStart, fileStart := |s.log|)
    case Lead(n) => NextLead(s, n, t)
    case Append(ok) => NextAppend(s, ok, t)
    case Sync(ok) => NextSync(s, ok, t)
    case Insert => NextInsert(s, t)
    case Finish => NextFinish(s, t)
    case Background(ev) => InBackground(ev) && Next(s.store, ev, t.store) && t == s.(store := t.store)
    case BackgroundError => t == s.(failed := true)
  }

  // ----- what every step keeps

  function LogOps(log: seq<Group>): seq<Op> {
    if log == [] then [] else LogOps(log[..|log| - 1]) + log[|log| - 1].ops
  }

  /** The batches of the writers that returned OK, in the order of the queue. */
  function AckedOps(os: seq<Outcome>): seq<Op> {
    if os == [] then [] else AckedOps(os[..|os| - 1]) + if os[|os| - 1].ok then BatchOps(os[|os| - 1].request) else []
  }

  ghost predicate InLog(phase: Phase) {
    phase.Leading? && phase.stage != Fresh && phase.stage != Broken(false)
  }

  /** The records of groups that are over and done; the last record may be still in progress, or
      its sync may have failed. */
  ghost function Settled(log: seq<Group>, spoiled: bool, phase: Phase): seq<Group> {
    if log != [] && (spoiled || InLog(phase)) then log[..|log| - 1] else log
  }

  /** The record holds the writer's operations, with the sequence numbers the writer got. */
  ghost predicate Carries(g: Group, o: Outcome) {
    match o.request.batch
    case None => true
    case Some(batch) =>
      && g.base <= o.first && o.first - g.base + |batch| <= |g.ops|
      && g.ops[o.first - g.base..][..|batch|] == batch
  }

  ghost predicate OutcomeOk(log: seq<Group>, durable: seq<bool>, o: Outcome) {
    o.ok && o.request.batch.Some? ==>
      && o.record < |log| && Carries(log[o.record], o)
      && (o.request.sync ==> o.record < |durable| && durable[o.record])
  }

  ghost predicate OutcomesOk(log: seq<Group>, durable: seq<bool>, os: seq<Outcome>) {
    forall i :: 0 <= i < |os| ==> OutcomeOk(log, durable, os[i])
  }

  /** What recovery makes of log records. */
  function Replay(log: seq<Group>): seq<Entry> {
    if log == [] then [] else AddAll(Replay(log[..|log| - 1]), log[|log| - 1].ops, log[|log| - 1].base)
  }

  ghost predicate LogOrdered(log: seq<Group>, lastSequence: nat) {
    && (forall i, j :: 0 <= i < j < |log| ==> log[i].base + |log[i].ops| <= log[j].base)
    && (forall i :: 0 <= i < |log| ==> log[i].base + |log[i].ops| <= lastSequence + 1)
  }

  /** The settled log is the acknowledged batches, in order. */
  ghost predicate LogOk(settled: seq<Group>, os: seq<Outcome>, lastSequence: nat) {
    LogOps(settled) == AckedOps(os) && LogOrdered(settled, lastSequence)
  }

  ghost predicate LeaderOk(queue: seq<Request>, phase: Phase, lastSequence: nat) {
    phase.Leading? ==>
      && GroupOf(queue, phase.members)
      && phase.group == Group(lastSequence + 1, OpsOf(queue[..phase.members]))
      && lastSequence + |phase.group.ops| < MAX_SEQUENCE
  }

  ghost predicate RecordOk(queue: seq<Request>, phase: Phase, log: seq<Group>, durable: seq<bool>, fileStart: nat, spoiled: bool) {
    && |durable| == |log|
    && (spoiled ==> log != [])
    && (phase.Leading? ==> !spoiled)
    && (InLog(phase) ==> log != [] && log[|log| - 1] == phase.group && fileStart < |log|)
    && (phase.Leading? && phase.stage.Inserting? && queue != [] && queue[0].sync ==> durable[|log| - 1])
  }

  ghost predicate MemOk(phase: Phase, mem: seq<Entry>, promised: seq<Entry>) {
    if phase.Leading? && phase.stage.Inserting? then
      phase.stage.done <= |phase.group.ops| && mem == AddAll(promised, phase.group.ops[..phase.stage.done], phase.group.base)
    else mem == promised
  }

  /** The current file replays to the memtable, the file before it to the one being flushed. */
  ghost predicate FilesOk(settled: seq<Group>, immStart: nat, fileStart: nat, mem: seq<Entry>, imm: Option<seq<Entry>>) {
    && immStart <= fileStart <= |settled|
    && mem == Replay(settled[fileStart..])
    && (imm.Some? ==> imm.value == Replay(settled[immStart..fileStart]))
  }

  ghost predicate CommitInv(s: Commit) {
    var settled := Settled(s.log, s.spoiled, s.phase);
    && Inv(s.store)
    && LeaderOk(s.queue, s.phase, s.store.lastSequence)
    && RecordOk(s.queue, s.phase, s.log, s.durable, s.fileStart, s.spoiled)
    && MemOk(s.phase, s.mem, s.store.mem)
    && FilesOk(settled, s.immStart, s.fileStart, s.store.mem, s.store.imm)
    && LogOk(settled, s.finished, s.store.lastSequence)
    && OutcomesOk(s.log, s.durable, s.finished)
    && (s.spoiled ==> s.failed)
  }

  // ----- small facts about lists of operations

  lemma {:induction false} OpsConcat(a: seq<Request>, b: seq<Request>)
    ensures OpsOf(a + b) == OpsOf(a) + OpsOf(b)
    decreases |b|
  {
    if b == [] {
      assert a + b == a;
    } else {
      assert (a + b)[..|a + b| - 1] == a + b[..|b| - 1];
      OpsConcat(a, b[..|b| - 1]);
    }
  }

  lemma {:induction false} AckedConcat(a: seq<Outcome>, b: seq<Outcome>)
    ensures AckedOps(a + b) == AckedOps(a) + AckedOps(b)
    decreases |b|
  {
    if b == [] {
      assert a + b == a;
    } else {
      assert (a + b)[..|a + b| - 1] == a + b[..|b| - 1];
      AckedConcat(a, b[..|b| - 1]);
    }
  }

  /** A group that succeeds acknowledges its operations, a group that fails none. */
  lemma {:induction false} AckedGroup(os: seq<Outcome>, rs: seq<Request>, ok: bool)
    requires |os| == |rs| && forall i :: 0 <= i < |os| ==> os[i].request == rs[i] && os[i].ok == ok
    ensures AckedOps(os) == if ok then OpsOf(rs) else []
    decreases |os|
  {
    if os != [] {
      AckedGroup(os[..|os| - 1], rs[..|rs| - 1], ok);
    }
  }

  /** Each member's batch stands in the group after those of the members before it. */
  lemma MemberCarried(rs: seq<Request>, n: nat, i: nat, base: nat)
    requires i < n <= |rs|
    ensures Carries(Group(base, OpsOf(rs[..n])), Outcome(rs[i], true, base + |OpsOf(rs[..i])|, 0))
  {
    assert rs[..n] == rs[..i] + rs[i..n];
    OpsConcat(rs[..i], rs[i..n]);
    assert rs[i..n] == [rs[i]] + rs[i + 1..n];
    OpsConcat([rs[i]], rs[i + 1..n]);
    assert OpsOf([rs[i]]) == BatchOps(rs[i]) by {
      assert [rs[i]][..0] == [];
    }
  }

  lemma AddOne(mem: seq<Entry>, ops: seq<Op>, d: nat, base: nat)
    requires d < |ops|
    ensures AddAll(mem, ops[..d + 1], base) == InsertEntry(AddAll(mem, ops[..d], base), EntryOf(ops[d], base + d))
  {
    assert ops[..d + 1][..d] == ops[..d];
  }

  lemma ReplayOne(log: seq<Group>, g: Group)
    ensures Replay(log + [g]) == AddAll(Replay(log), g.ops, g.base)
  {
    assert (log + [g])[..|log|] == log;
  }

  lemma LogOpsOne(log: seq<Group>, g: Group)
    ensures LogOps(log + [g]) == LogOps(log) + g.ops
  {
    assert (log + [g])[..|log|] == log;
  }

  // ----- every step keeps the invariant

  lemma GroupStays(queue: seq<Request>, n: nat, request: Request)
    requires GroupOf(queue, n)
    ensures queue != [] && GroupOf(queue + [request], n) && (queue + [request])[..n] == queue[..n] && (queue + [request])[0] == queue[0]
  {
    var longer := queue + [request];
    assert longer[..n] == queue[..n];
    assert forall i :: 0 <= i < n ==> longer[i] == queue[i];
    assert (forall i :: 0 < i < n ==> queue[i].batch == None) ==> forall i :: 0 < i < n ==> longer[i].batch == None;
  }

  lemma KeepEnqueue(s: Commit, request: Request, t: Commit)
    requires CommitInv(s) && NextStep(s, Enqueue(request), t)
    ensures CommitInv(t)
  {
    hide Inv, Settled, MemOk, FilesOk, LogOk, OutcomesOk, GroupOf;
    if s.phase.Leading? {
      GroupStays(s.queue, s.phase.members, request);
    }
  }

  lemma AloneAcked(os: seq<Outcome>, o: Outcome)
    requires o.ok ==> o.request.batch == None
    ensures AckedOps(os + [o]) == AckedOps(os)
  {
    AckedConcat(os, [o]);
    assert AckedOps([o]) == [] by {
      assert [o][..0] == [];
    }
  }

  lemma KeepAlone(s: Commit, ok: bool, t: Commit)
    requires CommitInv(s) && AtFront(s) && t == Alone(s, ok) && (ok ==> s.queue[0].batch == None)
    ensures CommitInv(t)
  {
    hide Inv, Settled, FilesOk, AckedOps, LogOps, LogOrdered;
    AloneAcked(s.finished, Outcome(s.queue[0], ok, 0, 0));
  }

  lemma FilesSwitch(settled: seq<Group>, immStart: nat, fileStart: nat, mem: seq<Entry>, imm: Option<seq<Entry>>)
    requires FilesOk(settled, immStart, fileStart, mem, imm)
    ensures FilesOk(settled, fileStart, |settled|, [], Some(mem))
  {
    assert settled[|settled|..] == [] && settled[fileStart..] == settled[fileStart..|settled|];
  }

  lemma KeepSwitch(s: Commit, t: Commit)
    requires CommitInv(s) && NextStep(s, SwitchLog, t)
    ensures CommitInv(t)
  {
    hide Inv, FilesOk, LogOk, OutcomesOk;
    InvNext(s.store, Switch, t.store);
    FilesSwitch(s.log, s.immStart, s.fileStart, s.store.mem, s.store.imm);
  }

  lemma KeepLead(s: Commit, n: nat, t: Commit)
    requires CommitInv(s) && NextLead(s, n, t)
    ensures CommitInv(t)
  {
    hide Inv, FilesOk, LogOk, OutcomesOk, GroupFull;
  }

  lemma OutcomesAppend(log: seq<Group>, durable: seq<bool>, os: seq<Outcome>, g: Group)
    requires OutcomesOk(log, durable, os) && |durable| == |log|
    ensures OutcomesOk(log + [g], durable + [false], os)
  {
    hide Carries;
    forall i | 0 <= i < |os| ensures OutcomeOk(log + [g], durable + [false], os[i]) {
      assert OutcomeOk(log, durable, os[i]);
    }
  }

  lemma KeepAppend(s: Commit, ok: bool, t: Commit)
    requires CommitInv(s) && NextAppend(s, ok, t)
    ensures CommitInv(t)
  {
    hide Inv, Replay, LogOk, OutcomesOk, GroupOf;
    OutcomesAppend(s.log, s.durable, s.finished, s.phase.group);
    assert s.phase.group.ops[..0] == [];
    assert Settled(t.log, t.spoiled, t.phase) == s.log;
  }

  lemma OutcomesSync(log: seq<Group>, durable: seq<bool>, os: seq<Outcome>, durable': seq<bool>)
    requires OutcomesOk(log, durable, os) && |durable'| == |durable| == |log|
    requires forall i :: 0 <= i < |durable| && durable[i] ==> durable'[i]
    ensures OutcomesOk(log, durable', os)
  {
    hide Carries;
    forall i | 0 <= i < |os| ensures OutcomeOk(log, durable', os[i]) {
      assert OutcomeOk(log, durable, os[i]);
    }
  }

  lemma KeepSync(s: Commit, ok: bool, t: Commit)
    requires CommitInv(s) && NextSync(s, ok, t)
    ensures CommitInv(t)
  {
    hide Inv, FilesOk, LogOk, OutcomesOk, GroupOf;
    OutcomesSync(s.log, s.durable, s.finished, t.durable);
    assert s.phase.group.ops[..0] == [];
  }

  lemma KeepInsert(s: Commit, t: Commit)
    requires CommitInv(s) && NextInsert(s, t)
    ensures CommitInv(t)
  {
    hide Inv, FilesOk, LogOk, OutcomesOk, GroupOf;
    AddOne(s.store.mem, s.phase.group.ops, s.phase.stage.done, s.phase.group.base);
  }

  /** What finishing does to the writers of the group. */
  lemma FinishedOutcomes(s: Commit, ok: bool)
    requires CommitInv(s) && s.phase.Leading? && ok == s.phase.stage.Inserting?
    ensures OutcomesOk(s.log, s.durable, s.finished + Outcomes(s, ok))
  {
    hide Inv, FilesOk, LogOk, MemOk, Carries;
    var os := Outcomes(s, ok);
    forall i | 0 <= i < |os| ensures OutcomeOk(s.log, s.durable, os[i]) {
      GroupCarried(s.queue, s.phase.members, i, s.phase.group, os[i]);
      assert s.queue[i].sync ==> s.queue[0].sync;
    }
    hide OutcomeOk, Outcomes;
    assert OutcomesOk(s.log, s.durable, os);
  }

  lemma GroupCarried(queue: seq<Request>, n: nat, i: nat, g: Group, o: Outcome)
    requires i < n <= |queue| && g.ops == OpsOf(queue[..n])
    requires o.request == queue[i] && o.first == g.base + |OpsOf(queue[..i])|
    ensures Carries(g, o)
  {
    MemberCarried(queue, n, i, g.base);
  }

  lemma FinishedAcked(s: Commit, ok: bool)
    requires CommitInv(s) && s.phase.Leading?
    ensures AckedOps(s.finished + Outcomes(s, ok)) == AckedOps(s.finished) + if ok then s.phase.group.ops else []
  {
    hide Inv, FilesOk, LogOk, MemOk, OutcomesOk, RecordOk;
    AckedConcat(s.finished, Outcomes(s, ok));
    AckedGroup(Outcomes(s, ok), s.queue[..s.phase.members], ok);
  }

  /** The store takes the whole group in one step, or only loses its sequence numbers. */
  ghost function FinishEvent(phase: Phase): Event
    requires phase.Leading?
  {
    if phase.stage.Inserting? then Write(phase.group.ops) else Skip(|phase.group.ops|)
  }

  lemma FinishNext(s: Commit, t: Commit)
    requires CommitInv(s) && NextFinish(s, t)
    ensures Next(s.store, FinishEvent(s.phase), t.store)
  {
    hide Inv, FilesOk, LogOk, OutcomesOk, RecordOk, GroupOf;
    var ops := s.phase.group.ops;
    assert ops[..|ops|] == ops;
  }

  lemma FilesFinish(settled: seq<Group>, immStart: nat, fileStart: nat, mem: seq<Entry>, imm: Option<seq<Entry>>, g: Group)
    requires FilesOk(settled, immStart, fileStart, mem, imm)
    ensures FilesOk(settled + [g], immStart, fileStart, AddAll(mem, g.ops, g.base), imm)
  {
    ReplayOne(settled[fileStart..], g);
    assert (settled + [g])[fileStart..] == settled[fileStart..] + [g];
    assert (settled + [g])[immStart..fileStart] == settled[immStart..fileStart];
  }

  lemma LogFinish(settled: seq<Group>, os: seq<Outcome>, more: seq<Outcome>, ok: bool, g: Group, lastSequence: nat)
    requires LogOk(settled, os, lastSequence) && g.base == lastSequence + 1
    requires AckedOps(os + more) == AckedOps(os) + if ok then g.ops else []
    ensures LogOk(settled + if ok then [g] else [], os + more, lastSequence + |g.ops|)
  {
    LogOpsOne(settled, g);
    assert settled + [] == settled;
  }

  /** A group that succeeds settles its record. */
  lemma SettledFinish(s: Commit, t: Commit)
    requires CommitInv(s) && NextFinish(s, t)
    ensures Settled(t.log, t.spoiled, t.phase) == Settled(s.log, s.spoiled, s.phase) + if s.phase.stage.Inserting? then [s.phase.group] else []
  {
    hide Inv, FilesOk, LogOk, OutcomesOk, LeaderOk, MemOk, Outcomes;
  }

  lemma KeepFinish(s: Commit, t: Commit)
    requires CommitInv(s) && NextFinish(s, t)
    ensures CommitInv(t)
  {
    hide Inv, FilesOk, LogOk, OutcomesOk, GroupOf, Next, Outcomes, Settled, LeaderOk;
    var ok, ops := s.phase.stage.Inserting?, s.phase.group.ops;
    var settled := Settled(s.log, s.spoiled, s.phase);
    FinishNext(s, t);
    InvNext(s.store, FinishEvent(s.phase), t.store);
    FinishedAcked(s, ok);
    FinishedOutcomes(s, ok);
    SettledFinish(s, t);
    GroupBase(s);
    LogFinish(settled, s.finished, Outcomes(s, ok), ok, s.phase.group, s.store.lastSequence);
    assert ops[..|ops|] == ops && settled + [] == settled;
    FilesFinish(settled, s.immStart, s.fileStart, s.store.mem, s.store.imm, s.phase.group);
  }

  lemma GroupBase(s: Commit)
    requires CommitInv(s) && s.phase.Leading?
    ensures s.phase.group.base == s.store.lastSequence + 1
    ensures forall queue, last :: LeaderOk(queue, Idle, last)
  {
    hide Inv, FilesOk, LogOk, OutcomesOk, RecordOk, MemOk, Settled;
  }

  lemma BackgroundKeeps(s: State, ev: Event, t: State)
    requires InBackground(ev) && Next(s, ev, t)
    ensures t.mem == s.mem && t.lastSequence == s.lastSequence && (t.imm.Some? ==> t.imm == s.imm)
  {
    hide Inv;
  }

  lemma KeepBackground(s: Commit, ev: Event, t: Commit)
    requires CommitInv(s) && NextStep(s, Background(ev), t)
    ensures CommitInv(t)
  {
    hide Inv, LogOk, OutcomesOk, RecordOk, MemOk, LeaderOk, Settled, Next, Replay;
    InvNext(s.store, ev, t.store);
    BackgroundKeeps(s.store, ev, t.store);
  }

  lemma KeepError(s: Commit, t: Commit)
    requires CommitInv(s) && NextStep(s, BackgroundError, t)
    ensures CommitInv(t)
  {
    hide Inv, FilesOk, LogOk, OutcomesOk, RecordOk, MemOk, LeaderOk, Settled;
  }

  /** Every interleaving keeps the invariant. */
  lemma KeepStep(s: Commit, step: Step, t: Commit)
    requires CommitInv(s) && NextStep(s, step, t)
    ensures CommitInv(t)
  {
    hide CommitInv, NextAppend, NextSync, NextInsert, NextFinish, NextLead, Next;
    match step
    case Enqueue(request) => KeepEnqueue(s, request, t);
    case Refuse => KeepAlone(s, false, t);
    case Wait => KeepAlone(s, true, t);
    case SwitchLog => KeepSwitch(s, t);
    case Lead(n) => KeepLead(s, n, t);
    case Append(ok) => KeepAppend(s, ok, t);
    case Sync(ok) => KeepSync(s, ok, t);
    case Insert => KeepInsert(s, t);
    case Finish => KeepFinish(s, t);
    case Background(ev) => KeepBackground(s, ev, t);
    case BackgroundError => KeepError(s, t);
  }

  // ----- what follows for every run

  /** A database with no log yet, nobody waiting and an empty store. */
  ghost predicate Begins(s: Commit) {
    && s.queue == [] && s.finished == [] && s.log == [] && s.immStart == 0 && s.fileStart == 0 && s.durable == []
    && IsEmptyStore(s.store) && s.mem == [] && !s.spoiled && s.phase.Idle?
  }

  ghost predicate CommitRun(states: seq<Commit>, steps: seq<Step>) {
    && |states| == |steps| + 1 && Begins(states[0])
    && forall i :: 0 <= i < |steps| ==> NextStep(states[i], steps[i], states[i + 1])
  }

  lemma {:induction false} CommitRunInv(states: seq<Commit>, steps: seq<Step>, i: nat)
    requires CommitRun(states, steps) && i < |states|
    ensures CommitInv(states[i])
  {
    if i == 0 {
      EmptyInv(states[0].store);
      hide Inv;
    } else {
      hide NextStep, CommitInv, Begins;
      CommitRunInv(states, steps, i - 1);
      KeepStep(states[i - 1], steps[i - 1], states[i]);
    }
  }

  /** Whatever the interleaving: the log holds the batches of the writers that returned OK, each
      once, in queue order, and at most one record more; a synced writer's record is synced. */
  lemma AckedIsLogged(states: seq<Commit>, steps: seq<Step>, i: nat)
    requires CommitRun(states, steps) && i < |states|
    ensures var s := states[i];
      && (LogOps(s.log) == AckedOps(s.finished)
          || (s.log != [] && LogOps(s.log[..|s.log| - 1]) == AckedOps(s.finished) && (s.failed || s.phase.Leading?)))
      && forall o :: o in s.finished && o.ok && o.request.batch.Some? ==>
        o.record < |s.log| && Carries(s.log[o.record], o) && (o.request.sync ==> o.record < |s.durable| && s.durable[o.record])
  {
    hide NextStep, Inv, FilesOk, Carries, LeaderOk, MemOk;
    CommitRunInv(states, steps, i);
    var s := states[i];
    forall o | o in s.finished ensures OutcomeOk(s.log, s.durable, o) {
      var j :| 0 <= j < |s.finished| && s.finished[j] == o;
    }
  }

  /** Finishing takes one sequence number per operation, right after those in use. */
  lemma FinishTakes(s: Commit, t: Commit)
    requires CommitInv(s) && NextStep(s, Finish, t)
    ensures s.phase.Leading? && s.phase.group.base == s.store.lastSequence + 1
    ensures t.store.lastSequence == s.store.lastSequence + |s.phase.group.ops|
  {
    hide CommitInv, Inv;
    GroupBase(s);
  }

  lemma OthersTakeNone(s: Commit, step: Step, t: Commit)
    requires NextStep(s, step, t) && !step.Finish?
    ensures t.store.lastSequence == s.store.lastSequence
  {
    match step
    case Background(ev) => BackgroundKeeps(s.store, ev, t.store);
    case _ =>
  }

  lemma {:induction false} TakenBetween(states: seq<Commit>, steps: seq<Step>, i: nat, j: nat)
    requires CommitRun(states, steps) && i <= j < |states|
    ensures states[i].store.lastSequence <= states[j].store.lastSequence
    ensures (forall k :: i <= k < j ==> !steps[k].Finish?) ==> states[j].store.lastSequence == states[i].store.lastSequence
    decreases j
  {
    hide CommitInv, NextStep, Begins;
    if i < j {
      var k := j - 1;
      TakenBetween(states, steps, i, k);
      assert NextStep(states[k], steps[k], states[j]);
      if steps[k].Finish? {
        CommitRunInv(states, steps, k);
        FinishTakes(states[k], states[j]);
      } else {
        OthersTakeNone(states[k], steps[k], states[j]);
      }
    }
  }

  /** Over every run, the sequence numbers of one group start right where those of the group
      finished before it end. */
  lemma GroupsAreAdjacent(states: seq<Commit>, steps: seq<Step>, i: nat, j: nat)
    requires CommitRun(states, steps) && i < j < |steps| && steps[i].Finish? && steps[j].Finish?
    requires forall k :: i < k < j ==> !steps[k].Finish?
    ensures states[i].phase.Leading? && states[j].phase.Leading?
    ensures states[j].phase.group.base == states[i].phase.group.base + |states[i].phase.group.ops|
  {
    hide CommitInv;
    CommitRunInv(states, steps, i);
    CommitRunInv(states, steps, j);
    FinishTakes(states[i], states[i + 1]);
    FinishTakes(states[j], states[j + 1]);
    TakenBetween(states, steps, i + 1, j);
  }

  /** The records have disjoint ranges, in order; all but one that is being written are in use already. */
  ghost predicate Ranges(log: seq<Group>, writing: bool, lastSequence: nat) {
    && (forall i, j :: 0 <= i < j < |log| ==> log[i].base + |log[i].ops| <= log[j].base)
    && (forall i :: 0 <= i < |log| && !(writing && i == |log| - 1) ==> log[i].base + |log[i].ops| <= lastSequence + 1)
  }

  ghost predicate RangesOrdered(s: Commit) {
    Ranges(s.log, InLog(s.phase), s.store.lastSequence)
  }

  lemma RangesKept(s: Commit, step: Step, t: Commit)
    requires CommitInv(s) && NextStep(s, step, t) && RangesOrdered(s)
    ensures RangesOrdered(t)
  {
    hide CommitInv, Inv, Next, Ranges;
    match step
    case Finish =>
      FinishTakes(s, t);
      RangeUsed(s, t);
    case Append(ok) =>
      GroupBase(s);
      RangeAdded(s.log, s.phase.group, s.store.lastSequence);
    case _ => OthersTakeNone(s, step, t);
  }

  lemma RangeAdded(log: seq<Group>, g: Group, lastSequence: nat)
    requires Ranges(log, false, lastSequence) && g.base == lastSequence + 1
    ensures Ranges(log + [g], true, lastSequence)
  {
  }

  lemma RangeUsed(s: Commit, t: Commit)
    requires CommitInv(s) && NextStep(s, Finish, t) && RangesOrdered(s)
    requires s.phase.group.base == s.store.lastSequence + 1 && t.store.lastSequence == s.store.lastSequence + |s.phase.group.ops|
    ensures RangesOrdered(t)
  {
    hide Inv, LeaderOk, MemOk, FilesOk, LogOk, OutcomesOk;
    assert RecordOk(s.queue, s.phase, s.log, s.durable, s.fileStart, s.spoiled);
  }

  /** Over every run, no two records of the log use the same sequence number: of synced records, of
      failed ones, of earlier log files and of the record being written. */
  lemma {:induction false} LoggedRangesDisjoint(states: seq<Commit>, steps: seq<Step>, i: nat)
    requires CommitRun(states, steps) && i < |states|
    ensures RangesOrdered(states[i])
  {
    hide CommitInv, NextStep, RangesOrdered;
    if i == 0 {
      assert states[0].log == [];
      NoRanges(states[0]);
    } else {
      LoggedRangesDisjoint(states, steps, i - 1);
      CommitRunInv(states, steps, i - 1);
      assert NextStep(states[i - 1], steps[i - 1], states[i - 1 + 1]);
      RangesKept(states[i - 1], steps[i - 1], states[i]);
    }
  }

  lemma NoRanges(s: Commit)
    requires s.log == []
    ensures RangesOrdered(s)
  {
  }

  /** A reader at the published sequence number, or before it, sees nothing of the group that is
      being inserted, however far the insertion has come. */
  lemma ReadersSeeWholeGroups(s: Commit, k: UserKey, snapshot: nat)
    requires CommitInv(s) && snapshot <= s.store.lastSequence
    ensures Read(Over(s.mem, Below(s.store)), k, snapshot) == Read(All(s.store), k, snapshot)
  {
    hide CommitInv, Inv, All, Read, AddAll, Over, Below;
    var ops := InsertedSoFar(s);
    var later := s.store.(mem := s.mem, lastSequence := s.store.lastSequence + |ops|);
    WriteKeepsReads(s.store, ops, later, k, snapshot);
    SameBelow(s.store, later);
  }

  /** The memtable is the promised one with the first operations of the group in it. */
  lemma InsertedSoFar(s: Commit) returns (ops: seq<Op>)
    requires CommitInv(s)
    ensures Inv(s.store) && s.store.lastSequence + |ops| < MAX_SEQUENCE
    ensures s.mem == AddAll(s.store.mem, ops, s.store.lastSequence + 1)
  {
    hide FilesOk, LogOk, OutcomesOk, RecordOk, Settled, GroupOf;
    assert s.store.lastSequence < MAX_SEQUENCE;
    hide Inv;
    ops := if s.phase.Leading? && s.phase.stage.Inserting? then s.phase.group.ops[..s.phase.stage.done] else [];
  }

  lemma SameBelow(s: State, t: State)
    requires t.imm == s.imm && t.version == s.version
    ensures All(t) == Over(t.mem, Below(s))
  {
  }

  /** Once an error is recorded and its group is done, the log does not grow any more. */
  lemma NothingLoggedAfterError(s: Commit, step: Step, t: Commit)
    requires s.failed && s.phase.Idle? && NextStep(s, step, t)
    ensures t.failed && t.phase.Idle? && t.log == s.log && AckedOps(t.finished) == AckedOps(s.finished)
  {
    hide Next;
    if step.Refuse? {
      AloneAcked(s.finished, Outcome(s.queue[0], false, 0, 0));
    }
  }

  lemma {:induction false} NothingLoggedAfterErrorEver(states: seq<Commit>, steps: seq<Step>, i: nat, j: nat)
    requires CommitRun(states, steps) && i <= j < |states| && states[i].failed && states[i].phase.Idle?
    ensures states[j].failed && states[j].phase.Idle? && states[j].log == states[i].log && AckedOps(states[j].finished) == AckedOps(states[i].finished)
    decreases j
  {
    hide NextStep, Begins, AckedOps;
    if i < j {
      NothingLoggedAfterErrorEver(states, steps, i, j - 1);
      NothingLoggedAfterError(states[j - 1], steps[j - 1], states[j]);
    }
  }

  /** A failed sync records the error at once. */
  lemma SyncFailureIsRecorded(s: Commit, t: Commit)
    requires CommitInv(s) && NextFinish(s, t) && s.phase.stage == Broken(true)
    ensures t.failed && t.phase.Idle? && t.mem == s.store.mem && AckedOps(t.finished) == AckedOps(s.finished)
  {
    hide Inv;
    FinishedAcked(s, false);
  }

  /** What recovery finds after the process dies: the tables, and what the log files replay to. */
  ghost function Recovered(s: Commit): iset<Entry> {
    var settled := Settled(s.log, s.spoiled, s.phase);
    if s.fileStart > |settled| || s.immStart > s.fileStart then iset{} else
      Over(Replay(settled[s.fileStart..]), Over(if s.store.imm.Some? then Replay(settled[s.immStart..s.fileStart]) else [], Contents(s.store.version)))
  }

  lemma RecoveryLosesNothing(s: Commit)
    requires CommitInv(s)
    ensures Recovered(s) == All(s.store)
  {
    hide Inv, Replay;
  }

  // ----- what readers find

  ghost predicate StepUnexposed(s: Commit, step: Step) {
    step.Background? ==> Unexposed(s.store, step.ev)
  }

  /** A step changes the map by the operations it acknowledges, and by nothing else. */
  lemma AckedStep(s: Commit, step: Step, t: Commit, k: UserKey) returns (more: seq<Op>)
    requires CommitInv(s) && NextStep(s, step, t) && StepUnexposed(s, step)
    ensures AckedOps(t.finished) == AckedOps(s.finished) + more
    ensures MapRefinement.Current(t.store, k) == MapRefinement.Applied(more, k, MapRefinement.Current(s.store, k))
  {
    more := [];
    hide Inv, Next, MapRefinement.Current, FilesOk, LogOk, OutcomesOk, RecordOk, MemOk, Unexposed;
    match step
    case Refuse => AloneAcked(s.finished, Outcome(s.queue[0], false, 0, 0));
    case Wait => AloneAcked(s.finished, Outcome(s.queue[0], true, 0, 0));
    case SwitchLog =>
      assert Unexposed(s.store, Switch) by { NotExposed(s.store, Switch); }
      MapRefinement.StepRefinesMap(s.store, Switch, t.store, k);
    case Background(ev) =>
      MapRefinement.StepRefinesMap(s.store, ev, t.store, k);
    case Finish =>
      var ok := s.phase.stage.Inserting?;
      FinishedAcked(s, ok);
      FinishNext(s, t);
      NotExposed(s.store, FinishEvent(s.phase));
      MapRefinement.StepRefinesMap(s.store, FinishEvent(s.phase), t.store, k);
      more := if ok then s.phase.group.ops else [];
    case _ =>
  }

  lemma NotExposed(s: State, ev: Event)
    requires !ev.Compact?
    ensures Unexposed(s, ev)
  {
  }

  lemma {:induction false} AckedMap(states: seq<Commit>, steps: seq<Step>, i: nat, k: UserKey)
    requires CommitRun(states, steps) && i < |states| && forall j :: 0 <= j < i ==> StepUnexposed(states[j], steps[j])
    ensures MapRefinement.Current(states[i].store, k) == MapRefinement.Applied(AckedOps(states[i].finished), k, None)
  {
    hide NextStep, CommitInv, StepUnexposed, MapRefinement.Current, AckedOps;
    if i == 0 {
      MapRefinement.EmptyReads(states[0].store, k);
      NothingAcked();
    } else {
      AckedMap(states, steps, i - 1, k);
      CommitRunInv(states, steps, i - 1);
      var more := AckedStep(states[i - 1], steps[i - 1], states[i], k);
      MapRefinement.AppliedConcat(AckedOps(states[i - 1].finished), more, k, None);
    }
  }

  lemma NothingAcked()
    ensures AckedOps([]) == []
  {
  }

  /** However writers, readers and background work interleave, a read through the memtable as it
      is right now returns what the acknowledged batches, applied in queue order, leave. */
  lemma ReadsAreAcknowledgedWrites(states: seq<Commit>, steps: seq<Step>, i: nat, k: UserKey)
    requires CommitRun(states, steps) && i < |states| && forall j :: 0 <= j < i ==> StepUnexposed(states[j], steps[j])
    ensures var s := states[i];
      Read(Over(s.mem, Below(s.store)), k, s.store.lastSequence) == MapRefinement.Applied(AckedOps(s.finished), k, None)
  {
    hide NextStep, CommitInv, StepUnexposed, Read, Begins;
    AckedMap(states, steps, i, k);
    CommitRunInv(states, steps, i);
    ReadersSeeWholeGroups(states[i], k, states[i].store.lastSequence);
  }
}
