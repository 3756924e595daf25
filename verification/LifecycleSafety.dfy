/** Safety and boundedness of the batch lifecycle, over every interleaving of its steps. */
module LifecycleSafety {
  import opened Options
  import opened Catalogue
  import opened Scheduler
  import opened Lifecycle

  // ---- A batch's row, and the moves it makes ----

  /** A batch with what the other tables say about it. */
  datatype Row = Row(batch: Batch, holder: Option<Assignment>, validating: bool)

  function RowOf(s: State, id: string): Row
    requires id in s.batches
  {
    Row(s.batches[id], if id in s.assignments then Some(s.assignments[id]) else None, id in s.validations)
  }

  datatype Move =
    | Stay
    | Forget
    | Judge(verdict: Verdict, now: int)
    | Dispatch(holder: Assignment)
    | Count(done: int, bad: int)
    | Complete(file: string, finalDone: Option<int>, finalBad: Option<int>, now: int)
    | Retry(error: string, now: int)

  /** The move each event makes on one batch. */
  function MoveOf(s: State, e: Event, id: string): Move
    requires id in s.batches
  {
    match e
    case FinishValidationEvent(b, verdict, now) => if b == id then Judge(verdict, now) else Stay
    case LoseValidationEvent(b) => if b == id then Forget else Stay
    case PollEvent(org, worker, _, _, pick, now) =>
      if OrgWorker(s, org, worker) && s.workers[worker].status != Draining && pick == Some(id) && s.batches[id].status == Validated
      then Dispatch(Assignment(worker, org, s.workers[worker].hostname, now)) else Stay
    case ProgressEvent(org, worker, b, done, bad) =>
      if b == id && OrgWorker(s, org, worker) && AssignedTo(s, id, worker) then Count(done, bad) else Stay
    case UploadEvent(org, worker, b, file, done, bad, now) =>
      if b == id && OrgWorker(s, org, worker) && AssignedTo(s, id, worker) && s.batches[id].status == InProgress
      then Complete(file, done, bad, now) else Stay
    case FailureEvent(org, worker, b, error, now) =>
      if b == id && OrgWorker(s, org, worker) && AssignedTo(s, id, worker) && s.batches[id].status == InProgress
      then Retry(error, now) else Stay
    case SweepEvent(now) =>
      if id in HeldBy(s, StaleWorkers(s, now)) then Retry(SweepError(s.assignments[id].worker), now) else Stay
    case _ => Stay
  }

  /** A move happens only from these rows. */
  predicate Enabled(r: Row, m: Move) {
    match m
    case Judge(_, _) => r.validating
    case Dispatch(_) => r.batch.status == Validated
    case Count(_, _) => r.holder.Some?
    case Complete(_, _, _, _) => r.holder.Some? && r.batch.status == InProgress
    case Retry(_, _) => r.holder.Some? && r.batch.status == InProgress
    case _ => true
  }

  function Moved(r: Row, m: Move): Row {
    match m
    case Stay => r
    case Forget => r.(validating := false)
    case Judge(verdict, now) => r.(batch := Persist(r.batch, verdict, now), validating := false)
    case Dispatch(holder) => r.(batch := r.batch.(status := InProgress), holder := Some(holder))
    case Count(done, bad) => r.(batch := Counted(r.batch, done, bad))
    case Complete(file, done, bad, now) =>
      r.(batch := r.batch.(
           outputFile := Some(file), status := Completed, completedAt := Some(now), usagePending := true,
           completed := if done.Some? then done.value else r.batch.completed,
           failed := if bad.Some? then bad.value else r.batch.failed))
    case Retry(error, now) => r.(batch := NextAttempt(r.batch, error, now), holder := None)
  }

  // ---- The coupling invariant ----

  /** What every reachable state keeps between a batch, its assignment and its validation task. */
  predicate RowOk(r: Row) {
    var b := r.batch;
    && (r.holder.Some? <==> b.status in {InProgress, Completed})
    && (b.outputFile.Some? <==> b.status == Completed)
    && (b.usagePending ==> b.status == Completed)
    && (if b.status == Failed then b.attempts in {0, MAX_BATCH_ATTEMPTS} else b.attempts < MAX_BATCH_ATTEMPTS)
    && (b.status == Validating ==> b.attempts == 0)
    && (b.status in {Validating, Validated} ==> b.completed == 0 && b.failed == 0)
    && (b.status == Failed ==> b.completed == 0 && b.failed == if b.attempts == 0 then 0 else b.total)
    && (r.validating ==> b.status == Validating)
  }

  ghost predicate Inv(s: State) {
    && s.assignments.Keys <= s.batches.Keys
    && s.validations <= s.batches.Keys
    && s.workers.Keys <= s.workerIds
    && (forall id | id in s.batches :: RowOk(RowOf(s, id)))
    && (forall id | id in s.batches && s.batches[id].outputFile.Some? :: s.batches[id].outputFile.value in s.fileIds)
    && (forall id, jd | id in s.batches && jd in s.batches && id != jd && s.batches[id].outputFile.Some? ::
          s.batches[id].outputFile != s.batches[jd].outputFile)
  }

  lemma MovesKeepRowsOk(r: Row, m: Move)
    requires RowOk(r) && Enabled(r, m)
    ensures RowOk(Moved(r, m))
  {
  }

  lemma BatchStepMoves(s: State, e: Event, id: string)
    requires Inv(s) && Legal(s, e) && id in s.batches
    requires e.CreateBatchEvent? || e.FinishValidationEvent? || e.LoseValidationEvent? || e.PollEvent?
    ensures id in Step(s, e).0.batches && Enabled(RowOf(s, id), MoveOf(s, e, id))
    ensures RowOf(Step(s, e).0, id) == Moved(RowOf(s, id), MoveOf(s, e, id))
  {
    assert RowOk(RowOf(s, id));
  }

  lemma MessageStepMoves(s: State, e: Event, id: string)
    requires Inv(s) && id in s.batches
    requires e.ProgressEvent? || e.UploadEvent? || e.FailureEvent?
    ensures id in Step(s, e).0.batches && Enabled(RowOf(s, id), MoveOf(s, e, id))
    ensures RowOf(Step(s, e).0, id) == Moved(RowOf(s, id), MoveOf(s, e, id))
  {
    assert RowOk(RowOf(s, id));
  }

  lemma SweepStepMoves(s: State, now: int, id: string)
    requires id in s.batches
    ensures id in Sweep(s, now).batches && Enabled(RowOf(s, id), MoveOf(s, SweepEvent(now), id))
    ensures RowOf(Sweep(s, now), id) == Moved(RowOf(s, id), MoveOf(s, SweepEvent(now), id))
  {
  }

  predicate IsWorkerEvent(e: Event) {
    e.RegisterEvent? || e.HeartbeatEvent? || e.ModelProgressEvent? || e.DrainEvent? || e.UndrainEvent? || e.RemoveEvent? || e.CurateEvent?
  }

  lemma WorkerStepLeavesBatches(s: State, e: Event)
    requires IsWorkerEvent(e)
    ensures var t := Step(s, e).0;
            t.batches == s.batches && t.assignments == s.assignments && t.validations == s.validations && t.fileIds == s.fileIds
    ensures s.workers.Keys <= s.workerIds ==> Step(s, e).0.workers.Keys <= Step(s, e).0.workerIds
    ensures forall id | id in s.batches :: MoveOf(s, e, id) == Stay
  {
  }

  /** Every step moves every existing batch by exactly the move named for it. */
  lemma StepMovesRows(s: State, e: Event, id: string)
    requires Inv(s) && Legal(s, e) && id in s.batches
    ensures id in Step(s, e).0.batches && Enabled(RowOf(s, id), MoveOf(s, e, id))
    ensures RowOf(Step(s, e).0, id) == Moved(RowOf(s, id), MoveOf(s, e, id))
  {
    if IsWorkerEvent(e) {
      WorkerStepLeavesBatches(s, e);
    } else if e.SweepEvent? {
      SweepStepMoves(s, e.now, id);
    } else if e.ProgressEvent? || e.UploadEvent? || e.FailureEvent? {
      MessageStepMoves(s, e, id);
    } else {
      BatchStepMoves(s, e, id);
    }
  }

  /** Tables other than the batch rows: keys stay coupled, and only creation adds a batch. */
  ghost predicate TablesKept(s: State, t: State, e: Event) {
    && t.assignments.Keys <= t.batches.Keys && t.validations <= t.batches.Keys && t.workers.Keys <= t.workerIds
    && s.fileIds <= t.fileIds
    && t.batches.Keys == s.batches.Keys + (if e.CreateBatchEvent? then {e.id} else {})
    && (e.CreateBatchEvent? ==> RowOf(t, e.id) == Row(NewBatch(e.now), None, true))
    && (t.fileIds != s.fileIds ==> e.UploadEvent? && t.fileIds == s.fileIds + {e.file})
  }

  lemma BatchStepKeepsTables(s: State, e: Event)
    requires Inv(s) && Legal(s, e)
    requires e.CreateBatchEvent? || e.FinishValidationEvent? || e.LoseValidationEvent? || e.PollEvent?
    ensures TablesKept(s, Step(s, e).0, e)
  {
  }

  lemma MessageStepKeepsTables(s: State, e: Event)
    requires Inv(s) && (e.ProgressEvent? || e.UploadEvent? || e.FailureEvent?)
    ensures TablesKept(s, Step(s, e).0, e)
  {
  }

  lemma StepKeepsTables(s: State, e: Event)
    requires Inv(s) && Legal(s, e)
    ensures TablesKept(s, Step(s, e).0, e)
  {
    if IsWorkerEvent(e) {
      WorkerStepLeavesBatches(s, e);
    } else if e.SweepEvent? {
      assert TablesKept(s, Sweep(s, e.now), e);
    } else if e.ProgressEvent? || e.UploadEvent? || e.FailureEvent? {
      MessageStepKeepsTables(s, e);
    } else {
      BatchStepKeepsTables(s, e);
    }
  }

  /** An output file stays, except that an upload sets its own batch's to a file issued now. */
  ghost predicate FilesKept(s: State, t: State, e: Event) {
    forall id | id in s.batches ::
      id in t.batches && (t.batches[id].outputFile == s.batches[id].outputFile
                          || (e.UploadEvent? && e.id == id && t.batches[id].outputFile == Some(e.file) && e.file in t.fileIds))
  }

  lemma MovesKeepFile(r: Row, m: Move)
    ensures Moved(r, m).batch.outputFile == if m.Complete? then Some(m.file) else r.batch.outputFile
  {
  }

  lemma CompletionsAreUploads(s: State, e: Event, id: string)
    requires id in s.batches && MoveOf(s, e, id).Complete?
    ensures e.UploadEvent? && e.id == id && MoveOf(s, e, id).file == e.file && e.file in Step(s, e).0.fileIds
  {
  }

  lemma StepKeepsFile(s: State, e: Event, id: string)
    requires Inv(s) && Legal(s, e) && id in s.batches
    ensures var t := Step(s, e).0;
      id in t.batches && (t.batches[id].outputFile == s.batches[id].outputFile
                          || (e.UploadEvent? && e.id == id && t.batches[id].outputFile == Some(e.file) && e.file in t.fileIds))
  {
    StepMovesRows(s, e, id);
    MovesKeepFile(RowOf(s, id), MoveOf(s, e, id));
    if MoveOf(s, e, id).Complete? {
      CompletionsAreUploads(s, e, id);
    }
    assert RowOf(Step(s, e).0, id).batch == Step(s, e).0.batches[id];
  }

  lemma StepKeepsRowOk(s: State, e: Event, id: string)
    requires Inv(s) && Legal(s, e) && id in s.batches && id in Step(s, e).0.batches
    ensures RowOk(RowOf(Step(s, e).0, id))
  {
    StepMovesRows(s, e, id);
    MovesKeepRowsOk(RowOf(s, id), MoveOf(s, e, id));
  }

  lemma FilesStayDistinct(s: State, t: State, e: Event)
    requires Inv(s) && TablesKept(s, t, e) && FilesKept(s, t, e)
    requires e.CreateBatchEvent? ==> e.id !in s.batches && t.batches[e.id].outputFile.None?
    requires e.UploadEvent? ==> e.file !in s.fileIds
    ensures forall id | id in t.batches && t.batches[id].outputFile.Some? :: t.batches[id].outputFile.value in t.fileIds
    ensures forall id, jd | id in t.batches && jd in t.batches && id != jd && t.batches[id].outputFile.Some? ::
              t.batches[id].outputFile != t.batches[jd].outputFile
  {
  }

  lemma InvFromParts(s: State, t: State, e: Event)
    requires Inv(s) && TablesKept(s, t, e) && FilesKept(s, t, e)
    requires e.CreateBatchEvent? ==> e.id !in s.batches
    requires e.UploadEvent? ==> e.file !in s.fileIds
    requires forall id | id in s.batches :: id in t.batches && RowOk(RowOf(t, id))
    ensures Inv(t)
  {
    if e.CreateBatchEvent? {
      assert RowOf(t, e.id).batch == t.batches[e.id];
      assert RowOk(RowOf(t, e.id));
    }
    FilesStayDistinct(s, t, e);
  }

  lemma StepKeepsInv(s: State, e: Event)
    requires Inv(s) && Legal(s, e)
    ensures Inv(Step(s, e).0)
  {
    var t := Step(s, e).0;
    StepKeepsTables(s, e);
    forall id | id in s.batches ensures id in t.batches && RowOk(RowOf(t, id)) {
      StepKeepsRowOk(s, e, id);
    }
    assert FilesKept(s, t, e) by {
      forall id | id in s.batches { StepKeepsFile(s, e, id); }
    }
    InvFromParts(s, t, e);
  }

  lemma {:induction false} RunKeepsInv(s: State, events: seq<Event>)
    requires Inv(s) && LegalRun(s, events)
    ensures Inv(Exec(s, events))
  {
    if events != [] {
      RunKeepsInv(s, events[..|events| - 1]);
      StepKeepsInv(Exec(s, events[..|events| - 1]), events[|events| - 1]);
    }
  }

  lemma ReachableStatesAreConsistent(registry: Registry, events: seq<Event>)
    requires LegalRun(Init(registry), events)
    ensures Inv(Exec(Init(registry), events))
  {
    RunKeepsInv(Init(registry), events);
  }

  // ---- Every write obeys the transition table ----

  lemma MovesAreAllowed(r: Row, m: Move)
    requires RowOk(r) && Enabled(r, m)
    ensures Moved(r, m).batch.status == r.batch.status || Allowed(r.batch.status, Moved(r, m).batch.status)
  {
  }

  /** Two of the writers (validation results and the sweep) never consult the table. */
  lemma EveryStatusChangeIsAllowed(s: State, e: Event, id: string)
    requires Inv(s) && Legal(s, e) && id in s.batches
    ensures id in Step(s, e).0.batches
    ensures var before, after := s.batches[id].status, Step(s, e).0.batches[id].status;
            after == before || (before, after) in {
              (Validating, Validated), (Validating, Failed), (Validated, InProgress),
              (InProgress, Completed), (InProgress, Failed), (InProgress, Validated)}
    ensures forall before, after :: Allowed(before, after) <==> (before, after) in {
              (Validating, Validated), (Validating, Failed), (Validated, InProgress),
              (InProgress, Completed), (InProgress, Failed), (InProgress, Validated)}
  {
    StepMovesRows(s, e, id);
    MovesAreAllowed(RowOf(s, id), MoveOf(s, e, id));
    assert RowOf(Step(s, e).0, id).batch == Step(s, e).0.batches[id];
  }

  // ---- Counting dispatches and status changes over a run ----

  function IsDispatchOf(s: State, e: Event, id: string): nat {
    match Step(s, e).1
    case Dispatched(b, _) => if b == id then 1 else 0
    case _ => 0
  }

  function Dispatches(s: State, events: seq<Event>, id: string): nat {
    if events == [] then 0
    else
      var before := events[..|events| - 1];
      Dispatches(s, before, id) + IsDispatchOf(Exec(s, before), events[|events| - 1], id)
  }

  /** A reply hands out the batch exactly when the batch makes the dispatch move. */
  lemma RepliesMatchMoves(s: State, e: Event, id: string)
    requires Inv(s) && Legal(s, e)
    ensures IsDispatchOf(s, e, id) == if id in s.batches && MoveOf(s, e, id).Dispatch? then 1 else 0
  {
  }

  /** Dispatches a row must have had: one per failed attempt, and one more while it is assigned. */
  function DispatchDue(r: Row): nat {
    r.batch.attempts + if r.holder.Some? then 1 else 0
  }

  function DispatchDueIn(s: State, id: string): nat {
    if id in s.batches then DispatchDue(RowOf(s, id)) else 0
  }

  lemma MovesBalance(r: Row, m: Move)
    requires RowOk(r) && Enabled(r, m)
    ensures DispatchDue(Moved(r, m)) == DispatchDue(r) + if m.Dispatch? then 1 else 0
  {
  }

  lemma StepDispatchBalance(s: State, e: Event, id: string)
    requires Inv(s) && Legal(s, e)
    ensures DispatchDueIn(Step(s, e).0, id) == DispatchDueIn(s, id) + IsDispatchOf(s, e, id)
  {
    var t := Step(s, e).0;
    RepliesMatchMoves(s, e, id);
    if id in s.batches {
      StepMovesRows(s, e, id);
      MovesBalance(RowOf(s, id), MoveOf(s, e, id));
    } else {
      StepKeepsTables(s, e);
      assert id in t.batches ==> RowOf(t, id).batch == NewBatch(e.now);
    }
  }

  /**
   The history agrees with the row: over any run a batch has been handed out once
   per recorded attempt, plus once if it is running or done.
   */
  lemma {:induction false} DispatchBalance(registry: Registry, events: seq<Event>, id: string)
    requires LegalRun(Init(registry), events)
    ensures Dispatches(Init(registry), events, id) == DispatchDueIn(Exec(Init(registry), events), id) <= MAX_BATCH_ATTEMPTS
  {
    var s := Init(registry);
    if events != [] {
      var before := events[..|events| - 1];
      DispatchBalance(registry, before, id);
      RunKeepsInv(s, before);
      StepDispatchBalance(Exec(s, before), events[|events| - 1], id);
    }
    RunKeepsInv(s, events);
    if id in Exec(s, events).batches {
      assert RowOk(RowOf(Exec(s, events), id));
    }
  }

  function IsStatusChange(s: State, t: State, id: string): nat {
    if id in s.batches && id in t.batches && s.batches[id].status != t.batches[id].status then 1 else 0
  }

  function StatusChanges(s: State, events: seq<Event>, id: string): nat {
    if events == [] then 0
    else
      var before := events[..|events| - 1];
      StatusChanges(s, before, id) + IsStatusChange(Exec(s, before), Exec(s, events), id)
  }

  const MAX_STATUS_CHANGES: nat := 7

  /** How many status changes a batch can still make. */
  function Remaining(b: Batch): int {
    match b.status
    case Validating => MAX_STATUS_CHANGES
    case Validated => 2 * (MAX_BATCH_ATTEMPTS - b.attempts)
    case InProgress => 2 * (MAX_BATCH_ATTEMPTS - b.attempts) - 1
    case Completed => 0
    case Failed => 0
  }

  function RemainingIn(s: State, id: string): int {
    if id in s.batches then Remaining(s.batches[id]) else MAX_STATUS_CHANGES
  }

  lemma MovesUseUpChanges(r: Row, m: Move)
    requires RowOk(r) && Enabled(r, m)
    ensures Remaining(Moved(r, m).batch) + (if Moved(r, m).batch.status != r.batch.status then 1 else 0) <= Remaining(r.batch)
  {
  }

  lemma StepUsesUpChanges(s: State, e: Event, id: string)
    requires Inv(s) && Legal(s, e)
    ensures RemainingIn(Step(s, e).0, id) + IsStatusChange(s, Step(s, e).0, id) <= RemainingIn(s, id)
  {
    var t := Step(s, e).0;
    if id in s.batches {
      StepMovesRows(s, e, id);
      MovesUseUpChanges(RowOf(s, id), MoveOf(s, e, id));
      assert RowOf(t, id).batch == t.batches[id];
    } else {
      StepKeepsTables(s, e);
      assert id in t.batches ==> RowOf(t, id).batch == NewBatch(e.now);
    }
  }

  lemma {:induction false} RunUsesUpChanges(registry: Registry, events: seq<Event>, id: string)
    requires LegalRun(Init(registry), events)
    ensures StatusChanges(Init(registry), events, id) + RemainingIn(Exec(Init(registry), events), id) <= MAX_STATUS_CHANGES
  {
    if events != [] {
      var before := events[..|events| - 1];
      RunUsesUpChanges(registry, before, id);
      RunKeepsInv(Init(registry), before);
      StepUsesUpChanges(Exec(Init(registry), before), events[|events| - 1], id);
    }
  }

  /** No run, however it interleaves crashes and retries, moves one batch more than seven times. */
  lemma StatusChangesAreBounded(registry: Registry, events: seq<Event>, id: string)
    requires LegalRun(Init(registry), events)
    ensures StatusChanges(Init(registry), events, id) <= MAX_STATUS_CHANGES
  {
    RunUsesUpChanges(registry, events, id);
    RunKeepsInv(Init(registry), events);
    var t := Exec(Init(registry), events);
    if id in t.batches {
      assert RowOk(RowOf(t, id));
    }
  }

  // ---- Terminal batches, replays and late messages ----

  /** Everything about a batch but its two progress counters. */
  ghost predicate SameOutcome(s: State, t: State, id: string)
    requires id in s.batches
  {
    && id in t.batches
    && RowOf(t, id) == RowOf(s, id).(batch := s.batches[id].(completed := t.batches[id].completed, failed := t.batches[id].failed))
  }

  lemma StepKeepsTerminal(s: State, e: Event, id: string)
    requires Inv(s) && Legal(s, e) && id in s.batches && s.batches[id].status in {Completed, Failed}
    ensures SameOutcome(s, Step(s, e).0, id)
  {
    StepMovesRows(s, e, id);
    assert RowOk(RowOf(s, id));
    assert RowOf(Step(s, e).0, id).batch == Step(s, e).0.batches[id];
  }

  /** First upload wins, and a terminal failure is final: no continuation changes the outcome. */
  lemma {:induction false} TerminalIsForever(s: State, events: seq<Event>, id: string)
    requires Inv(s) && LegalRun(s, events) && id in s.batches && s.batches[id].status in {Completed, Failed}
    ensures SameOutcome(s, Exec(s, events), id)
  {
    if events != [] {
      var before := events[..|events| - 1];
      TerminalIsForever(s, before, id);
      RunKeepsInv(s, before);
      StepKeepsTerminal(Exec(s, before), events[|events| - 1], id);
    }
  }

  /**
   An upload answered with a file, replayed by the same worker after any further
   steps, is answered with that file and stores nothing.
   */
  lemma ReplayedUploadChangesNothing(s: State, events: seq<Event>, replay: Event)
    requires Inv(s) && LegalRun(s, events)
    requires replay.UploadEvent? && AssignedTo(s, replay.id, replay.worker) && s.batches[replay.id].status == Completed
    requires OrgWorker(Exec(s, events), replay.org, replay.worker)
    ensures s.batches[replay.id].outputFile.Some?
    ensures Step(Exec(s, events), replay) == (Exec(s, events), Uploaded(s.batches[replay.id].outputFile.value))
  {
    assert RowOk(RowOf(s, replay.id));
    TerminalIsForever(s, events, replay.id);
    assert RowOf(Exec(s, events), replay.id).holder == RowOf(s, replay.id).holder;
  }

  predicate IsMessageAbout(e: Event, id: string, worker: string) {
    match e
    case ProgressEvent(_, w, b, _, _) => b == id && w == worker
    case UploadEvent(_, w, b, _, _, _, _) => b == id && w == worker
    case FailureEvent(_, w, b, _, _) => b == id && w == worker
    case _ => false
  }

  /** The fence is the assignment's worker: a message from anyone else is refused whole. */
  lemma LateMessagesAreFenced(s: State, e: Event, id: string, worker: string)
    requires IsMessageAbout(e, id, worker) && !AssignedTo(s, id, worker)
    ensures Step(s, e) == (s, Reply.Refused)
  {
  }
}
