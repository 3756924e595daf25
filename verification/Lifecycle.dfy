/**
 The batch lifecycle protocol as a state machine: one atomic step per HTTP
 handler, per validation result and per worker sweep
 (backend/routers/workers.py, backend/sweeper.py, backend/routers/organizations.py,
 backend/routers/batches.py, backend/services/batch_validator.py).

 A step that the code rejects leaves the state as it was. What a handler cannot
 choose for itself (a fresh uuid, the clock, the order of equal timestamps, what
 a daemon reports) travels in the event, and `Legal` says what of it is possible.
 */
module Lifecycle {
  import opened Options
  import opened Catalogue
  import opened Scheduler

  const MAX_BATCH_ATTEMPTS: nat := 3
  const HEARTBEAT_TIMEOUT_SECONDS := 120
  const MAX_ERROR_CHARS := 2000

  datatype BatchStatus = Validating | Validated | InProgress | Completed | Failed

  datatype Batch = Batch(
    status: BatchStatus, createdAt: int, model: string, needs: seq<string>,
    total: nat, completed: int, failed: int, attempts: nat,
    outputFile: Option<string>, usagePending: bool, error: string, completedAt: Option<int>)

  datatype WorkerStatus = Online | Offline | Draining

  datatype Worker = Worker(org: string, hostname: string, status: WorkerStatus, lastHeartbeat: int, host: Host)

  datatype Assignment = Assignment(worker: string, org: string, hostname: string, assignedAt: int)

  /**
   The tables, plus three facts the tables do not hold: which batches still have a
   validation task running, and which worker and file ids were ever issued.
   */
  datatype State = State(
    batches: map<string, Batch>, assignments: map<string, Assignment>, workers: map<string, Worker>,
    registry: Registry, validations: set<string>, workerIds: set<string>, fileIds: set<string>)

  datatype Reply = Refused | Ok | NoJob | Dispatched(batch: string, model: string) | Uploaded(file: string)

  /** VALID_TRANSITIONS. */
  predicate Allowed(current: BatchStatus, target: BatchStatus) {
    match current
    case Validating => target in {Validated, Failed}
    case Validated => target == InProgress
    case InProgress => target in {Completed, Failed, Validated}
    case Completed => false
    case Failed => false
  }

  predicate OrgWorker(s: State, org: string, worker: string) {
    worker in s.workers && s.workers[worker].org == org
  }

  predicate AssignedTo(s: State, batch: string, worker: string) {
    batch in s.batches && batch in s.assignments && s.assignments[batch].worker == worker
  }

  // ---- Batches ----

  function NewBatch(createdAt: int): Batch {
    Batch(Validating, createdAt, "", [], 0, 0, 0, 0, None, false, "", None)
  }

  function CreateBatch(s: State, id: string, now: int): State {
    s.(batches := s.batches[id := NewBatch(now)], validations := s.validations + {id})
  }

  datatype Verdict = Accept(total: nat, model: string, needs: seq<string>) | Reject(total: nat) | PersistError

  /** `_persist_result` writes the status without looking at the one it replaces. */
  function Persist(b: Batch, verdict: Verdict, now: int): Batch {
    match verdict
    case Accept(total, model, needs) =>
      b.(status := Validated, total := total, model := if model != "" then model else b.model, needs := needs)
    case Reject(total) => b.(status := Failed, total := total, completedAt := Some(now))
    case PersistError => b.(status := Failed, completedAt := Some(now))
  }

  function FinishValidation(s: State, id: string, verdict: Verdict, now: int): State {
    if id !in s.batches then s
    else s.(batches := s.batches[id := Persist(s.batches[id], verdict, now)], validations := s.validations - {id})
  }

  function Truncate(error: string): string {
    if |error| <= MAX_ERROR_CHARS then error else error[..MAX_ERROR_CHARS]
  }

  /** What one more failed attempt does to a batch. */
  function NextAttempt(b: Batch, error: string, now: int): Batch {
    var c := b.(attempts := b.attempts + 1, error := if error != "" then Truncate(error) else b.error);
    if c.attempts >= MAX_BATCH_ATTEMPTS
    then c.(status := Failed, completedAt := Some(now), failed := c.total, completed := 0)
    else c.(status := Validated, completed := 0, failed := 0)
  }

  function RequeueOrFail(s: State, id: string, error: string, now: int): State
    requires id in s.batches
  {
    s.(batches := s.batches[id := NextAttempt(s.batches[id], error, now)], assignments := s.assignments - {id})
  }

  // ---- Worker messages about a batch ----

  /** The name the job carries: the scheduler's for a selectable model, else the batch's own. */
  function JobName(s: State, b: Batch, w: Worker): string {
    match SelectableEntry(s.registry, b.model)
    case Some(e) => ResolveName(e, AdvertisedModels(w.host))
    case None => b.model
  }

  function Poll(s: State, org: string, worker: string, pick: Option<string>, now: int): (State, Reply) {
    if !OrgWorker(s, org, worker) then (s, Refused)
    else if s.workers[worker].status == Draining || pick.None? then (s, NoJob)
    else if pick.value !in s.batches || !Allowed(s.batches[pick.value].status, InProgress) then (s, Refused)
    else
      var b := s.batches[pick.value];
      (s.(batches := s.batches[pick.value := b.(status := InProgress)],
          assignments := s.assignments[pick.value := Assignment(worker, org, s.workers[worker].hostname, now)]),
       Dispatched(pick.value, JobName(s, b, s.workers[worker])))
  }

  function MaxInt(a: int, b: int): int {
    if a >= b then a else b
  }

  function Counted(b: Batch, completed: int, failed: int): Batch {
    b.(completed := MaxInt(b.completed, completed), failed := MaxInt(b.failed, failed))
  }

  function Progress(s: State, org: string, worker: string, id: string, completed: int, failed: int): (State, Reply) {
    if !OrgWorker(s, org, worker) || !AssignedTo(s, id, worker) then (s, Refused)
    else (s.(batches := s.batches[id := Counted(s.batches[id], completed, failed)]), Ok)
  }

  function Upload(s: State, org: string, worker: string, id: string, file: string,
                  completed: Option<int>, failed: Option<int>, now: int): (State, Reply)
  {
    if !OrgWorker(s, org, worker) || !AssignedTo(s, id, worker) then (s, Refused)
    else
      var b := s.batches[id];
      if b.status == Completed then (s, if b.outputFile.Some? then Uploaded(b.outputFile.value) else Ok)
      else if !Allowed(b.status, Completed) then (s, Refused)
      else
        (s.(batches := s.batches[id := b.(
              outputFile := Some(file), status := Completed, completedAt := Some(now), usagePending := true,
              completed := if completed.Some? then completed.value else b.completed,
              failed := if failed.Some? then failed.value else b.failed)],
            fileIds := s.fileIds + {file}),
         Uploaded(file))
  }

  function ReportFailure(s: State, org: string, worker: string, id: string, error: string, now: int): (State, Reply) {
    if !OrgWorker(s, org, worker) || !AssignedTo(s, id, worker) then (s, Refused)
    else
      var target := if s.batches[id].attempts + 1 >= MAX_BATCH_ATTEMPTS then Failed else Validated;
      if !Allowed(s.batches[id].status, target) then (s, Refused)
      else (RequeueOrFail(s, id, error, now), Ok)
  }

  // ---- Worker liveness ----

  /** `newId` is the id a new row would get; a known (org, hostname) keeps its row. */
  function Register(s: State, org: string, hostname: string, known: Option<string>, newId: string, host: Host, now: int): State {
    if known.Some? && known.value in s.workers
    then s.(workers := s.workers[known.value := s.workers[known.value].(status := Online, lastHeartbeat := now, host := host)])
    else s.(workers := s.workers[newId := Worker(org, hostname, Online, now, host)], workerIds := s.workerIds + {newId})
  }

  function Heartbeat(s: State, org: string, worker: string, host: Host, now: int): (State, Reply) {
    if !OrgWorker(s, org, worker) then (s, Refused)
    else
      var w := s.workers[worker];
      (s.(workers := s.workers[worker := w.(
            status := if w.status == Draining then Draining else Online, lastHeartbeat := now, host := host)]), Ok)
  }

  function ModelProgress(s: State, org: string, worker: string, now: int): (State, Reply) {
    if !OrgWorker(s, org, worker) then (s, Refused)
    else (s.(workers := s.workers[worker := s.workers[worker].(lastHeartbeat := now)]), Ok)
  }

  function Drain(s: State, org: string, worker: string): (State, Reply) {
    if !OrgWorker(s, org, worker) || s.workers[worker].status == Offline then (s, Refused)
    else (s.(workers := s.workers[worker := s.workers[worker].(status := Draining)]), Ok)
  }

  function Undrain(s: State, org: string, worker: string): (State, Reply) {
    if !OrgWorker(s, org, worker) || s.workers[worker].status != Draining then (s, Refused)
    else (s.(workers := s.workers[worker := s.workers[worker].(status := Online)]), Ok)
  }

  function RemoveWorker(s: State, org: string, worker: string): (State, Reply) {
    if !OrgWorker(s, org, worker) || s.workers[worker].status != Offline then (s, Refused)
    else (s.(workers := s.workers - {worker}), Ok)
  }

  // ---- The worker sweep ----

  predicate IsStale(w: Worker, now: int) {
    w.status != Offline && w.lastHeartbeat < now - HEARTBEAT_TIMEOUT_SECONDS
  }

  function StaleWorkers(s: State, now: int): set<string> {
    set w | w in s.workers && IsStale(s.workers[w], now)
  }

  /** The in-flight batches held by one of `workers`. */
  function HeldBy(s: State, workers: set<string>): set<string> {
    set id | id in s.batches && s.batches[id].status == InProgress && id in s.assignments && s.assignments[id].worker in workers
  }

  function SweepError(worker: string): string {
    "Worker " + worker + " went offline mid-job"
  }

  /** The workers in `stale` go offline and the batches in `held` lose an attempt. */
  function Reclaim(s: State, stale: set<string>, held: set<string>, now: int): State
    requires held <= s.assignments.Keys
  {
    s.(workers := map w | w in s.workers :: if w in stale then s.workers[w].(status := Offline) else s.workers[w],
       batches := map id | id in s.batches ::
         if id in held then NextAttempt(s.batches[id], SweepError(s.assignments[id].worker), now) else s.batches[id],
       assignments := s.assignments - held)
  }

  /** Every silent worker goes offline and every in-flight batch it held loses an attempt. */
  function Sweep(s: State, now: int): State {
    Reclaim(s, StaleWorkers(s, now), HeldBy(s, StaleWorkers(s, now)), now)
  }

  // ---- Events ----

  datatype Event =
    | CreateBatchEvent(id: string, now: int)
    | FinishValidationEvent(id: string, verdict: Verdict, now: int)
    | LoseValidationEvent(id: string)
    | PollEvent(org: string, worker: string, open: bool, listing: seq<string>, pick: Option<string>, now: int)
    | ProgressEvent(org: string, worker: string, id: string, completed: int, failed: int)
    | UploadEvent(org: string, worker: string, id: string, file: string, done: Option<int>, bad: Option<int>, now: int)
    | FailureEvent(org: string, worker: string, id: string, error: string, now: int)
    | RegisterEvent(org: string, hostname: string, known: Option<string>, newId: string, host: Host, now: int)
    | HeartbeatEvent(org: string, worker: string, host: Host, now: int)
    | ModelProgressEvent(org: string, worker: string, now: int)
    | DrainEvent(org: string, worker: string)
    | UndrainEvent(org: string, worker: string)
    | RemoveEvent(org: string, worker: string)
    | SweepEvent(now: int)
    | CurateEvent(registry: Registry)

  function Step(s: State, e: Event): (State, Reply) {
    match e
    case CreateBatchEvent(id, now) => (CreateBatch(s, id, now), Ok)
    case FinishValidationEvent(id, verdict, now) => (FinishValidation(s, id, verdict, now), Ok)
    case LoseValidationEvent(id) => (s.(validations := s.validations - {id}), Ok)
    case PollEvent(org, worker, _, _, pick, now) => Poll(s, org, worker, pick, now)
    case ProgressEvent(org, worker, id, completed, failed) => Progress(s, org, worker, id, completed, failed)
    case UploadEvent(org, worker, id, file, done, bad, now) => Upload(s, org, worker, id, file, done, bad, now)
    case FailureEvent(org, worker, id, error, now) => ReportFailure(s, org, worker, id, error, now)
    case RegisterEvent(org, hostname, known, newId, host, now) => (Register(s, org, hostname, known, newId, host, now), Ok)
    case HeartbeatEvent(org, worker, host, now) => Heartbeat(s, org, worker, host, now)
    case ModelProgressEvent(org, worker, now) => ModelProgress(s, org, worker, now)
    case DrainEvent(org, worker) => Drain(s, org, worker)
    case UndrainEvent(org, worker) => Undrain(s, org, worker)
    case RemoveEvent(org, worker) => RemoveWorker(s, org, worker)
    case SweepEvent(now) => (Sweep(s, now), Ok)
    case CurateEvent(registry) => (s.(registry := registry), Ok)
  }

  /** The validated batches, oldest first; batches of equal age in any order. */
  ghost predicate IsListing(s: State, listing: seq<string>) {
    && (forall i, j | 0 <= i < j < |listing| :: listing[i] != listing[j])
    && (forall id :: id in listing <==> id in s.batches && s.batches[id].status == Validated)
    && (forall i, j | 0 <= i < j < |listing| :: s.batches[listing[i]].createdAt <= s.batches[listing[j]].createdAt)
  }

  function JobOf(b: Batch): Queued {
    Queued(b.model, b.needs, b.total)
  }

  function Jobs(s: State, listing: seq<string>): (jobs: seq<Queued>)
    requires forall id | id in listing :: id in s.batches
    ensures |jobs| == |listing|
  {
    seq(|listing|, i requires 0 <= i < |listing| => JobOf(s.batches[listing[i]]))
  }

  /** `pick` is what the scheduler chooses for this host from this listing. */
  ghost predicate IsPick(s: State, host: Host, open: bool, listing: seq<string>, pick: Option<string>)
    requires forall id | id in listing :: id in s.batches
  {
    match pick
    case None => forall j | j in Jobs(s, listing) :: !Servable(s.registry, host, open, j)
    case Some(id) => exists i | 0 <= i < |listing| :: listing[i] == id && IsBest(s.registry, host, open, Jobs(s, listing), i)
  }

  /** `known` is the worker row of this org and hostname, if there is one. */
  predicate IsKnownWorker(s: State, org: string, hostname: string, known: Option<string>) {
    match known
    case Some(w) => w in s.workers && s.workers[w].org == org && s.workers[w].hostname == hostname
    case None => forall w | w in s.workers :: s.workers[w].org != org || s.workers[w].hostname != hostname
  }

  ghost predicate Legal(s: State, e: Event) {
    match e
    case CreateBatchEvent(id, _) => id !in s.batches
    case FinishValidationEvent(id, _, _) => id in s.validations
    case PollEvent(org, worker, open, listing, pick, _) =>
      OrgWorker(s, org, worker) && s.workers[worker].status != Draining ==>
        IsListing(s, listing) && IsPick(s, s.workers[worker].host, open, listing, pick)
    case UploadEvent(_, _, _, file, _, _, _) => file !in s.fileIds
    case RegisterEvent(org, hostname, known, newId, _, _) => IsKnownWorker(s, org, hostname, known) && newId !in s.workerIds
    case _ => true
  }

  // ---- Runs ----

  function Init(registry: Registry): State {
    State(map[], map[], map[], registry, {}, {}, {})
  }

  function Exec(s: State, events: seq<Event>): State {
    if events == [] then s else Step(Exec(s, events[..|events| - 1]), events[|events| - 1]).0
  }

  ghost predicate LegalRun(s: State, events: seq<Event>) {
    events == [] || (LegalRun(s, events[..|events| - 1]) && Legal(Exec(s, events[..|events| - 1]), events[|events| - 1]))
  }
}
