/**
 What each handler does to the tables (backend/routers/workers.py, backend/routers/organizations.py,
 backend/sweeper.py, backend/services/batch_validator.py): when it is refused, what it writes, and
 that it writes nothing else.
 */
module HandlerEffects {
  import opened Options
  import opened Catalogue
  import opened Scheduler
  import opened Lifecycle
  import opened LifecycleSafety

  // ---- What may change ----

  /** At most this batch, its assignment, its validation task and the issued files change. */
  ghost predicate OnlyBatch(s: State, t: State, id: string) {
    && t.workers == s.workers && t.workerIds == s.workerIds && t.registry == s.registry
    && (forall other | other != id :: (other in t.batches <==> other in s.batches) && (other in t.assignments <==> other in s.assignments))
    && (forall other | other != id && other in s.batches && other in t.batches :: t.batches[other] == s.batches[other])
    && (forall other | other != id && other in s.assignments && other in t.assignments :: t.assignments[other] == s.assignments[other])
    && (forall other | other != id :: other in t.validations <==> other in s.validations)
  }

  /** At most this worker's row changes. */
  ghost predicate OnlyWorker(s: State, t: State, worker: string) {
    && t.batches == s.batches && t.assignments == s.assignments && t.validations == s.validations && t.fileIds == s.fileIds
    && t.registry == s.registry
    && (forall other | other != worker :: other in t.workers <==> other in s.workers)
    && (forall other | other != worker && other in s.workers && other in t.workers :: t.workers[other] == s.workers[other])
  }

  predicate IsOurs(s: State, org: string, worker: string) {
    worker in s.workers && s.workers[worker].org == org
  }

  /** The message is about a batch assigned to this worker of this organization. */
  predicate IsAboutItsBatch(s: State, org: string, worker: string, id: string) {
    && IsOurs(s, org, worker) && id in s.batches && id in s.assignments && s.assignments[id].worker == worker
  }

  predicate IsRefused(s: State, t: State, reply: Reply) {
    reply == Reply.Refused && t == s
  }

  // ---- What is written ----

  /** One failed attempt more: the third fails the batch with all its prompts, an earlier one lists it again. */
  ghost predicate LostAnAttempt(b: Batch, c: Batch, error: string, now: int) {
    && c.attempts == b.attempts + 1 && c.completed == 0
    && c.error == (if error == "" then b.error else if |error| <= 2000 then error else error[..2000])
    && (if b.attempts >= 2 then c.status == Failed && c.failed == b.total && c.completedAt == Some(now)
        else c.status == Validated && c.failed == 0 && c.completedAt == b.completedAt)
    && c.createdAt == b.createdAt && c.model == b.model && c.needs == b.needs && c.total == b.total
    && c.outputFile == b.outputFile && c.usagePending == b.usagePending
  }

  /** The file is stored, usage is still to be ingested, and the reported counts, if any, are final. */
  ghost predicate IsFinished(b: Batch, c: Batch, file: string, done: Option<int>, bad: Option<int>, now: int) {
    && c.status == Completed && c.outputFile == Some(file) && c.usagePending && c.completedAt == Some(now)
    && (match done case Some(n) => c.completed == n case None => c.completed == b.completed)
    && (match bad case Some(n) => c.failed == n case None => c.failed == b.failed)
    && c.createdAt == b.createdAt && c.model == b.model && c.needs == b.needs && c.total == b.total
    && c.attempts == b.attempts && c.error == b.error
  }

  ghost predicate IsJudged(b: Batch, c: Batch, verdict: Verdict, now: int) {
    && (match verdict
       case Accept(total, model, needs) =>
         && c.status == Validated && c.total == total && c.needs == needs && c.completedAt == b.completedAt
         && c.model == if model == "" then b.model else model
       case Reject(total) =>
         c.status == Failed && c.total == total && c.completedAt == Some(now) && c.model == b.model && c.needs == b.needs
       case PersistError =>
         c.status == Failed && c.total == b.total && c.completedAt == Some(now) && c.model == b.model && c.needs == b.needs)
    && c.createdAt == b.createdAt && c.completed == b.completed && c.failed == b.failed && c.attempts == b.attempts
    && c.outputFile == b.outputFile && c.usagePending == b.usagePending && c.error == b.error
  }

  /** Heard now, with what it reports of its runtimes and cards. */
  ghost predicate IsHeard(w: Worker, v: Worker, host: Host, now: int) {
    v.org == w.org && v.hostname == w.hostname && v.lastHeartbeat == now && v.host == host
  }

  // ---- Handler by handler ----

  lemma CreatingABatch(s: State, id: string, now: int)
    requires id !in s.batches
    ensures var t := Step(s, CreateBatchEvent(id, now)).0;
            && OnlyBatch(s, t, id) && t.fileIds == s.fileIds
            && id in t.batches && id in t.validations && (id in t.assignments <==> id in s.assignments)
            && t.batches[id] == Batch(Validating, now, "", [], 0, 0, 0, 0, None, false, "", None)
  {
  }

  /** A validation result is written whatever the batch's status; one for a batch that is gone is dropped. */
  lemma FinishingAValidation(s: State, id: string, verdict: Verdict, now: int)
    ensures var t := Step(s, FinishValidationEvent(id, verdict, now)).0;
            if id !in s.batches then t == s
            else
              && OnlyBatch(s, t, id) && t.fileIds == s.fileIds && t.assignments == s.assignments
              && id in t.batches && id !in t.validations && IsJudged(s.batches[id], t.batches[id], verdict, now)
  {
  }

  lemma ReportingProgress(s: State, org: string, worker: string, id: string, done: int, bad: int)
    ensures var (t, reply) := Step(s, ProgressEvent(org, worker, id, done, bad));
            if !IsAboutItsBatch(s, org, worker, id) then IsRefused(s, t, reply)
            else
              var b := s.batches[id];
              && reply == Ok && OnlyBatch(s, t, id) && t.fileIds == s.fileIds && t.assignments == s.assignments && t.validations == s.validations
              && id in t.batches
              && t.batches[id] == b.(completed := if done > b.completed then done else b.completed, failed := if bad > b.failed then bad else b.failed)
  {
  }

  /** The first upload completes the batch; later ones are answered with its file; any other status refuses. */
  lemma UploadingResults(s: State, org: string, worker: string, id: string, file: string, done: Option<int>, bad: Option<int>, now: int)
    ensures var (t, reply) := Step(s, UploadEvent(org, worker, id, file, done, bad, now));
            if !IsAboutItsBatch(s, org, worker, id) then IsRefused(s, t, reply)
            else if s.batches[id].status == Completed then
              t == s && (match s.batches[id].outputFile case Some(first) => reply == Uploaded(first) case None => reply == Ok)
            else if s.batches[id].status != InProgress then IsRefused(s, t, reply)
            else
              && reply == Uploaded(file) && OnlyBatch(s, t, id) && t.assignments == s.assignments && t.validations == s.validations
              && t.fileIds == s.fileIds + {file}
              && id in t.batches && IsFinished(s.batches[id], t.batches[id], file, done, bad, now)
  {
  }

  lemma ReportingFailure(s: State, org: string, worker: string, id: string, error: string, now: int)
    requires Inv(s)
    ensures var (t, reply) := Step(s, FailureEvent(org, worker, id, error, now));
            if !IsAboutItsBatch(s, org, worker, id) || s.batches[id].status != InProgress then IsRefused(s, t, reply)
            else
              && reply == Ok && OnlyBatch(s, t, id) && t.fileIds == s.fileIds && t.validations == s.validations
              && id in t.batches && id !in t.assignments && LostAnAttempt(s.batches[id], t.batches[id], error, now)
  {
    if id in s.batches {
      assert RowOk(RowOf(s, id));
    }
  }

  /** A known host name keeps its row, id and place, and comes online; an unknown one gets the new id. */
  lemma Registering(s: State, org: string, hostname: string, known: Option<string>, newId: string, host: Host, now: int)
    requires Legal(s, RegisterEvent(org, hostname, known, newId, host, now))
    ensures var t, id := Step(s, RegisterEvent(org, hostname, known, newId, host, now)).0, if known.Some? then known.value else newId;
            && OnlyWorker(s, t, id) && t.workerIds == s.workerIds + (if known.Some? then {} else {newId})
            && id in t.workers && t.workers[id] == Worker(org, hostname, Online, now, host)
  {
  }

  lemma Beating(s: State, org: string, worker: string, host: Host, now: int)
    ensures var (t, reply) := Step(s, HeartbeatEvent(org, worker, host, now));
            if !IsOurs(s, org, worker) then IsRefused(s, t, reply)
            else
              && reply == Ok && OnlyWorker(s, t, worker) && t.workerIds == s.workerIds
              && worker in t.workers && IsHeard(s.workers[worker], t.workers[worker], host, now)
              && t.workers[worker].status == if s.workers[worker].status == Draining then Draining else Online
  {
  }

  /** Progress on a model download is a sign of life and nothing more: an offline worker stays offline. */
  lemma ReportingModelProgress(s: State, org: string, worker: string, now: int)
    ensures var (t, reply) := Step(s, ModelProgressEvent(org, worker, now));
            if !IsOurs(s, org, worker) then IsRefused(s, t, reply)
            else
              && reply == Ok && OnlyWorker(s, t, worker) && t.workerIds == s.workerIds
              && worker in t.workers && t.workers[worker] == s.workers[worker].(lastHeartbeat := now)
  {
  }

  /** Draining is refused to an offline worker, undraining to one that is not draining; nothing else of the row changes. */
  lemma DrainingAndUndraining(s: State, org: string, worker: string)
    ensures var (t, reply) := Step(s, DrainEvent(org, worker));
            if !IsOurs(s, org, worker) || s.workers[worker].status == Offline then IsRefused(s, t, reply)
            else
              && reply == Ok && OnlyWorker(s, t, worker) && t.workerIds == s.workerIds
              && worker in t.workers && t.workers[worker] == s.workers[worker].(status := Draining)
    ensures var (t, reply) := Step(s, UndrainEvent(org, worker));
            if !IsOurs(s, org, worker) || s.workers[worker].status != Draining then IsRefused(s, t, reply)
            else
              && reply == Ok && OnlyWorker(s, t, worker) && t.workerIds == s.workerIds
              && worker in t.workers && t.workers[worker] == s.workers[worker].(status := Online)
  {
  }

  /** Only an offline worker's row goes, and its id is never issued again. */
  lemma Removing(s: State, org: string, worker: string)
    ensures var (t, reply) := Step(s, RemoveEvent(org, worker));
            if !IsOurs(s, org, worker) || s.workers[worker].status != Offline then IsRefused(s, t, reply)
            else reply == Ok && OnlyWorker(s, t, worker) && t.workerIds == s.workerIds && worker !in t.workers
  {
  }

  // ---- The sweep ----

  /** Not heard for more than two minutes, and not offline already. */
  predicate IsSilent(s: State, worker: string, now: int) {
    worker in s.workers && s.workers[worker].status != Offline && now - s.workers[worker].lastHeartbeat > 120
  }

  /** Running, and assigned to a worker that went silent. */
  predicate IsAbandoned(s: State, id: string, now: int) {
    id in s.batches && id in s.assignments && s.batches[id].status == InProgress && IsSilent(s, s.assignments[id].worker, now)
  }

  lemma Sweeping(s: State, now: int)
    ensures var t := Step(s, SweepEvent(now)).0;
            && t.registry == s.registry && t.validations == s.validations && t.workerIds == s.workerIds && t.fileIds == s.fileIds
            && t.workers.Keys == s.workers.Keys && t.batches.Keys == s.batches.Keys
            && (forall w | w in s.workers :: t.workers[w] == if IsSilent(s, w, now) then s.workers[w].(status := Offline) else s.workers[w])
            && (forall id :: id in t.assignments <==> id in s.assignments && !IsAbandoned(s, id, now))
            && (forall id | id in t.assignments && id in s.assignments :: t.assignments[id] == s.assignments[id])
            && (forall id | id in s.batches ::
                  if IsAbandoned(s, id, now)
                  then LostAnAttempt(s.batches[id], t.batches[id], "Worker " + s.assignments[id].worker + " went offline mid-job", now)
                  else t.batches[id] == s.batches[id])
  {
  }
}
