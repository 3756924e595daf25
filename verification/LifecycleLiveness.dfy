/**
 No work is left with a worker nobody will reclaim it from: when that holds, when
 it breaks, and what the breakage costs.
 */
module LifecycleLiveness {
  import opened Options
  import opened KeyedRows
  import opened Catalogue
  import opened Scheduler
  import opened Lifecycle
  import opened LifecycleSafety
  import opened SmallRuns

  predicate InFlight(s: State, id: string) {
    id in s.batches && s.batches[id].status == InProgress && id in s.assignments
  }

  /** Every in-flight batch is with an existing worker the sweep still watches. */
  ghost predicate NoStrandedWork(s: State) {
    forall id | InFlight(s, id) ::
      s.assignments[id].worker in s.workers && s.workers[s.assignments[id].worker].status != Offline
  }

  /**
   The one step that breaks it: `poll_job` turns away draining workers only. Seen before the
   step: an offline worker polls and the scheduler has a batch for it.
   */
  predicate DispatchesToOffline(s: State, e: Event) {
    e.PollEvent? && OrgWorker(s, e.org, e.worker) && s.workers[e.worker].status == Offline && e.pick.Some?
  }

  /** A legal pick is handed out. */
  lemma PicksAreDispatched(s: State, e: Event)
    requires Legal(s, e) && e.PollEvent? && OrgWorker(s, e.org, e.worker) && s.workers[e.worker].status != Draining
    ensures e.pick.Some? <==> Step(s, e).1.Dispatched?
    ensures e.pick.Some? ==> e.pick.value in s.batches && s.batches[e.pick.value].status == Validated
  {
    if e.pick.Some? {
      assert e.pick.value in e.listing;
    }
  }

  lemma SweepKeepsWorkWatched(s: State, now: int)
    requires Inv(s) && NoStrandedWork(s)
    ensures NoStrandedWork(Sweep(s, now))
  {
    var t := Sweep(s, now);
    forall id | InFlight(t, id)
      ensures t.assignments[id].worker in t.workers && t.workers[t.assignments[id].worker].status != Offline
    {
      assert id !in HeldBy(s, StaleWorkers(s, now));
      assert InFlight(s, id);
    }
  }

  lemma WorkerStepKeepsWorkWatched(s: State, e: Event)
    requires Inv(s) && NoStrandedWork(s) && Legal(s, e) && IsWorkerEvent(e)
    ensures NoStrandedWork(Step(s, e).0)
  {
    var t := Step(s, e).0;
    WorkerStepLeavesBatches(s, e);
    forall id | InFlight(t, id)
      ensures t.assignments[id].worker in t.workers && t.workers[t.assignments[id].worker].status != Offline
    {
      assert InFlight(s, id);
    }
  }

  lemma PollKeepsWorkWatched(s: State, e: Event)
    requires Inv(s) && NoStrandedWork(s) && Legal(s, e) && e.PollEvent?
    ensures NoStrandedWork(Step(s, e).0) <==> !DispatchesToOffline(s, e)
  {
    var t := Step(s, e).0;
    if DispatchesToOffline(s, e) {
      PicksAreDispatched(s, e);
      assert InFlight(t, e.pick.value);
    } else {
      forall id | InFlight(t, id)
        ensures t.assignments[id].worker in t.workers && t.workers[t.assignments[id].worker].status != Offline
      {
        if t != s && e.pick != Some(id) {
          assert InFlight(s, id);
        }
      }
    }
  }

  /** A row that is in flight after a move other than a dispatch was with the same worker before. */
  lemma OnlyDispatchesStartWork(r: Row, m: Move)
    requires RowOk(r) && Enabled(r, m) && !m.Dispatch? && Moved(r, m).batch.status == InProgress
    ensures r.batch.status == InProgress && r.holder.Some? && Moved(r, m).holder == r.holder
  {
  }

  lemma BatchStepKeepsHolder(s: State, e: Event, id: string)
    requires Inv(s) && Legal(s, e) && !IsWorkerEvent(e) && !e.PollEvent? && !e.SweepEvent?
    requires InFlight(Step(s, e).0, id)
    ensures InFlight(s, id) && Step(s, e).0.assignments[id] == s.assignments[id]
  {
    var t := Step(s, e).0;
    StepKeepsTables(s, e);
    assert RowOf(t, id).holder == Some(t.assignments[id]);
    if id in s.batches {
      StepMovesRows(s, e, id);
      OnlyDispatchesStartWork(RowOf(s, id), MoveOf(s, e, id));
    }
  }

  lemma BatchStepLeavesWorkers(s: State, e: Event)
    requires !IsWorkerEvent(e) && !e.SweepEvent?
    ensures Step(s, e).0.workers == s.workers && Step(s, e).0.workerIds == s.workerIds
  {
  }

  lemma BatchStepKeepsWorkWatched(s: State, e: Event)
    requires Inv(s) && NoStrandedWork(s) && Legal(s, e)
    requires !IsWorkerEvent(e) && !e.PollEvent? && !e.SweepEvent?
    ensures NoStrandedWork(Step(s, e).0)
  {
    var t := Step(s, e).0;
    BatchStepLeavesWorkers(s, e);
    forall id | InFlight(t, id)
      ensures t.assignments[id].worker in t.workers && t.workers[t.assignments[id].worker].status != Offline
    {
      BatchStepKeepsHolder(s, e, id);
    }
  }

  /** Exactly one kind of step strands work: handing a batch to an offline worker. */
  lemma WorkIsWatchedExactlyWithoutOfflineDispatch(s: State, e: Event)
    requires Inv(s) && NoStrandedWork(s) && Legal(s, e)
    ensures NoStrandedWork(Step(s, e).0) <==> !DispatchesToOffline(s, e)
  {
    if e.PollEvent? {
      PollKeepsWorkWatched(s, e);
    } else if e.SweepEvent? {
      SweepKeepsWorkWatched(s, e.now);
    } else if IsWorkerEvent(e) {
      WorkerStepKeepsWorkWatched(s, e);
    } else {
      BatchStepKeepsWorkWatched(s, e);
    }
  }

  /** No step of the run hands a batch to an offline worker. */
  ghost predicate OfflineWorkersGetNothing(s: State, events: seq<Event>) {
    events == [] ||
    (OfflineWorkersGetNothing(s, events[..|events| - 1])
     && !DispatchesToOffline(Exec(s, events[..|events| - 1]), events[|events| - 1]))
  }

  lemma {:induction false} NoWorkIsStranded(s: State, events: seq<Event>)
    requires Inv(s) && NoStrandedWork(s) && LegalRun(s, events) && OfflineWorkersGetNothing(s, events)
    ensures NoStrandedWork(Exec(s, events))
  {
    if events != [] {
      var before := events[..|events| - 1];
      NoWorkIsStranded(s, before);
      RunKeepsInv(s, before);
      WorkIsWatchedExactlyWithoutOfflineDispatch(Exec(s, before), events[|events| - 1]);
    }
  }

  // ---- What a sweep achieves ----

  /** After a sweep no in-flight batch is with a worker that was silent for longer than the timeout. */
  lemma SweepLeavesNoSilentHolder(s: State, now: int, id: string)
    requires Inv(s) && NoStrandedWork(s) && InFlight(Sweep(s, now), id)
    ensures var t := Sweep(s, now);
            t.assignments[id].worker in t.workers
            && t.workers[t.assignments[id].worker].lastHeartbeat >= now - HEARTBEAT_TIMEOUT_SECONDS
  {
    assert id !in HeldBy(s, StaleWorkers(s, now));
    assert InFlight(s, id);
  }

  /** A batch held by a silent worker loses exactly one attempt and becomes free, or ends. */
  lemma SweepReclaimsFromTheSilent(s: State, now: int, id: string)
    requires Inv(s) && NoStrandedWork(s) && InFlight(s, id)
    requires s.workers[s.assignments[id].worker].lastHeartbeat < now - HEARTBEAT_TIMEOUT_SECONDS
    ensures var b, c := s.batches[id], Sweep(s, now).batches[id];
            && c.attempts == b.attempts + 1
            && id !in Sweep(s, now).assignments
            && c.status == (if b.attempts + 1 == MAX_BATCH_ATTEMPTS then Failed else Validated)
            && c.completed == 0 && c.failed == (if c.status == Failed then b.total else 0)
    ensures Sweep(s, now).workers[s.assignments[id].worker].status == Offline
  {
    assert RowOk(RowOf(s, id));
    assert id in HeldBy(s, StaleWorkers(s, now));
  }

  /** Sweeping twice at the same moment is sweeping once. */
  lemma SweepIsIdempotent(s: State, now: int)
    requires Inv(s)
    ensures Sweep(Sweep(s, now), now) == Sweep(s, now)
  {
    var t := Sweep(s, now);
    assert StaleWorkers(t, now) == {};
    assert HeldBy(t, {}) == {};
    var u := Sweep(t, now);
    assert u.workers == t.workers && u.batches == t.batches && u.assignments == t.assignments;
  }

  // ---- The breakage ----

  /** The batch is in flight with a worker whose row is gone for good. */
  predicate HeldByARemovedWorker(s: State, id: string) {
    InFlight(s, id) && s.assignments[id].worker !in s.workers && s.assignments[id].worker in s.workerIds
  }

  /** Only an accepted upload or failure report, or a sweep, takes a running row from its worker. */
  lemma MovesKeepTheHolder(r: Row, m: Move)
    requires RowOk(r) && Enabled(r, m) && r.holder.Some? && r.batch.status == InProgress && !m.Complete? && !m.Retry?
    ensures Moved(r, m).batch.status == InProgress && Moved(r, m).holder == r.holder
  {
  }

  lemma RemovedWorkersAreNotHeard(s: State, e: Event, id: string)
    requires HeldByARemovedWorker(s, id)
    ensures !MoveOf(s, e, id).Complete? && !MoveOf(s, e, id).Retry?
  {
  }

  lemma RemovedWorkersStayRemoved(s: State, e: Event, worker: string)
    requires Legal(s, e) && worker !in s.workers && worker in s.workerIds
    ensures worker !in Step(s, e).0.workers && worker in Step(s, e).0.workerIds
  {
    if !IsWorkerEvent(e) && !e.SweepEvent? {
      BatchStepLeavesWorkers(s, e);
    }
  }

  lemma StepKeepsItHeld(s: State, e: Event, id: string)
    requires Inv(s) && Legal(s, e) && HeldByARemovedWorker(s, id)
    ensures HeldByARemovedWorker(Step(s, e).0, id) && Step(s, e).0.assignments[id] == s.assignments[id]
  {
    var t := Step(s, e).0;
    StepMovesRows(s, e, id);
    RemovedWorkersAreNotHeard(s, e, id);
    MovesKeepTheHolder(RowOf(s, id), MoveOf(s, e, id));
    assert RowOf(t, id).holder == Some(s.assignments[id]);
    RemovedWorkersStayRemoved(s, e, s.assignments[id].worker);
  }

  /** Nothing the system does afterwards ever frees such a batch. */
  lemma {:induction false} StrandedForever(s: State, events: seq<Event>, id: string)
    requires Inv(s) && LegalRun(s, events) && HeldByARemovedWorker(s, id)
    ensures HeldByARemovedWorker(Exec(s, events), id)
  {
    if events != [] {
      var before := events[..|events| - 1];
      StrandedForever(s, before, id);
      RunKeepsInv(s, before);
      StepKeepsItHeld(Exec(s, before), events[|events| - 1], id);
    }
  }

  lemma SmallSweep()
    ensures Sweep(Small(QUEUED_BATCH, SMALL_WORKER, None), 121) == Small(QUEUED_BATCH, SMALL_WORKER.(status := Offline), None)
  {
    var s := Small(QUEUED_BATCH, SMALL_WORKER, None);
    var t := Sweep(s, 121);
    assert HeldBy(s, StaleWorkers(s, 121)) == {};
    assert t.workers == map["w" := SMALL_WORKER.(status := Offline)];
    assert t.batches == s.batches && t.assignments == s.assignments;
  }

  /** A swept worker polls and is handed the batch. */
  lemma AnOfflineWorkerIsHandedTheBatch() returns (events: seq<Event>)
    ensures Reaches(events, Small(QUEUED_BATCH.(status := InProgress), SMALL_WORKER.(status := Offline), Some(Held(122))))
  {
    var s0, offline := Init(SMALL_CATALOGUE), SMALL_WORKER.(status := Offline);
    events := AQueuedBatchAndAWorker();
    SmallSweep();
    events := Extend(s0, events, SweepEvent(121));
    SmallPollIsLegal(QUEUED_BATCH, offline, 122);
    SmallPollDispatches(QUEUED_BATCH, offline, 122);
    events := Extend(s0, events, SmallPoll(122));
  }

  /** A short legal run ends in such a state: a worker is swept, polls anyway, and is removed. */
  lemma AnOfflinePollCanStrandABatch() returns (events: seq<Event>)
    ensures LegalRun(Init(SMALL_CATALOGUE), events)
    ensures HeldByARemovedWorker(Exec(Init(SMALL_CATALOGUE), events), "b")
  {
    events := AnOfflineWorkerIsHandedTheBatch();
    events := Extend(Init(SMALL_CATALOGUE), events, RemoveEvent("org", "w"));
  }
}
