/**
 A failure report delivered again (backend/routers/workers.py): the fence of a message is the
 batch's worker, not the attempt, so the second delivery is refused or costs an attempt.
 */
module Redelivery {
  import opened Options
  import opened Scheduler
  import opened Lifecycle
  import opened LifecycleSafety
  import opened SmallRuns

  predicate RunsOn(s: State, id: string, worker: string) {
    AssignedTo(s, id, worker) && s.batches[id].status == InProgress
  }

  // ---- Prefixes of a run ----

  /** Before the run, between its steps and after it. */
  ghost predicate Always(P: seq<Event> -> bool, events: seq<Event>) {
    forall n | 0 <= n <= |events| :: P(events[..n])
  }

  /** At every step, seen from the prefix before it. */
  ghost predicate EachStep(P: (seq<Event>, Event) -> bool, events: seq<Event>) {
    forall n | 0 <= n < |events| :: P(events[..n], events[n])
  }

  lemma AlwaysSnoc(P: seq<Event> -> bool, events: seq<Event>)
    requires events != []
    ensures Always(P, events) <==> Always(P, events[..|events| - 1]) && P(events)
  {
    var init := events[..|events| - 1];
    assert events[..|events|] == events;
    forall n | 0 <= n <= |init| ensures init[..n] == events[..n] {
    }
  }

  lemma EachStepSnoc(P: (seq<Event>, Event) -> bool, events: seq<Event>)
    requires events != []
    ensures EachStep(P, events) <==> EachStep(P, events[..|events| - 1]) && P(events[..|events| - 1], events[|events| - 1])
  {
    var init := events[..|events| - 1];
    forall n | 0 <= n < |init| ensures init[..n] == events[..n] && init[n] == events[n] {
    }
  }

  /** This poll of the worker was answered with the batch. */
  predicate IsHandOut(s: State, e: Event, id: string, worker: string) {
    e.PollEvent? && e.worker == worker && Step(s, e).1.Dispatched? && Step(s, e).1.batch == id
  }

  /** An accepted upload or failure report about the batch, or a sweep that takes it back. */
  predicate EndsAttempt(s: State, e: Event, id: string) {
    id in s.batches && (MoveOf(s, e, id).Complete? || MoveOf(s, e, id).Retry?)
  }

  /** The run handed the batch to the worker and nothing has ended that attempt since. */
  ghost predicate HandedOutAgain(s: State, events: seq<Event>, id: string, worker: string) {
    events != [] &&
    var before, last := Exec(s, events[..|events| - 1]), events[|events| - 1];
    || IsHandOut(before, last, id, worker)
    || (HandedOutAgain(s, events[..|events| - 1], id, worker) && !EndsAttempt(before, last, id))
  }

  predicate RowRunsOn(r: Row, worker: string) {
    r.holder.Some? && r.holder.value.worker == worker && r.batch.status == InProgress
  }

  lemma MovesOfRows(r: Row, m: Move, worker: string)
    requires RowOk(r) && Enabled(r, m)
    ensures RowRunsOn(Moved(r, m), worker) <==>
            (m.Dispatch? && m.holder.worker == worker) || (RowRunsOn(r, worker) && !m.Complete? && !m.Retry?)
    ensures Moved(r, m).batch.attempts >= r.batch.attempts
  {
  }

  lemma HandOutsAreDispatches(s: State, e: Event, id: string, worker: string)
    requires Inv(s) && Legal(s, e) && id in s.batches
    ensures IsHandOut(s, e, id, worker) <==> MoveOf(s, e, id).Dispatch? && MoveOf(s, e, id).holder.worker == worker
  {
    RepliesMatchMoves(s, e, id);
  }

  lemma RunsOnStep(s: State, e: Event, id: string, worker: string)
    requires Inv(s) && Legal(s, e) && id in s.batches
    ensures id in Step(s, e).0.batches
    ensures RunsOn(Step(s, e).0, id, worker) <==> IsHandOut(s, e, id, worker) || (RunsOn(s, id, worker) && !EndsAttempt(s, e, id))
    ensures Step(s, e).0.batches[id].attempts >= s.batches[id].attempts
  {
    var t, m := Step(s, e).0, MoveOf(s, e, id);
    StepMovesRows(s, e, id);
    HandOutsAreDispatches(s, e, id, worker);
    MovesOfRows(RowOf(s, id), m, worker);
    assert RowOf(t, id).batch == t.batches[id];
    assert RunsOn(t, id, worker) <==> RowRunsOn(RowOf(t, id), worker);
  }

  lemma {:induction false} RunsOnMeansHandedOut(s: State, events: seq<Event>, id: string, worker: string)
    requires Inv(s) && LegalRun(s, events) && id in s.batches && s.batches[id].status != InProgress
    ensures id in Exec(s, events).batches
    ensures RunsOn(Exec(s, events), id, worker) <==> HandedOutAgain(s, events, id, worker)
  {
    if events != [] {
      var before := events[..|events| - 1];
      RunsOnMeansHandedOut(s, before, id, worker);
      RunKeepsInv(s, before);
      RunsOnStep(Exec(s, before), events[|events| - 1], id, worker);
    }
  }

  /** What an accepted failure report does. */
  lemma AcceptedFailureFreesTheBatch(s: State, e: Event)
    requires Inv(s) && e.FailureEvent?
    ensures Step(s, e).1 == Ok <==> OrgWorker(s, e.org, e.worker) && RunsOn(s, e.id, e.worker)
    ensures Step(s, e).1 == Ok ==> e.id in s.batches && Step(s, e).0 == RequeueOrFail(s, e.id, e.error, e.now)
    ensures Step(s, e).1 != Ok ==> Step(s, e) == (s, Reply.Refused)
  {
    if e.id in s.batches {
      assert RowOk(RowOf(s, e.id));
    }
  }

  /**
   After an accepted failure report and any further steps, the same report is refused and
   harmless exactly when the batch is not running again on that worker, that is, unless the
   worker still exists and its last hand-out of the batch since then has not ended; otherwise
   it costs that later attempt.
   */
  lemma StaleFailureHitsTheNextAttempt(s: State, e: Event, events: seq<Event>)
    requires Inv(s) && e.FailureEvent? && Step(s, e).1 == Ok && LegalRun(Step(s, e).0, events)
    ensures var t := Exec(Step(s, e).0, events);
            && (Step(t, e) == (t, Reply.Refused) <==>
                !(OrgWorker(t, e.org, e.worker) && HandedOutAgain(Step(s, e).0, events, e.id, e.worker)))
            && (Step(t, e) != (t, Reply.Refused) ==>
                e.id in t.batches && t.batches[e.id].status == InProgress && t.batches[e.id].attempts >= 1
                && Step(t, e) == (RequeueOrFail(t, e.id, e.error, e.now), Ok))
  {
    var s1 := Step(s, e).0;
    var t := Exec(s1, events);
    AcceptedFailureFreesTheBatch(s, e);
    StepKeepsInv(s, e);
    RunsOnMeansHandedOut(s1, events, e.id, e.worker);
    RunKeepsInv(s1, events);
    AcceptedFailureFreesTheBatch(t, e);
    AttemptsNeverFall(s1, events, e.id);
  }

  lemma {:induction false} AttemptsNeverFall(s: State, events: seq<Event>, id: string)
    requires Inv(s) && LegalRun(s, events) && id in s.batches
    ensures id in Exec(s, events).batches && Exec(s, events).batches[id].attempts >= s.batches[id].attempts
  {
    if events != [] {
      var before := events[..|events| - 1];
      AttemptsNeverFall(s, before, id);
      RunKeepsInv(s, before);
      RunsOnStep(Exec(s, before), events[|events| - 1], id, "");
    }
  }

  const REPORT := FailureEvent("org", "w", "b", "", 2)

  lemma AFailedAttempt() returns (events: seq<Event>)
    ensures Reaches(events, Small(QUEUED_BATCH.(attempts := 1), SMALL_WORKER, None))
    ensures |events| == 5 && events[4] == REPORT
  {
    events := AQueuedBatchAndAWorker();
    events := ThenPoll(events, QUEUED_BATCH, 1);
    events := ThenFailure(events, QUEUED_BATCH.(status := InProgress), 1, 2);
  }

  /**
   A legal run from the empty tables in which one report, sent about the first attempt and
   delivered twice, is charged twice: the second time to the attempt after it.
   */
  lemma AReportDeliveredTwiceIsChargedTwice() returns (events: seq<Event>)
    ensures LegalRun(Init(SMALL_CATALOGUE), events) && |events| == 7
    ensures events[4] == REPORT == events[6] && events[5].PollEvent?
    ensures Reaches(events[..5], Small(QUEUED_BATCH.(attempts := 1), SMALL_WORKER, None))
    ensures Reaches(events, Small(QUEUED_BATCH.(attempts := 2), SMALL_WORKER, None))
  {
    var first := AFailedAttempt();
    events := ThenPoll(first, QUEUED_BATCH.(attempts := 1), 3);
    events := ThenFailure(events, QUEUED_BATCH.(attempts := 1, status := InProgress), 3, 2);
    assert events[..5] == first;
  }
}
