/**
 When the work of a daemon that stopped working on it is freed (backend/sweeper.py,
 backend/routers/workers.py): the sweep looks at silence and at nothing else, so a daemon
 that is heard again keeps a batch it has forgotten.
 */
module FreedWork {
  import opened Options
  import opened Catalogue
  import opened Scheduler
  import opened Lifecycle
  import opened LifecycleSafety
  import opened LifecycleLiveness
  import opened Redelivery
  import opened SmallRuns

  /** A message of the worker that ends its attempt at the batch. */
  predicate TellsTheEnd(e: Event, id: string, worker: string) {
    (e.UploadEvent? || e.FailureEvent?) && e.id == id && e.worker == worker
  }

  /** This step is a sweep that finds the worker silent. */
  predicate FoundSilent(s: State, e: Event, worker: string) {
    e.SweepEvent? && worker in StaleWorkers(s, e.now)
  }

  /** Without word of the worker, only a sweep that finds it silent moves a batch it runs on. */
  lemma SilenceIsWhatIsLeft(s: State, e: Event, id: string, worker: string)
    requires RunsOn(s, id, worker) && !TellsTheEnd(e, id, worker)
    ensures !MoveOf(s, e, id).Dispatch?
    ensures MoveOf(s, e, id).Complete? || MoveOf(s, e, id).Retry? <==> FoundSilent(s, e, worker)
  {
  }

  lemma RunningStep(s: State, e: Event, id: string, worker: string)
    requires Inv(s) && Legal(s, e) && RunsOn(s, id, worker) && !TellsTheEnd(e, id, worker)
    ensures RunsOn(Step(s, e).0, id, worker) <==> !FoundSilent(s, e, worker)
  {
    SilenceIsWhatIsLeft(s, e, id, worker);
    RunsOnStep(s, e, id, worker);
    HandOutsAreDispatches(s, e, id, worker);
  }

  ghost predicate AlwaysRunsOn(s: State, events: seq<Event>, id: string, worker: string) {
    Always(es => RunsOn(Exec(s, es), id, worker), events)
  }

  ghost predicate NeverFoundSilent(s: State, events: seq<Event>, worker: string) {
    EachStep((es, e) => !FoundSilent(Exec(s, es), e, worker), events)
  }

  /**
   While the worker sends no upload and no failure report about a batch it holds, the batch
   stays with it exactly as long as no sweep finds the worker silent: a sweep that finds it
   already offline, or without a row, frees nothing.
   */
  lemma {:induction false} FreedExactlyBySilence(s: State, events: seq<Event>, id: string, worker: string)
    requires Inv(s) && LegalRun(s, events) && RunsOn(s, id, worker)
    requires forall e | e in events :: !TellsTheEnd(e, id, worker)
    ensures AlwaysRunsOn(s, events, id, worker) <==> NeverFoundSilent(s, events, worker)
  {
    if events != [] {
      var init, last := events[..|events| - 1], events[|events| - 1];
      FreedExactlyBySilence(s, init, id, worker);
      AlwaysSnoc(es => RunsOn(Exec(s, es), id, worker), events);
      EachStepSnoc((es, e) => !FoundSilent(Exec(s, es), e, worker), events);
      RunKeepsInv(s, init);
      if AlwaysRunsOn(s, init, id, worker) {
        assert init[..|init|] == init;
        RunningStep(Exec(s, init), last, id, worker);
      }
    }
  }

  // ---- Daemons that are heard again ----

  /** The run ends in this state and hands nothing to an offline worker. */
  ghost predicate EndsIn(s: State, events: seq<Event>, t: State) {
    LegalRun(s, events) && Exec(s, events) == t && OfflineWorkersGetNothing(s, events)
  }

  lemma {:induction false} NoPollsNoHandOuts(s: State, events: seq<Event>)
    requires forall e | e in events :: !e.PollEvent?
    ensures OfflineWorkersGetNothing(s, events)
  {
    if events != [] {
      NoPollsNoHandOuts(s, events[..|events| - 1]);
      assert events[|events| - 1] in events;
    }
  }

  lemma Then(s: State, events: seq<Event>, t: State, e: Event, u: State) returns (more: seq<Event>)
    requires EndsIn(s, events, t) && Legal(t, e) && Step(t, e).0 == u && !DispatchesToOffline(t, e)
    ensures more == events + [e] && EndsIn(s, more, u)
  {
    more := Extend(s, events, e);
    assert more[..|more| - 1] == events;
  }

  const RUNNING_BATCH := QUEUED_BATCH.(status := InProgress)

  function Running(heard: int): State {
    Small(RUNNING_BATCH, SMALL_WORKER.(lastHeartbeat := heard), Some(Held(1)))
  }

  lemma ABatchIsHandedOut() returns (events: seq<Event>)
    ensures EndsIn(Init(SMALL_CATALOGUE), events, Running(0)) && events != [] && events[|events| - 1].PollEvent?
  {
    var before := AQueuedBatchAndAWorker();
    NoPollsNoHandOuts(Init(SMALL_CATALOGUE), before);
    SmallPollIsLegal(QUEUED_BATCH, SMALL_WORKER, 1);
    SmallPollDispatches(QUEUED_BATCH, SMALL_WORKER, 1);
    assert SMALL_WORKER.(lastHeartbeat := 0) == SMALL_WORKER;
    events := Then(Init(SMALL_CATALOGUE), before, Small(QUEUED_BATCH, SMALL_WORKER, None), SmallPoll(1), Running(0));
  }

  function Beat(now: int): Event {
    HeartbeatEvent("org", "w", SMALL_HOST, now)
  }

  /** The run goes on with one beat and one sweep a minute, `n` times. */
  function WithMinutes(before: seq<Event>, heard: int, n: nat): seq<Event> {
    if n == 0 then before else WithMinutes(before, heard, n - 1) + [Beat(heard + 60 * n), SweepEvent(heard + 60 * n)]
  }

  lemma BeatAndSweep(s: State, before: seq<Event>, was: int, now: int)
    requires EndsIn(s, before, Running(was))
    ensures EndsIn(s, before + [Beat(now), SweepEvent(now)], Running(now))
  {
    SmallBeat(RUNNING_BATCH, Held(1), was, now);
    var events := Then(s, before, Running(was), Beat(now), Running(now));
    SmallSweepSpares(RUNNING_BATCH, Held(1), now);
    events := Then(s, events, Running(now), SweepEvent(now), Running(now));
    assert events == before + [Beat(now), SweepEvent(now)];
  }

  lemma OneMoreMinute(s: State, before: seq<Event>, heard: int, n: nat)
    requires n > 0 && EndsIn(s, WithMinutes(before, heard, n - 1), Running(heard + 60 * (n - 1)))
    ensures EndsIn(s, WithMinutes(before, heard, n), Running(heard + 60 * n))
  {
    var events, was, now := WithMinutes(before, heard, n - 1), heard + 60 * (n - 1), heard + 60 * n;
    BeatAndSweep(s, events, was, now);
    assert WithMinutes(before, heard, n) == events + [Beat(now), SweepEvent(now)];
  }

  lemma {:induction false} BeatsAndSweeps(s: State, before: seq<Event>, heard: int, n: nat)
    requires EndsIn(s, before, Running(heard))
    ensures EndsIn(s, WithMinutes(before, heard, n), Running(heard + 60 * n))
  {
    if n > 0 {
      BeatsAndSweeps(s, before, heard, n - 1);
      OneMoreMinute(s, before, heard, n);
    } else {
      assert WithMinutes(before, heard, n) == before && heard + 60 * n == heard;
    }
  }

  lemma RunningMeansRunsOn(events: seq<Event>, heard: int)
    requires EndsIn(Init(SMALL_CATALOGUE), events, Running(heard))
    ensures KeptOnline(events)
  {
  }

  /** A legal run that hands nothing to an offline worker ends with the batch on an online one. */
  ghost predicate KeptOnline(events: seq<Event>) {
    var s := Init(SMALL_CATALOGUE);
    && LegalRun(s, events) && OfflineWorkersGetNothing(s, events)
    && var t := Exec(s, events);
       RunsOn(t, "b", "w") && "w" in t.workers && t.workers["w"].status == Online
  }

  const RESTART := RegisterEvent("org", "host", Some("w"), "v", SMALL_HOST, 10)

  /**
   A daemon that crashed and registered again within the timeout knows nothing of its batch:
   after any number of beats, with a sweep after each, the batch is still in progress on an
   online worker, although nothing was handed to an offline one.
   */
  lemma ARestartedDaemonKeepsItsBatch(n: nat) returns (before: seq<Event>)
    ensures before != [] && before[|before| - 1].PollEvent?
    ensures KeptOnline(WithMinutes(before + [RESTART], 10, n))
  {
    var s := Init(SMALL_CATALOGUE);
    before := ABatchIsHandedOut();
    SmallRestart(RUNNING_BATCH, Held(1), 0, 10);
    var again := Then(s, before, Running(0), RESTART, Running(10));
    BeatsAndSweeps(s, again, 10, n);
    RunningMeansRunsOn(WithMinutes(again, 10, n), 10 + 60 * n);
  }

  /** So does one whose failure report was lost on the way: it goes on beating and tells no more. */
  lemma ALostFailureReportKeepsTheBatch(n: nat) returns (before: seq<Event>)
    ensures before != [] && before[|before| - 1].PollEvent?
    ensures KeptOnline(WithMinutes(before, 0, n))
  {
    var s := Init(SMALL_CATALOGUE);
    before := ABatchIsHandedOut();
    BeatsAndSweeps(s, before, 0, n);
    RunningMeansRunsOn(WithMinutes(before, 0, n), 60 * n);
  }
}
