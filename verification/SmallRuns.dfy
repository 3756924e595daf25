/**
 Runs of the protocol over one batch and one worker, from the empty tables: the
 stage for the concrete runs that show what the code does not prevent.
 */
module SmallRuns {
  import opened Options
  import opened KeyedRows
  import opened Catalogue
  import opened Scheduler
  import opened Lifecycle

  lemma Extend(s: State, events: seq<Event>, e: Event) returns (more: seq<Event>)
    requires LegalRun(s, events) && Legal(Exec(s, events), e)
    ensures more == events + [e] && LegalRun(s, more) && Exec(s, more) == Step(Exec(s, events), e).0
  {
    more := events + [e];
    assert more[..|more| - 1] == events;
  }

  const SMALL_MODEL := Entry("ollama", "m:1b", "", [], None, true, Active)
  const SMALL_CATALOGUE := Registry([("m", SMALL_MODEL)], [])
  const SMALL_ROW := ModelRow("", Available, None, false, Facts("", 0, []))
  const SMALL_RUNTIME := Runtime("ollama", Ready, [("m:1b", SMALL_ROW)], {}, 0)
  const SMALL_HOST := Host([SMALL_RUNTIME], [8.0], None, None, None, None)

  lemma SmallHostServesSmallModel()
    ensures forall prompts, open :: CanServe(SMALL_MODEL, SMALL_HOST, [], prompts, open) <==> open
    ensures SelectableEntry(SMALL_CATALOGUE, "m") == Some(SMALL_MODEL)
  {
    assert RuntimeArtifacts([], false) == [];
    assert RuntimeArtifacts([("m:1b", SMALL_ROW)], false) == [("m:1b", "")];
    assert HostsOn(SMALL_RUNTIME, SMALL_MODEL);
    assert HostingRuntime(SMALL_HOST.runtimes, SMALL_MODEL) == Some(0);
    assert LargestGpu([8.0]) == Some(8.0);
  }

  const QUEUED_BATCH := NewBatch(0).(status := Validated, total := 1, model := "m")
  const SMALL_WORKER := Worker("org", "host", Online, 0, SMALL_HOST)

  /** One batch, one worker, and perhaps the batch with the worker. */
  function Small(b: Batch, w: Worker, holder: Option<Assignment>): State {
    State(map["b" := b], if holder.Some? then map["b" := holder.value] else map[], map["w" := w], SMALL_CATALOGUE, {}, {"w"}, {})
  }

  /** A one-prompt batch is created and accepted, and a worker registers. */
  lemma AQueuedBatchAndAWorker() returns (events: seq<Event>)
    ensures Reaches(events, Small(QUEUED_BATCH, SMALL_WORKER, None))
    ensures |events| == 3 && forall e | e in events :: !e.ProgressEvent? && !e.PollEvent?
  {
    var s0 := Init(SMALL_CATALOGUE);
    var s1 := s0.(batches := map["b" := NewBatch(0)], validations := {"b"});
    var s2 := s0.(batches := map["b" := QUEUED_BATCH]);
    events := [];
    events := Extend(s0, events, CreateBatchEvent("b", 0));
    assert Exec(s0, events) == s1;
    events := Extend(s0, events, FinishValidationEvent("b", Accept(1, "m", []), 0));
    assert s1.batches["b" := QUEUED_BATCH] == s2.batches;
    assert Exec(s0, events) == s2;
    events := Extend(s0, events, RegisterEvent("org", "host", None, "w", SMALL_HOST, 0));
  }

  function SmallPoll(now: int): Event {
    PollEvent("org", "w", true, ["b"], Some("b"), now)
  }

  /** A worker of this host that is not draining is handed the batch, offline or not. */
  lemma SmallPollIsLegal(b: Batch, w: Worker, now: int)
    requires b.status == Validated && b.model == "m" && b.needs == []
    requires w.org == "org" && w.host == SMALL_HOST
    ensures Legal(Small(b, w, None), SmallPoll(now))
  {
    var s := Small(b, w, None);
    SmallHostServesSmallModel();
    assert Jobs(s, ["b"]) == [Queued("m", [], b.total)];
    assert Servable(SMALL_CATALOGUE, SMALL_HOST, true, Queued("m", [], b.total));
    assert IsBest(s.registry, SMALL_HOST, true, Jobs(s, ["b"]), 0);
    assert ["b"][0] == "b";
  }

  lemma SmallPollDispatches(b: Batch, w: Worker, now: int)
    requires b.status == Validated && w.org == "org" && w.status != Draining
    ensures Step(Small(b, w, None), SmallPoll(now)).0
            == Small(b.(status := InProgress), w, Some(Assignment("w", "org", w.hostname, now)))
  {
    assert map["b" := b]["b" := b.(status := InProgress)] == map["b" := b.(status := InProgress)];
  }

  lemma SmallFailureRequeues(b: Batch, w: Worker, a: Assignment, error: string, now: int)
    requires b.status == InProgress && w.org == "org" && a.worker == "w"
    ensures Step(Small(b, w, Some(a)), FailureEvent("org", "w", "b", error, now)).0 == Small(NextAttempt(b, error, now), w, None)
  {
    assert map["b" := b]["b" := NextAttempt(b, error, now)] == map["b" := NextAttempt(b, error, now)];
    assert map["b" := a] - {"b"} == map[];
  }

  lemma SmallReportCounts(b: Batch, w: Worker, a: Assignment, completed: int, failed: int)
    requires w.org == "org" && a.worker == "w"
    ensures Step(Small(b, w, Some(a)), ProgressEvent("org", "w", "b", completed, failed)).0
            == Small(Counted(b, completed, failed), w, Some(a))
  {
    assert map["b" := b]["b" := Counted(b, completed, failed)] == map["b" := Counted(b, completed, failed)];
  }

  /** The run ends in this state. */
  ghost predicate Reaches(events: seq<Event>, t: State) {
    LegalRun(Init(SMALL_CATALOGUE), events) && Exec(Init(SMALL_CATALOGUE), events) == t
  }

  function Held(now: int): Assignment {
    Assignment("w", "org", "host", now)
  }

  lemma ThenPoll(events: seq<Event>, b: Batch, now: int) returns (more: seq<Event>)
    requires Reaches(events, Small(b, SMALL_WORKER, None)) && b.status == Validated && b.model == "m" && b.needs == []
    ensures more == events + [SmallPoll(now)] && Reaches(more, Small(b.(status := InProgress), SMALL_WORKER, Some(Held(now))))
  {
    SmallPollIsLegal(b, SMALL_WORKER, now);
    SmallPollDispatches(b, SMALL_WORKER, now);
    more := Extend(Init(SMALL_CATALOGUE), events, SmallPoll(now));
  }

  lemma ThenFailure(events: seq<Event>, b: Batch, since: int, now: int) returns (more: seq<Event>)
    requires Reaches(events, Small(b, SMALL_WORKER, Some(Held(since)))) && b.status == InProgress
    ensures more == events + [FailureEvent("org", "w", "b", "", now)]
    ensures Reaches(more, Small(NextAttempt(b, "", now), SMALL_WORKER, None))
  {
    SmallFailureRequeues(b, SMALL_WORKER, Held(since), "", now);
    more := Extend(Init(SMALL_CATALOGUE), events, FailureEvent("org", "w", "b", "", now));
  }

  lemma ThenReport(events: seq<Event>, b: Batch, since: int, completed: int, failed: int) returns (more: seq<Event>)
    requires Reaches(events, Small(b, SMALL_WORKER, Some(Held(since))))
    ensures more == events + [ProgressEvent("org", "w", "b", completed, failed)]
    ensures Reaches(more, Small(Counted(b, completed, failed), SMALL_WORKER, Some(Held(since))))
  {
    SmallReportCounts(b, SMALL_WORKER, Held(since), completed, failed);
    more := Extend(Init(SMALL_CATALOGUE), events, ProgressEvent("org", "w", "b", completed, failed));
  }

  /** The worker's daemon starts again under its host name. */
  lemma SmallRestart(b: Batch, a: Assignment, before: int, now: int)
    ensures var s, e := Small(b, SMALL_WORKER.(lastHeartbeat := before), Some(a)), RegisterEvent("org", "host", Some("w"), "v", SMALL_HOST, now);
            Legal(s, e) && Step(s, e).0 == Small(b, SMALL_WORKER.(lastHeartbeat := now), Some(a))
  {
    var w := SMALL_WORKER.(lastHeartbeat := now);
    assert map["w" := SMALL_WORKER.(lastHeartbeat := before)]["w" := w] == map["w" := w];
  }

  lemma SmallBeat(b: Batch, a: Assignment, before: int, now: int)
    ensures var s, e := Small(b, SMALL_WORKER.(lastHeartbeat := before), Some(a)), HeartbeatEvent("org", "w", SMALL_HOST, now);
            Legal(s, e) && Step(s, e).0 == Small(b, SMALL_WORKER.(lastHeartbeat := now), Some(a))
  {
    var w := SMALL_WORKER.(lastHeartbeat := now);
    assert map["w" := SMALL_WORKER.(lastHeartbeat := before)]["w" := w] == map["w" := w];
  }

  /** A sweep leaves a worker it heard just now alone. */
  lemma SmallSweepSpares(b: Batch, a: Assignment, now: int)
    ensures var s := Small(b, SMALL_WORKER.(lastHeartbeat := now), Some(a)); Sweep(s, now) == s
  {
    var s := Small(b, SMALL_WORKER.(lastHeartbeat := now), Some(a));
    assert StaleWorkers(s, now) == {} && HeldBy(s, {}) == {};
    var t := Sweep(s, now);
    assert t.workers == s.workers && t.batches == s.batches && t.assignments == s.assignments;
  }
}
