/**
 Live progress: reports arrive out of order, twice or not at all, and the counters
 are their pointwise maximum (backend/routers/workers.py).
 */
module ProgressCounters {
  import opened Options
  import opened Catalogue
  import opened Lifecycle
  import opened LifecycleSafety
  import opened SmallRuns

  /** Completed and failed prompts, as one report states them. */
  type Report = (int, int)

  function Join(start: Report, reports: seq<Report>): Report {
    if reports == [] then start
    else
      var before, last := Join(start, reports[..|reports| - 1]), reports[|reports| - 1];
      (MaxInt(before.0, last.0), MaxInt(before.1, last.1))
  }

  predicate Below(a: Report, b: Report) {
    a.0 <= b.0 && a.1 <= b.1
  }

  /** The counters are the least upper bound of the start and the reports delivered. */
  lemma {:induction false} JoinIsLeast(start: Report, reports: seq<Report>, bound: Report)
    ensures Below(start, Join(start, reports))
    ensures forall r | r in reports :: Below(r, Join(start, reports))
    ensures Below(start, bound) && (forall r | r in reports :: Below(r, bound)) ==> Below(Join(start, reports), bound)
  {
    if reports != [] {
      var init, last := reports[..|reports| - 1], reports[|reports| - 1];
      JoinIsLeast(start, init, bound);
      assert reports == init + [last];
      assert last in reports && forall r :: r in init ==> r in reports;
    }
  }

  /** Order and repetition do not matter: only which reports arrived. */
  lemma JoinIgnoresOrderAndRepetition(start: Report, a: seq<Report>, b: seq<Report>)
    requires forall r :: r in a <==> r in b
    ensures Join(start, a) == Join(start, b)
  {
    JoinIsLeast(start, a, Join(start, b));
    JoinIsLeast(start, b, Join(start, a));
  }

  /** Reports of one attempt, in the order they were made: neither counter ever falls. */
  ghost predicate IsCurve(curve: seq<Report>, total: int) {
    && (forall i, j | 0 <= i <= j < |curve| :: Below(curve[i], curve[j]))
    && (forall i | 0 <= i < |curve| :: Below((0, 0), curve[i]) && curve[i].0 + curve[i].1 <= total)
  }

  /** Whatever part of one attempt's reports arrives, the counters are zero or exactly one of those reports. */
  lemma {:induction false} OneAttemptShowsAReport(curve: seq<Report>, total: int, delivered: seq<Report>)
    requires IsCurve(curve, total) && 0 <= total && forall r | r in delivered :: r in curve
    ensures var c := Join((0, 0), delivered); (c == (0, 0) || c in delivered) && c.0 + c.1 <= total
  {
    if delivered != [] {
      OneAttemptShowsAReport(curve, total, delivered[..|delivered| - 1]);
      var before, last := Join((0, 0), delivered[..|delivered| - 1]), delivered[|delivered| - 1];
      assert last in delivered && last in curve;
      if before != (0, 0) {
        assert before in delivered && before in curve;
        var i :| 0 <= i < |curve| && curve[i] == before;
        var j :| 0 <= j < |curve| && curve[j] == last;
        assert if i <= j then Below(curve[i], curve[j]) else Below(curve[j], curve[i]);
      }
    }
  }

  /** Each counter of the join is that of the start or of some report delivered. */
  lemma {:induction false} JoinIsAttained(start: Report, reports: seq<Report>)
    ensures exists a | a in [start] + reports :: a.0 == Join(start, reports).0
    ensures exists b | b in [start] + reports :: b.1 == Join(start, reports).1
  {
    var all := [start] + reports;
    if reports == [] {
      assert start in all;
    } else {
      var init, last := reports[..|reports| - 1], reports[|reports| - 1];
      JoinIsAttained(start, init);
      assert forall r :: r in [start] + init ==> r in all;
      assert last in all;
    }
  }

  /** The counters fit the total exactly when the completed count of each report fits with the failed count of each. */
  lemma JoinFitsExactly(start: Report, reports: seq<Report>, total: int)
    ensures Join(start, reports).0 + Join(start, reports).1 <= total <==>
            forall a, b | a in [start] + reports && b in [start] + reports :: a.0 + b.1 <= total
  {
    var all, c := [start] + reports, Join(start, reports);
    JoinIsLeast(start, reports, c);
    JoinIsAttained(start, reports);
    var a :| a in all && a.0 == c.0;
    var b :| b in all && b.1 == c.1;
    assert forall r :: r in all ==> Below(r, c);
  }

  // ---- Inside a run ----

  /** Nothing but progress reports reaches this batch during the run. */
  ghost predicate OnlyReports(s: State, events: seq<Event>, id: string) {
    events == [] ||
    (var before := events[..|events| - 1];
     && OnlyReports(s, before, id)
     && id in Exec(s, before).batches
     && var m := MoveOf(Exec(s, before), events[|events| - 1], id); m.Stay? || m.Count?)
  }

  /** The reports that reached the batch, in order of arrival. */
  ghost function Delivered(s: State, events: seq<Event>, id: string): seq<Report>
    requires OnlyReports(s, events, id)
  {
    if events == [] then []
    else
      var before := events[..|events| - 1];
      var m := MoveOf(Exec(s, before), events[|events| - 1], id);
      Delivered(s, before, id) + if m.Count? then [(m.done, m.bad)] else []
  }

  lemma OneReportJoins(u: State, e: Event, id: string)
    requires Inv(u) && Legal(u, e) && id in u.batches && (MoveOf(u, e, id).Stay? || MoveOf(u, e, id).Count?)
    ensures id in Step(u, e).0.batches
    ensures var m := MoveOf(u, e, id);
            Step(u, e).0.batches[id] == if m.Count? then Counted(u.batches[id], m.done, m.bad) else u.batches[id]
  {
    StepMovesRows(u, e, id);
    assert RowOf(Step(u, e).0, id).batch == Step(u, e).0.batches[id];
  }

  lemma JoinSnoc(start: Report, reports: seq<Report>, last: Report)
    ensures Join(start, reports + [last]) == (MaxInt(Join(start, reports).0, last.0), MaxInt(Join(start, reports).1, last.1))
  {
    assert (reports + [last])[..|reports|] == reports;
  }

  ghost predicate IsJoined(b: Batch, c: Batch, reports: seq<Report>) {
    (c.completed, c.failed) == Join((b.completed, b.failed), reports) && c.total == b.total
  }

  function ReportsIn(m: Move): seq<Report> {
    if m.Count? then [(m.done, m.bad)] else []
  }

  lemma OneMoreJoined(b: Batch, c: Batch, reports: seq<Report>, m: Move)
    requires IsJoined(b, c, reports)
    ensures IsJoined(b, if m.Count? then Counted(c, m.done, m.bad) else c, reports + ReportsIn(m))
  {
    if m.Count? {
      JoinSnoc((b.completed, b.failed), reports, (m.done, m.bad));
    } else {
      assert reports + [] == reports;
    }
  }

  lemma DeliveredSnoc(s: State, events: seq<Event>, id: string)
    requires events != [] && OnlyReports(s, events, id)
    ensures var before := events[..|events| - 1];
            && OnlyReports(s, before, id) && id in Exec(s, before).batches
            && var m := MoveOf(Exec(s, before), events[|events| - 1], id);
               (m.Stay? || m.Count?) && Delivered(s, events, id) == Delivered(s, before, id) + ReportsIn(m)
  {
  }

  lemma {:induction false} CountersAreTheJoin(s: State, events: seq<Event>, id: string)
    requires Inv(s) && LegalRun(s, events) && id in s.batches && OnlyReports(s, events, id)
    ensures id in Exec(s, events).batches
    ensures var b, c := s.batches[id], Exec(s, events).batches[id];
            (c.completed, c.failed) == Join((b.completed, b.failed), Delivered(s, events, id)) && c.total == b.total
  {
    if events != [] {
      var before, e := events[..|events| - 1], events[|events| - 1];
      var u := Exec(s, before);
      DeliveredSnoc(s, events, id);
      CountersAreTheJoin(s, before, id);
      RunKeepsInv(s, before);
      OneReportJoins(u, e, id);
      OneMoreJoined(s.batches[id], u.batches[id], Delivered(s, before, id), MoveOf(u, e, id));
    }
  }

  /**
   One attempt, from dispatch on, interleaved with anything that leaves the batch
   alone: the dashboard shows zero or one of the reports sent, never more than the total.
   */
  lemma ProgressStaysWithinTotal(s: State, events: seq<Event>, id: string, curve: seq<Report>)
    requires Inv(s) && LegalRun(s, events) && id in s.batches && OnlyReports(s, events, id)
    requires s.batches[id].completed == 0 && s.batches[id].failed == 0
    requires IsCurve(curve, s.batches[id].total) && forall r | r in Delivered(s, events, id) :: r in curve
    ensures id in Exec(s, events).batches
    ensures var c := Exec(s, events).batches[id];
            && c.completed + c.failed <= c.total
            && ((c.completed, c.failed) == (0, 0) || (c.completed, c.failed) in Delivered(s, events, id))
  {
    CountersAreTheJoin(s, events, id);
    OneAttemptShowsAReport(curve, s.batches[id].total, Delivered(s, events, id));
  }

  /**
   Progress checks the assignment and not the status, so a report that arrives
   after the upload still counts; it leaves the final counters alone exactly when
   it is not above them.
   */
  lemma LateProgressMovesFinalCounters(s: State, e: Event)
    requires e.ProgressEvent? && AssignedTo(s, e.id, e.worker) && OrgWorker(s, e.org, e.worker)
    requires s.batches[e.id].status == Completed
    ensures Step(s, e).0 == s <==> Below((e.completed, e.failed), (s.batches[e.id].completed, s.batches[e.id].failed))
  {
    var t := Step(s, e).0;
    var b := s.batches[e.id];
    assert t.batches[e.id] == Counted(b, e.completed, e.failed);
    if Below((e.completed, e.failed), (b.completed, b.failed)) {
      assert t.batches == s.batches;
    }
  }

  // ---- Over whole runs, requeues included ----

  /** The reports that reached the batch since it was last handed out, whichever attempt they were made in. */
  ghost function SinceHandOut(s: State, events: seq<Event>, id: string): seq<Report> {
    if events == [] then []
    else
      var before := Exec(s, events[..|events| - 1]);
      var rest := SinceHandOut(s, events[..|events| - 1], id);
      if id !in before.batches then []
      else
        match MoveOf(before, events[|events| - 1], id)
        case Dispatch(_) => []
        case Count(done, bad) => rest + [(done, bad)]
        case _ => rest
  }

  /** The moves after which a batch is running, and what they do to its counters. */
  lemma MovesOfRunningRows(row: Row, m: Move)
    requires RowOk(row) && Enabled(row, m) && Moved(row, m).batch.status == InProgress
    ensures var c := Moved(row, m).batch;
            match m
            case Dispatch(_) => (c.completed, c.failed) == (0, 0)
            case Count(done, bad) =>
              row.batch.status == InProgress && (c.completed, c.failed) == (MaxInt(row.batch.completed, done), MaxInt(row.batch.failed, bad))
            case _ => row.batch.status == InProgress && (c.completed, c.failed) == (row.batch.completed, row.batch.failed)
  {
  }

  lemma NewBatchesAreNotRunning(s: State, e: Event, id: string)
    requires Inv(s) && Legal(s, e) && id !in s.batches && id in Step(s, e).0.batches
    ensures Step(s, e).0.batches[id].status != InProgress
  {
    StepKeepsTables(s, e);
    assert RowOf(Step(s, e).0, id).batch == Step(s, e).0.batches[id];
  }

  lemma StepMovesCounters(s: State, e: Event, id: string)
    requires Inv(s) && Legal(s, e) && id in Step(s, e).0.batches && Step(s, e).0.batches[id].status == InProgress
    ensures id in s.batches
    ensures var b, c := s.batches[id], Step(s, e).0.batches[id];
            match MoveOf(s, e, id)
            case Dispatch(_) => (c.completed, c.failed) == (0, 0)
            case Count(done, bad) => b.status == InProgress && (c.completed, c.failed) == (MaxInt(b.completed, done), MaxInt(b.failed, bad))
            case _ => b.status == InProgress && (c.completed, c.failed) == (b.completed, b.failed)
  {
    if id !in s.batches {
      NewBatchesAreNotRunning(s, e, id);
    } else {
      StepMovesRows(s, e, id);
      assert RowOf(Step(s, e).0, id).batch == Step(s, e).0.batches[id];
      MovesOfRunningRows(RowOf(s, id), MoveOf(s, e, id));
    }
  }

  /** In every reachable state a running batch's counters are the join of those reports, from zero. */
  lemma {:induction false} RunningCountersAreTheJoin(registry: Registry, events: seq<Event>, id: string)
    requires LegalRun(Init(registry), events)
    requires id in Exec(Init(registry), events).batches && Exec(Init(registry), events).batches[id].status == InProgress
    ensures var c := Exec(Init(registry), events).batches[id];
            (c.completed, c.failed) == Join((0, 0), SinceHandOut(Init(registry), events, id))
  {
    var s, init := Init(registry), events[..|events| - 1];
    var before, e := Exec(s, init), events[|events| - 1];
    RunKeepsInv(s, init);
    StepMovesCounters(before, e, id);
    var m, d := MoveOf(before, e, id), SinceHandOut(s, init, id);
    if !m.Dispatch? {
      RunningCountersAreTheJoin(registry, init, id);
      if m.Count? {
        assert (d + [(m.done, m.bad)])[..|d|] == d;
      }
    }
  }

  /**
   In every reachable state the counters of a running batch stay within its total exactly when
   no completed count and no failed count delivered since the hand-out exceed it together.
   */
  lemma CountersStayWithinTotalExactly(registry: Registry, events: seq<Event>, id: string)
    requires LegalRun(Init(registry), events)
    requires id in Exec(Init(registry), events).batches && Exec(Init(registry), events).batches[id].status == InProgress
    ensures var c, reports := Exec(Init(registry), events).batches[id], [(0, 0)] + SinceHandOut(Init(registry), events, id);
            c.completed + c.failed <= c.total <==> forall a, b | a in reports && b in reports :: a.0 + b.1 <= c.total
  {
    RunningCountersAreTheJoin(registry, events, id);
    JoinFitsExactly((0, 0), SinceHandOut(Init(registry), events, id), Exec(Init(registry), events).batches[id].total);
  }

  const EARLY_REPORT := ProgressEvent("org", "w", "b", 1, 0)
  const LATE_REPORT := ProgressEvent("org", "w", "b", 0, 1)
  const REQUEUED_BATCH := QUEUED_BATCH.(attempts := 1)

  /** The first attempt reports one completed prompt and then fails. */
  lemma AReportedAndFailedAttempt() returns (events: seq<Event>)
    ensures Reaches(events, Small(REQUEUED_BATCH, SMALL_WORKER, None)) && |events| == 6
    ensures forall e | e in events && e.ProgressEvent? :: e == EARLY_REPORT
    ensures events[4] == EARLY_REPORT && events[5].FailureEvent?
  {
    var b := QUEUED_BATCH.(status := InProgress);
    events := AQueuedBatchAndAWorker();
    events := ThenPoll(events, QUEUED_BATCH, 1);
    events := ThenReport(events, b, 1, 1, 0);
    events := ThenFailure(events, Counted(b, 1, 0), 1, 2);
  }

  /** The second attempt reports one failed prompt, and the first one's report arrives again. */
  lemma AMixedSecondAttempt(before: seq<Event>) returns (events: seq<Event>)
    requires Reaches(before, Small(REQUEUED_BATCH, SMALL_WORKER, None))
    ensures Reaches(events, Small(REQUEUED_BATCH.(status := InProgress, completed := 1, failed := 1), SMALL_WORKER, Some(Held(3))))
    ensures events == before + [SmallPoll(3), LATE_REPORT, EARLY_REPORT]
  {
    var d := REQUEUED_BATCH.(status := InProgress);
    events := ThenPoll(before, REQUEUED_BATCH, 3);
    events := ThenReport(events, d, 3, 0, 1);
    events := ThenReport(events, Counted(d, 0, 1), 3, 1, 0);
  }

  /**
   A legal run from the empty tables breaks it although every report is within the total: one
   made in the first attempt is delivered again in the second, whose own report it does not match.
   */
  lemma MixedAttemptsCanExceedTheTotal() returns (events: seq<Event>)
    ensures LegalRun(Init(SMALL_CATALOGUE), events) && |events| == 9
    ensures forall e | e in events && e.ProgressEvent? :: 0 <= e.completed && 0 <= e.failed && e.completed + e.failed <= 1
    ensures events[4].ProgressEvent? && events[5].FailureEvent? && events[6].PollEvent? && events[8] == events[4]
    ensures var t := Exec(Init(SMALL_CATALOGUE), events);
            && "b" in t.batches && t.batches["b"].status == InProgress
            && t.batches["b"].total == 1 && t.batches["b"].completed + t.batches["b"].failed == 2
  {
    var before := AReportedAndFailedAttempt();
    events := AMixedSecondAttempt(before);
  }
}
