/**
 Draining (backend/routers/organizations.py, backend/routers/workers.py): a draining worker
 finishes what it has and takes no more. What exactly ends a drain?
 */
module Draining {
  import opened Options
  import opened Catalogue
  import opened Scheduler
  import opened Lifecycle
  import opened LifecycleSafety
  import opened Redelivery

  predicate IsDraining(s: State, worker: string) {
    worker in s.workers && s.workers[worker].status == Draining
  }

  /** The owner lifts it, the daemon registers again, or a sweep finds the worker silent. */
  predicate EndsDrain(s: State, e: Event, worker: string) {
    match e
    case UndrainEvent(org, w) => w == worker && OrgWorker(s, org, w)
    case RegisterEvent(_, _, known, _, _, _) => known == Some(worker)
    case SweepEvent(now) => worker in StaleWorkers(s, now)
    case _ => false
  }

  lemma DrainStep(s: State, e: Event, worker: string)
    requires IsDraining(s, worker) && s.workers.Keys <= s.workerIds && Legal(s, e)
    ensures IsDraining(Step(s, e).0, worker) <==> !EndsDrain(s, e, worker)
  {
  }

  /** A draining worker is handed nothing. */
  lemma DrainingTakesNothing(s: State, e: Event, id: string, worker: string)
    requires Inv(s) && Legal(s, e) && IsDraining(s, worker) && id in s.batches
    ensures !IsHandOut(s, e, id, worker)
    ensures RunsOn(Step(s, e).0, id, worker) ==> RunsOn(s, id, worker)
  {
    HandOutsAreDispatches(s, e, id, worker);
    RunsOnStep(s, e, id, worker);
  }

  ghost predicate DrainsThroughout(s: State, events: seq<Event>, worker: string) {
    Always(es => IsDraining(Exec(s, es), worker), events)
  }

  ghost predicate NothingEndsIt(s: State, events: seq<Event>, worker: string) {
    EachStep((es, e) => !EndsDrain(Exec(s, es), e, worker), events)
  }

  /**
   Over any legal run a worker drains throughout exactly when nothing of the three ends it;
   and as long as it drains, every batch it runs is one it had at the start.
   */
  lemma {:induction false} DrainEndsExactly(s: State, events: seq<Event>, worker: string)
    requires Inv(s) && LegalRun(s, events) && IsDraining(s, worker)
    ensures DrainsThroughout(s, events, worker) <==> NothingEndsIt(s, events, worker)
    ensures DrainsThroughout(s, events, worker) ==> forall id | id in s.batches :: RunsOn(Exec(s, events), id, worker) ==> RunsOn(s, id, worker)
  {
    if events != [] {
      var init, last := events[..|events| - 1], events[|events| - 1];
      DrainEndsExactly(s, init, worker);
      AlwaysSnoc(es => IsDraining(Exec(s, es), worker), events);
      EachStepSnoc((es, e) => !EndsDrain(Exec(s, es), e, worker), events);
      RunKeepsInv(s, init);
      if DrainsThroughout(s, init, worker) {
        assert init[..|init|] == init;
        DrainStep(Exec(s, init), last, worker);
        forall id | id in s.batches ensures RunsOn(Exec(s, events), id, worker) ==> RunsOn(s, id, worker) {
          AttemptsNeverFall(s, init, id);
          DrainingTakesNothing(Exec(s, init), last, id, worker);
        }
      }
    }
  }
}
