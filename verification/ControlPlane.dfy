/**
 The handlers and the sweep as they are written: methods that change the tables in
 place. Each is proved to be one legal step of the lifecycle.
 */
module ControlPlane {
  import opened Options
  import opened Catalogue
  import opened Scheduler
  import opened Lifecycle
  import LifecycleSafety
  import Eligibility
  import PolledJobs

  lemma {:induction false} SomeOldest(ids: set<string>, batches: map<string, Batch>)
    requires ids != {} && ids <= batches.Keys
    ensures exists id | id in ids :: forall jd | jd in ids :: batches[id].createdAt <= batches[jd].createdAt
  {
    var x :| x in ids;
    if ids != {x} {
      SomeOldest(ids - {x}, batches);
      var y :| y in ids - {x} && forall jd | jd in ids - {x} :: batches[y].createdAt <= batches[jd].createdAt;
      var oldest := if batches[x].createdAt <= batches[y].createdAt then x else y;
      assert oldest in ids && forall jd | jd in ids :: batches[oldest].createdAt <= batches[jd].createdAt;
    }
  }

  /** Reclaiming one more batch is one more call of `requeue_or_fail_batch`. */
  lemma ReclaimOneMore(s: State, stale: set<string>, held: set<string>, id: string, now: int)
    requires held <= s.assignments.Keys && id in s.assignments && id in s.batches && id !in held
    ensures Reclaim(s, stale, held + {id}, now)
            == RequeueOrFail(Reclaim(s, stale, held, now), id, SweepError(s.assignments[id].worker), now)
  {
    var a := Reclaim(s, stale, held + {id}, now);
    var b := RequeueOrFail(Reclaim(s, stale, held, now), id, SweepError(s.assignments[id].worker), now);
    assert a.batches == b.batches && a.assignments == b.assignments && a.workers == b.workers;
  }

  lemma ReclaimOneMoreWorker(s: State, stale: set<string>, held: set<string>, worker: string, now: int)
    requires held <= s.assignments.Keys && worker in s.workers && worker !in stale
    ensures var r := Reclaim(s, stale, held, now);
      worker in r.workers && Reclaim(s, stale + {worker}, held, now)
      == r.(workers := r.workers[worker := r.workers[worker].(status := Offline)])
  {
    var r := Reclaim(s, stale, held, now);
    assert Reclaim(s, stale + {worker}, held, now).workers == r.workers[worker := r.workers[worker].(status := Offline)];
  }

  lemma ReclaimNothing(s: State, now: int)
    ensures Reclaim(s, {}, {}, now) == s
  {
    var r := Reclaim(s, {}, {}, now);
    assert r.workers == s.workers && r.batches == s.batches && r.assignments == s.assignments;
  }

  lemma ReclaimLeavesOthers(s: State, stale: set<string>, held: set<string>, id: string, now: int)
    requires held <= s.assignments.Keys && id !in held
    ensures var r := Reclaim(s, stale, held, now);
      (id in r.batches <==> id in s.batches) && (id in s.batches ==> r.batches[id] == s.batches[id])
  {
  }

  lemma HeldBySplits(s: State, done: set<string>, worker: string)
    requires worker !in done
    ensures HeldBy(s, done + {worker}) == HeldBy(s, done) + HeldBy(s, {worker})
    ensures HeldBy(s, done) !! HeldBy(s, {worker})
  {
  }

  lemma TakeOne(before: set<string>, target: set<string>, mine: set<string>, id: string)
    requires id in mine
    ensures if id in target
            then before + (target - mine) + {id} == before + (target - (mine - {id})) && |target - (mine - {id})| == |target - mine| + 1
            else target - (mine - {id}) == target - mine
  {
    if id in target {
      assert target - (mine - {id}) == (target - mine) + {id};
    }
  }

  lemma SweepOne(s: State, stale: set<string>, todo: set<string>, worker: string)
    requires worker in todo && todo <= stale
    ensures var done := stale - todo;
      && stale - (todo - {worker}) == done + {worker} && worker !in done
      && HeldBy(s, done + {worker}) == HeldBy(s, done) + HeldBy(s, {worker})
      && HeldBy(s, done) !! HeldBy(s, {worker})
      && |HeldBy(s, done + {worker})| == |HeldBy(s, done)| + |HeldBy(s, {worker})|
  {
    HeldBySplits(s, stale - todo, worker);
    assert stale - (todo - {worker}) == (stale - todo) + {worker};
  }

  lemma MineCoversTarget(s: State, stale: set<string>, before: set<string>, worker: string, now: int,
                         assignments: map<string, Assignment>, mine: set<string>)
    requires before <= s.assignments.Keys && before !! HeldBy(s, {worker})
    requires assignments == Reclaim(s, stale, before, now).assignments
    requires mine == set id | id in assignments && assignments[id].worker == worker
    ensures HeldBy(s, {worker}) <= mine && before !! mine
    ensures forall id | id in mine :: id in s.assignments && s.assignments[id].worker == worker
  {
  }

  /** The invariant of the protocol survives a legal step. */
  lemma StepIsKept(s: State, e: Event)
    ensures LifecycleSafety.Inv(s) && Legal(s, e) ==> LifecycleSafety.Inv(Step(s, e).0)
  {
    if LifecycleSafety.Inv(s) && Legal(s, e) {
      LifecycleSafety.StepKeepsInv(s, e);
    }
  }

  lemma SweepIsKept(s: State, t: State, now: int)
    requires t == Sweep(s, now)
    ensures LifecycleSafety.Inv(s) ==> LifecycleSafety.Inv(t)
  {
    if LifecycleSafety.Inv(s) {
      assert Legal(s, SweepEvent(now)) && Step(s, SweepEvent(now)).0 == t;
      LifecycleSafety.StepKeepsInv(s, SweepEvent(now));
    }
  }

  class Server {
    var batches: map<string, Batch>
    var assignments: map<string, Assignment>
    var workers: map<string, Worker>
    var registry: Registry
    var validations: set<string>
    var workerIds: set<string>
    var fileIds: set<string>

    function Snapshot(): State
      reads this
    {
      State(batches, assignments, workers, registry, validations, workerIds, fileIds)
    }

    constructor (registry: Registry)
      ensures Snapshot() == Init(registry)
    {
      batches, assignments, workers := map[], map[], map[];
      this.registry := registry;
      validations, workerIds, fileIds := {}, {}, {};
    }

    method RequeueOrFailBatch(id: string, error: string, now: int) returns (status: BatchStatus)
      requires id in batches
      modifies this`batches, this`assignments
      ensures Snapshot() == RequeueOrFail(old(Snapshot()), id, error, now)
      ensures status == batches[id].status
    {
      var b := batches[id];
      b := b.(attempts := b.attempts + 1);
      assignments := assignments - {id};
      if error != "" {
        b := b.(error := Truncate(error));
      }
      if b.attempts >= MAX_BATCH_ATTEMPTS {
        b := b.(status := Failed, completedAt := Some(now), failed := b.total);
        b := b.(completed := 0);
        batches := batches[id := b];
        return Failed;
      }
      b := b.(status := Validated);
      b := b.(completed := 0, failed := 0);
      batches := batches[id := b];
      return Validated;
    }

    /** The validated batches ordered by age; which of two equally old ones comes first is open. */
    method ListValidated() returns (listing: seq<string>)
      ensures IsListing(Snapshot(), listing)
    {
      var rest := set id | id in batches && batches[id].status == Validated;
      listing := [];
      while rest != {}
        invariant rest <= batches.Keys
        invariant forall id :: (id in listing || id in rest) <==> id in batches && batches[id].status == Validated
        invariant forall i | 0 <= i < |listing| :: listing[i] !in rest
        invariant forall i, j | 0 <= i < j < |listing| :: listing[i] != listing[j]
        invariant forall i, j | 0 <= i < j < |listing| :: batches[listing[i]].createdAt <= batches[listing[j]].createdAt
        invariant forall i, id | 0 <= i < |listing| && id in rest :: batches[listing[i]].createdAt <= batches[id].createdAt
        decreases rest
      {
        SomeOldest(rest, batches);
        var next :| next in rest && forall id | id in rest :: batches[next].createdAt <= batches[id].createdAt;
        listing := listing + [next];
        rest := rest - {next};
      }
    }

    /** Hands a listed batch to a worker under the name the scheduler resolves. */
    method HandOut(org: string, worker: string, id: string, now: int) returns (reply: Reply)
      requires OrgWorker(Snapshot(), org, worker) && workers[worker].status != Draining
      requires id in batches && batches[id].status == Validated
      modifies this`batches, this`assignments
      ensures (Snapshot(), reply) == Poll(old(Snapshot()), org, worker, Some(id), now)
      ensures Snapshot() == PolledJobs.Given(old(Snapshot()), id, worker, org, now) && reply.Dispatched? && reply.batch == id
      ensures forall e | PolledJobs.Selects(registry, old(batches)[id].model, e) ::
                (exists k: nat :: Eligibility.IsFirstHost(workers[worker].host, e, k)) ==>
                  PolledJobs.IsNameFor(workers[worker].host, e, reply.model)
    {
      var b := batches[id];
      batches := batches[id := b.(status := InProgress)];
      assignments := assignments[id := Assignment(worker, org, workers[worker].hostname, now)];
      var entry := SelectableEntry(registry, b.model);
      var name := b.model;
      if entry.Some? {
        name := ResolveRuntimeModelId(entry.value, AdvertisedModels(workers[worker].host));
      }
      forall e | PolledJobs.Selects(registry, b.model, e) && exists k: nat :: Eligibility.IsFirstHost(workers[worker].host, e, k)
        ensures PolledJobs.IsNameFor(workers[worker].host, e, name)
      {
        PolledJobs.ResolvedNameMeans(workers[worker].host, e);
      }
      return Dispatched(id, name);
    }

    method PollJob(org: string, worker: string, open: bool, now: int)
      returns (reply: Reply, ghost listing: seq<string>, ghost pick: Option<string>)
      modifies this`batches, this`assignments
      ensures Legal(old(Snapshot()), PollEvent(org, worker, open, listing, pick, now))
      ensures (Snapshot(), reply) == Step(old(Snapshot()), PollEvent(org, worker, open, listing, pick, now))
      ensures PolledJobs.IsAnswer(old(Snapshot()), org, worker, open, now, Snapshot(), reply)
      ensures LifecycleSafety.Inv(old(Snapshot())) ==> LifecycleSafety.Inv(Snapshot())
    {
      listing, pick := [], None;
      if worker !in workers || workers[worker].org != org {
        return Reply.Refused, listing, pick;
      }
      if workers[worker].status == Draining {
        return NoJob, listing, pick;
      }
      var available := ListValidated();
      listing := available;
      var best: Option<nat> := FindBestBatch(registry, workers[worker].host, open, Jobs(Snapshot(), available));
      if best.None? {
        PolledJobs.PollsAreAnswered(Snapshot(), org, worker, open, listing, None, now);
        return NoJob, listing, pick;
      }
      var id := available[best.value];
      pick := Some(id);
      assert IsPick(Snapshot(), workers[worker].host, open, listing, pick);
      StepIsKept(Snapshot(), PollEvent(org, worker, open, listing, pick, now));
      PolledJobs.PollsAreAnswered(Snapshot(), org, worker, open, listing, pick, now);
      reply := HandOut(org, worker, id, now);
    }

    method ReportProgress(org: string, worker: string, id: string, completed: int, failed: int) returns (reply: Reply)
      modifies this`batches
      ensures (Snapshot(), reply) == Step(old(Snapshot()), ProgressEvent(org, worker, id, completed, failed))
      ensures LifecycleSafety.Inv(old(Snapshot())) ==> LifecycleSafety.Inv(Snapshot())
    {
      StepIsKept(Snapshot(), ProgressEvent(org, worker, id, completed, failed));
      if !OrgWorker(Snapshot(), org, worker) || !AssignedTo(Snapshot(), id, worker) {
        return Reply.Refused;
      }
      var b := batches[id];
      b := b.(completed := MaxInt(b.completed, completed));
      b := b.(failed := MaxInt(b.failed, failed));
      batches := batches[id := b];
      return Ok;
    }

    method UploadResults(org: string, worker: string, id: string, file: string, completed: Option<int>, failed: Option<int>, now: int)
      returns (reply: Reply)
      requires file !in fileIds
      modifies this`batches, this`fileIds
      ensures Legal(old(Snapshot()), UploadEvent(org, worker, id, file, completed, failed, now))
      ensures (Snapshot(), reply) == Step(old(Snapshot()), UploadEvent(org, worker, id, file, completed, failed, now))
      ensures LifecycleSafety.Inv(old(Snapshot())) ==> LifecycleSafety.Inv(Snapshot())
    {
      StepIsKept(Snapshot(), UploadEvent(org, worker, id, file, completed, failed, now));
      if !OrgWorker(Snapshot(), org, worker) || !AssignedTo(Snapshot(), id, worker) {
        return Reply.Refused;
      }
      var b := batches[id];
      if b.status == Completed {
        return if b.outputFile.Some? then Uploaded(b.outputFile.value) else Ok;
      }
      if !Allowed(b.status, Completed) {
        return Reply.Refused;
      }
      fileIds := fileIds + {file};
      b := b.(outputFile := Some(file), status := Completed);
      b := b.(completedAt := Some(now), usagePending := true);
      if completed.Some? {
        b := b.(completed := completed.value);
      }
      if failed.Some? {
        b := b.(failed := failed.value);
      }
      batches := batches[id := b];
      return Uploaded(file);
    }

    method HandleFailureReport(org: string, worker: string, id: string, error: string, now: int) returns (reply: Reply)
      modifies this`batches, this`assignments
      ensures (Snapshot(), reply) == Step(old(Snapshot()), FailureEvent(org, worker, id, error, now))
      ensures LifecycleSafety.Inv(old(Snapshot())) ==> LifecycleSafety.Inv(Snapshot())
    {
      StepIsKept(Snapshot(), FailureEvent(org, worker, id, error, now));
      if !OrgWorker(Snapshot(), org, worker) || !AssignedTo(Snapshot(), id, worker) {
        return Reply.Refused;
      }
      var target := if batches[id].attempts + 1 >= MAX_BATCH_ATTEMPTS then Failed else Validated;
      if !Allowed(batches[id].status, target) {
        return Reply.Refused;
      }
      var outcome := RequeueOrFailBatch(id, error, now);
      return Ok;
    }

    method RegisterWorker(org: string, hostname: string, newId: string, host: Host, now: int) returns (worker: string, ghost known: Option<string>)
      requires newId !in workerIds
      modifies this`workers, this`workerIds
      ensures Legal(old(Snapshot()), RegisterEvent(org, hostname, known, newId, host, now))
      ensures Snapshot() == Step(old(Snapshot()), RegisterEvent(org, hostname, known, newId, host, now)).0
      ensures OrgWorker(Snapshot(), org, worker) && workers[worker].status == Online && workers[worker].lastHeartbeat == now
      ensures LifecycleSafety.Inv(old(Snapshot())) ==> LifecycleSafety.Inv(Snapshot())
    {
      ghost var before := Snapshot();
      if w :| w in workers && workers[w].org == org && workers[w].hostname == hostname {
        StepIsKept(before, RegisterEvent(org, hostname, Some(w), newId, host, now));
        workers := workers[w := workers[w].(status := Online, lastHeartbeat := now, host := host)];
        return w, Some(w);
      }
      StepIsKept(before, RegisterEvent(org, hostname, None, newId, host, now));
      workers := workers[newId := Worker(org, hostname, Online, now, host)];
      workerIds := workerIds + {newId};
      return newId, None;
    }

    method WorkerHeartbeat(org: string, worker: string, host: Host, now: int) returns (reply: Reply)
      modifies this`workers
      ensures (Snapshot(), reply) == Step(old(Snapshot()), HeartbeatEvent(org, worker, host, now))
      ensures LifecycleSafety.Inv(old(Snapshot())) ==> LifecycleSafety.Inv(Snapshot())
    {
      StepIsKept(Snapshot(), HeartbeatEvent(org, worker, host, now));
      if worker !in workers || workers[worker].org != org {
        return Reply.Refused;
      }
      var w := workers[worker];
      if w.status != Draining {
        w := w.(status := Online);
      }
      workers := workers[worker := w.(lastHeartbeat := now, host := host)];
      return Ok;
    }

    method DrainWorker(org: string, worker: string) returns (reply: Reply)
      modifies this`workers
      ensures (Snapshot(), reply) == Step(old(Snapshot()), DrainEvent(org, worker))
      ensures LifecycleSafety.Inv(old(Snapshot())) ==> LifecycleSafety.Inv(Snapshot())
    {
      StepIsKept(Snapshot(), DrainEvent(org, worker));
      if !OrgWorker(Snapshot(), org, worker) || workers[worker].status == Offline {
        return Reply.Refused;
      }
      workers := workers[worker := workers[worker].(status := Draining)];
      return Ok;
    }

    method UndrainWorker(org: string, worker: string) returns (reply: Reply)
      modifies this`workers
      ensures (Snapshot(), reply) == Step(old(Snapshot()), UndrainEvent(org, worker))
      ensures LifecycleSafety.Inv(old(Snapshot())) ==> LifecycleSafety.Inv(Snapshot())
    {
      StepIsKept(Snapshot(), UndrainEvent(org, worker));
      if !OrgWorker(Snapshot(), org, worker) || workers[worker].status != Draining {
        return Reply.Refused;
      }
      workers := workers[worker := workers[worker].(status := Online)];
      return Ok;
    }

    /** Assignment rows are left as they are: they carry no foreign key into the workers. */
    method RemoveWorkerRow(org: string, worker: string) returns (reply: Reply)
      modifies this`workers
      ensures (Snapshot(), reply) == Step(old(Snapshot()), RemoveEvent(org, worker))
      ensures LifecycleSafety.Inv(old(Snapshot())) ==> LifecycleSafety.Inv(Snapshot())
    {
      StepIsKept(Snapshot(), RemoveEvent(org, worker));
      if !OrgWorker(Snapshot(), org, worker) || workers[worker].status != Offline {
        return Reply.Refused;
      }
      workers := workers - {worker};
      return Ok;
    }

    /** `_persist_result`: the verdict of one validation task, written without a status check. */
    method PersistResult(id: string, verdict: Verdict, now: int) returns (valid: bool)
      requires id in validations
      modifies this`batches, this`validations
      ensures Legal(old(Snapshot()), FinishValidationEvent(id, verdict, now))
      ensures Snapshot() == Step(old(Snapshot()), FinishValidationEvent(id, verdict, now)).0
      ensures valid ==> id in batches && batches[id].status == Validated
      ensures LifecycleSafety.Inv(old(Snapshot())) ==> LifecycleSafety.Inv(Snapshot())
    {
      StepIsKept(Snapshot(), FinishValidationEvent(id, verdict, now));
      if id !in batches {
        return false;
      }
      var b := batches[id];
      validations := validations - {id};
      match verdict {
        case Accept(total, model, needs) =>
          b := b.(total := total, status := Validated, needs := needs);
          if model != "" {
            b := b.(model := model);
          }
        case Reject(total) => b := b.(total := total, status := Failed, completedAt := Some(now));
        case PersistError => b := b.(status := Failed, completedAt := Some(now));
      }
      batches := batches[id := b];
      return verdict.Accept?;
    }

    /** One assignment of a silent worker: its batch loses an attempt if it is in flight. */
    method ReclaimOne(id: string, worker: string, now: int, ghost s: State, ghost stale: set<string>, ghost held: set<string>)
      returns (requeued: bool)
      requires held <= s.assignments.Keys && id !in held && id in s.assignments && s.assignments[id].worker == worker
      requires Snapshot() == Reclaim(s, stale, held, now)
      modifies this`batches, this`assignments
      ensures requeued == (id in HeldBy(s, {worker}))
      ensures Snapshot() == Reclaim(s, stale, if requeued then held + {id} else held, now)
    {
      ReclaimLeavesOthers(s, stale, held, id, now);
      requeued := id in batches && batches[id].status == InProgress;
      if requeued {
        ReclaimOneMore(s, stale, held, id, now);
        var outcome := RequeueOrFailBatch(id, SweepError(worker), now);
      }
    }

    /** The loop body: one more of the worker's assignments is dealt with. */
    method ReclaimNext(id: string, worker: string, now: int, ghost s: State, ghost stale: set<string>,
                       ghost before: set<string>, ghost target: set<string>, ghost mine: set<string>)
      returns (one: nat)
      requires target == HeldBy(s, {worker}) && before + (target - mine) <= s.assignments.Keys
      requires id in mine && id !in before && id in s.assignments && s.assignments[id].worker == worker
      requires Snapshot() == Reclaim(s, stale, before + (target - mine), now)
      modifies this`batches, this`assignments
      ensures before + (target - (mine - {id})) <= s.assignments.Keys
      ensures Snapshot() == Reclaim(s, stale, before + (target - (mine - {id})), now)
      ensures |target - (mine - {id})| == |target - mine| + one
    {
      TakeOne(before, target, mine, id);
      var requeued := ReclaimOne(id, worker, now, s, stale, before + (target - mine));
      one := if requeued then 1 else 0;
    }

    /** The loop over the worker's assignments. */
    method ReclaimEach(held: set<string>, worker: string, now: int, ghost s: State, ghost stale: set<string>, ghost before: set<string>)
      returns (requeued: nat)
      requires before <= s.assignments.Keys && HeldBy(s, {worker}) <= held
      requires forall id | id in held :: id !in before && id in s.assignments && s.assignments[id].worker == worker
      requires Snapshot() == Reclaim(s, stale, before, now)
      modifies this`batches, this`assignments
      ensures before + HeldBy(s, {worker}) <= s.assignments.Keys
      ensures Snapshot() == Reclaim(s, stale, before + HeldBy(s, {worker}), now)
      ensures requeued == |HeldBy(s, {worker})|
    {
      requeued := 0;
      var mine := held;
      ghost var target := HeldBy(s, {worker});
      assert target - mine == {} && before + {} == before;
      while mine != {}
        invariant mine <= held
        invariant Snapshot() == Reclaim(s, stale, before + (target - mine), now)
        invariant requeued == |target - mine|
        decreases mine
      {
        var id :| id in mine;
        var one := ReclaimNext(id, worker, now, s, stale, before, target, mine);
        mine := mine - {id};
        requeued := requeued + one;
      }
      assert target - {} == target;
    }

    /** The batches one silent worker held, requeued or failed one by one. */
    method ReclaimFrom(worker: string, now: int, ghost s: State, ghost stale: set<string>, ghost before: set<string>)
      returns (requeued: nat)
      requires before <= s.assignments.Keys && before !! HeldBy(s, {worker})
      requires Snapshot() == Reclaim(s, stale, before, now)
      modifies this`batches, this`assignments
      ensures before + HeldBy(s, {worker}) <= s.assignments.Keys
      ensures Snapshot() == Reclaim(s, stale, before + HeldBy(s, {worker}), now)
      ensures requeued == |HeldBy(s, {worker})|
    {
      var mine := set id | id in assignments && assignments[id].worker == worker;
      MineCoversTarget(s, stale, before, worker, now, assignments, mine);
      requeued := ReclaimEach(mine, worker, now, s, stale, before);
    }

    /** One silent worker: offline, and its batches reclaimed. */
    method TakeOffline(worker: string, now: int, ghost s: State, ghost stale: set<string>, ghost todo: set<string>)
      returns (requeued: nat)
      requires worker in todo && todo <= stale && worker in s.workers
      requires Snapshot() == Reclaim(s, stale - todo, HeldBy(s, stale - todo), now)
      modifies this`workers, this`batches, this`assignments
      ensures Snapshot() == Reclaim(s, stale - (todo - {worker}), HeldBy(s, stale - (todo - {worker})), now)
      ensures |HeldBy(s, stale - (todo - {worker}))| == |HeldBy(s, stale - todo)| + requeued
    {
      SweepOne(s, stale, todo, worker);
      ReclaimOneMoreWorker(s, stale - todo, HeldBy(s, stale - todo), worker, now);
      workers := workers[worker := workers[worker].(status := Offline)];
      requeued := ReclaimFrom(worker, now, s, stale - todo + {worker}, HeldBy(s, stale - todo));
    }

    /** The loop over the silent workers. */
    method ReclaimAll(stale: set<string>, now: int) returns (requeued: nat)
      requires stale == StaleWorkers(Snapshot(), now)
      modifies this`workers, this`batches, this`assignments
      ensures Snapshot() == Sweep(old(Snapshot()), now)
      ensures requeued == |HeldBy(old(Snapshot()), stale)|
    {
      ghost var s := Snapshot();
      requeued := 0;
      var todo := stale;
      ReclaimNothing(s, now);
      assert stale - todo == {} && HeldBy(s, {}) == {};
      while todo != {}
        invariant todo <= stale
        invariant Snapshot() == Reclaim(s, stale - todo, HeldBy(s, stale - todo), now)
        invariant requeued == |HeldBy(s, stale - todo)|
        decreases todo
      {
        var w :| w in todo;
        var n := TakeOffline(w, now, s, stale, todo);
        requeued := requeued + n;
        todo := todo - {w};
      }
      assert stale - {} == stale;
    }

    method SweepStaleWorkers(now: int) returns (offline: nat, requeued: nat)
      modifies this`workers, this`batches, this`assignments
      ensures Snapshot() == Sweep(old(Snapshot()), now)
      ensures offline == |StaleWorkers(old(Snapshot()), now)|
      ensures requeued == |HeldBy(old(Snapshot()), StaleWorkers(old(Snapshot()), now))|
      ensures LifecycleSafety.Inv(old(Snapshot())) ==> LifecycleSafety.Inv(Snapshot())
    {
      ghost var before := Snapshot();
      var stale := set w | w in workers && IsStale(workers[w], now);
      offline := |stale|;
      assert stale == StaleWorkers(before, now);
      requeued := ReclaimAll(stale, now);
      SweepIsKept(before, Snapshot(), now);
    }
  }
}
