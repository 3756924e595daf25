/**
 What a poll is answered with (backend/routers/workers.py, backend/scheduler.py): which batch,
 under which name, and what the tables hold afterwards, from the tables alone.
 */
module PolledJobs {
  import opened Options
  import opened KeyedRows
  import opened Catalogue
  import opened Scheduler
  import opened Lifecycle
  import opened Eligibility
  import opened DispatchedNames

  // ---- The name ----

  predicate IsPlain(name: string) {
    name != "" && '/' !in name
  }

  /** Profiled under this name with bytes that may be the entry's, or else certainly the pinned bytes. */
  ghost predicate Calls(e: Entry, name: string, digest: string, profiled: bool) {
    if profiled then Answers(e, name) && MayBe(e.digest, digest) else Is(e.digest, digest)
  }

  /** Row `i` of runtime `k` is on offer and names the entry so; `plain` asks for a name without a '/'. */
  ghost predicate Offers(rts: seq<Runtime>, e: Entry, k: int, i: int, profiled: bool, plain: bool) {
    && 0 <= k < |rts| && rts[k].status == Ready
    && 0 <= i < |rts[k].models| && rts[k].models[i].1.status == Available
    && Calls(e, rts[k].models[i].0, rts[k].models[i].1.digest, profiled) && (plain ==> IsPlain(rts[k].models[i].0))
  }

  ghost predicate AnyOffers(rts: seq<Runtime>, e: Entry, profiled: bool, plain: bool) {
    exists k, i :: Offers(rts, e, k, i, profiled, plain)
  }

  /** The name of the first such row. */
  ghost predicate IsFirstOffer(rts: seq<Runtime>, e: Entry, profiled: bool, plain: bool, name: string) {
    exists k, i :: Offers(rts, e, k, i, profiled, plain) && name == rts[k].models[i].0
      && forall m, j | Offers(rts, e, m, j, profiled, plain) :: k < m || (k == m && i <= j)
  }

  /** A profiled name if any row has one, else one of the pinned bytes; without a '/' if there is one; the first of these. */
  ghost predicate IsNameFor(h: Host, e: Entry, name: string) {
    var profiled := AnyOffers(h.runtimes, e, true, false);
    IsFirstOffer(h.runtimes, e, profiled, AnyOffers(h.runtimes, e, profiled, true), name)
  }

  function Wanted(e: Entry, profiled: bool, plain: bool): Artifact -> bool {
    (a: Artifact) => IsWanted(e, profiled, plain, a)
  }

  predicate IsWanted(e: Entry, profiled: bool, plain: bool, a: Artifact) {
    && (if profiled then a.0 in ServingTargets(e) && Compatible(e.digest, a.1) else SameBytes(e.digest, a.1))
    && (plain ==> IsBareName(a.0))
  }

  lemma CallsMean(e: Entry, profiled: bool, plain: bool, a: Artifact)
    ensures Wanted(e, profiled, plain)(a) <==> Calls(e, a.0, a.1, profiled) && (plain ==> IsPlain(a.0))
  {
    TargetsAreAnswers(e, a.0);
  }

  /** The first name kept of one runtime's rows. */
  lemma {:induction false} FirstOfRows(models: Rows<string, ModelRow>, keep: Artifact -> bool) returns (i: nat)
    ensures var names := Kept(RuntimeArtifacts(models, false), keep);
            && (names == [] <==> forall j | 0 <= j < |models| :: !IsKept(models[j], keep))
            && (names != [] ==> i < |models| && IsKept(models[i], keep) && names[0] == models[i].0
                                && forall j | 0 <= j < i :: !IsKept(models[j], keep))
  {
    i := 0;
    if models != [] {
      var later := FirstOfRows(models[1..], keep);
      if models[0].1.status == Available {
        var a := (models[0].0, models[0].1.digest);
        assert ([a] + RuntimeArtifacts(models[1..], false))[1..] == RuntimeArtifacts(models[1..], false);
      }
      i := if IsKept(models[0], keep) then 0 else later + 1;
    }
  }

  predicate IsKept(m: (string, ModelRow), keep: Artifact -> bool) {
    m.1.status == Available && keep((m.0, m.1.digest))
  }

  predicate IsKeptAt(rts: seq<Runtime>, keep: Artifact -> bool, k: int, i: int) {
    0 <= k < |rts| && rts[k].status == Ready && 0 <= i < |rts[k].models| && IsKept(rts[k].models[i], keep)
  }

  ghost predicate IsFirstKept(rts: seq<Runtime>, keep: Artifact -> bool, k: int, i: int) {
    IsKeptAt(rts, keep, k, i) && forall m, j | IsKeptAt(rts, keep, m, j) :: k < m || (k == m && i <= j)
  }

  lemma {:induction false} FirstOfRuntimes(rts: seq<Runtime>, keep: Artifact -> bool) returns (k: int, i: int)
    ensures var names := Kept(Artifacts(rts, false), keep);
            && (names == [] ==> forall m, j :: !IsKeptAt(rts, keep, m, j))
            && (names != [] ==> IsFirstKept(rts, keep, k, i) && names[0] == rts[k].models[i].0)
  {
    k, i := 0, 0;
    if rts != [] {
      var own, rest := RuntimeArtifacts(rts[0].models, false), Artifacts(rts[1..], false);
      var first := FirstOfRows(rts[0].models, keep);
      if rts[0].status == Ready && Kept(own, keep) != [] {
        KeptConcat(own, rest, keep);
        k, i := 0, first;
        assert IsKeptAt(rts, keep, 0, first);
      } else {
        var m, j := FirstOfRuntimes(rts[1..], keep);
        if rts[0].status == Ready {
          KeptConcat(own, rest, keep);
        }
        FirstMoves(rts, keep, m, j);
        k, i := m + 1, j;
      }
    }
  }

  lemma FirstMoves(rts: seq<Runtime>, keep: Artifact -> bool, m: int, j: int)
    requires rts != [] && forall x :: !IsKeptAt(rts, keep, 0, x)
    ensures IsFirstKept(rts[1..], keep, m, j) ==> IsFirstKept(rts, keep, m + 1, j)
    ensures (forall n, x :: !IsKeptAt(rts[1..], keep, n, x)) ==> forall n, x :: !IsKeptAt(rts, keep, n, x)
  {
    assert forall n, x | n > 0 :: IsKeptAt(rts, keep, n, x) <==> IsKeptAt(rts[1..], keep, n - 1, x);
  }

  lemma KeptAreOffers(rts: seq<Runtime>, e: Entry, profiled: bool, plain: bool)
    ensures forall k, i :: IsKeptAt(rts, Wanted(e, profiled, plain), k, i) <==> Offers(rts, e, k, i, profiled, plain)
  {
    forall a: Artifact ensures Wanted(e, profiled, plain)(a) <==> Calls(e, a.0, a.1, profiled) && (plain ==> IsPlain(a.0)) {
      CallsMean(e, profiled, plain, a);
    }
  }

  lemma FirstOfferMeans(rts: seq<Runtime>, e: Entry, profiled: bool, plain: bool)
    ensures var names := Kept(Artifacts(rts, false), Wanted(e, profiled, plain));
            (names != [] <==> AnyOffers(rts, e, profiled, plain)) && (names != [] ==> IsFirstOffer(rts, e, profiled, plain, names[0]))
  {
    KeptAreOffers(rts, e, profiled, plain);
    var k, i := FirstOfRuntimes(rts, Wanted(e, profiled, plain));
    if Kept(Artifacts(rts, false), Wanted(e, profiled, plain)) != [] {
      assert Offers(rts, e, k, i, profiled, plain);
    }
  }

  lemma {:induction false} SameKept(artifacts: seq<Artifact>, a: Artifact -> bool, b: Artifact -> bool)
    requires forall x :: a(x) == b(x)
    ensures Kept(artifacts, a) == Kept(artifacts, b)
  {
    if artifacts != [] {
      SameKept(artifacts[1..], a, b);
    }
  }

  function OnlyBare(names: seq<string>): seq<string> {
    if names == [] then [] else (if IsBareName(names[0]) then [names[0]] else []) + OnlyBare(names[1..])
  }

  lemma {:induction false} KeptBare(artifacts: seq<Artifact>, e: Entry, profiled: bool)
    ensures Kept(artifacts, Wanted(e, profiled, true)) == OnlyBare(Kept(artifacts, Wanted(e, profiled, false)))
  {
    if artifacts != [] {
      KeptBare(artifacts[1..], e, profiled);
      var names := Kept(artifacts[1..], Wanted(e, profiled, false));
      assert ([artifacts[0].0] + names)[1..] == names && [] + names == names;
    }
  }

  lemma {:induction false} OnlyBareAreBare(names: seq<string>)
    ensures forall n | n in OnlyBare(names) :: IsBareName(n)
  {
    if names != [] {
      OnlyBareAreBare(names[1..]);
    }
  }

  /** The preferred name is the first plain one, else the first. */
  lemma {:induction false} PreferredIsFirst(names: seq<string>)
    requires names != []
    ensures PreferBare(names) == if OnlyBare(names) != [] then OnlyBare(names)[0] else names[0]
  {
    if !IsBareName(names[0]) && |names| > 1 {
      PreferredIsFirst(names[1..]);
      OnlyBareAreBare(names[1..]);
      if OnlyBare(names[1..]) == [] {
        NoneBare(names[1..]);
      }
    }
  }

  lemma {:induction false} NoneBare(names: seq<string>)
    requires OnlyBare(names) == []
    ensures forall n | n in names :: !IsBareName(n)
  {
    if names != [] {
      NoneBare(names[1..]);
    }
  }

  lemma PreferredOffer(h: Host, e: Entry, profiled: bool)
    requires Kept(AdvertisedModels(h), Wanted(e, profiled, false)) != []
    ensures AnyOffers(h.runtimes, e, profiled, false)
    ensures IsFirstOffer(h.runtimes, e, profiled, AnyOffers(h.runtimes, e, profiled, true),
                         PreferBare(Kept(AdvertisedModels(h), Wanted(e, profiled, false))))
  {
    FirstOfferMeans(h.runtimes, e, profiled, false);
    FirstOfferMeans(h.runtimes, e, profiled, true);
    KeptBare(AdvertisedModels(h), e, profiled);
    PreferredIsFirst(Kept(AdvertisedModels(h), Wanted(e, profiled, false)));
    if !AnyOffers(h.runtimes, e, profiled, true) {
      var name := Kept(AdvertisedModels(h), Wanted(e, profiled, false))[0];
      assert IsFirstOffer(h.runtimes, e, profiled, false, name);
    }
  }

  lemma NamesAreWanted(h: Host, e: Entry)
    ensures ProfiledNames(AdvertisedModels(h), e) == Kept(AdvertisedModels(h), Wanted(e, true, false))
    ensures ExactNames(AdvertisedModels(h), e) == Kept(AdvertisedModels(h), Wanted(e, false, false))
  {
    NamesAreKept(AdvertisedModels(h), e);
    SameKept(AdvertisedModels(h), IsProfiled(e), Wanted(e, true, false));
    SameKept(AdvertisedModels(h), IsExact(e), Wanted(e, false, false));
  }

  lemma HostingWorkersOfferNames(h: Host, e: Entry, k: nat)
    requires IsFirstHost(h, e, k)
    ensures AnyOffers(h.runtimes, e, true, false) || AnyOffers(h.runtimes, e, false, false)
  {
    var rt := h.runtimes[k];
    var name, digest :| Lists(rt, name, digest, false) && IsOf(name, digest, e);
    var m :| m in rt.models && m.0 == name && m.1.digest == digest && m.1.status == Available;
    var i :| 0 <= i < |rt.models| && rt.models[i] == m;
    assert Offers(h.runtimes, e, k, i, Answers(e, name) && MayBe(e.digest, digest), false);
  }

  lemma ResolvedNameMeans(h: Host, e: Entry)
    requires exists k: nat :: IsFirstHost(h, e, k)
    ensures IsNameFor(h, e, ResolveName(e, AdvertisedModels(h)))
  {
    var k: nat :| IsFirstHost(h, e, k);
    HostingWorkersOfferNames(h, e, k);
    NamesAreWanted(h, e);
    FirstOfferMeans(h.runtimes, e, true, false);
    FirstOfferMeans(h.runtimes, e, false, false);
    PreferredOffer(h, e, AnyOffers(h.runtimes, e, true, false));
  }

  // ---- The batch ----

  /** The catalogue offers the entry under this id. */
  ghost predicate Selects(reg: Registry, model: string, e: Entry) {
    model != "" && Find(reg.entries, model) == Some(e) && e.enabled && (e.status == Active || e.status == Unverified)
  }

  ghost predicate InMemory(h: Host, e: Entry) {
    exists rt, name, digest :: rt in h.runtimes && Lists(rt, name, digest, true) && IsOf(name, digest, e)
  }

  /** The batch waits, and the worker may run it; `warm` asks for the model in memory. */
  ghost predicate MayTake(s: State, h: Host, open: bool, id: string, warm: bool) {
    && id in s.batches && s.batches[id].status == Validated
    && exists e :: Selects(s.registry, s.batches[id].model, e)
         && MayRun(e, h, s.batches[id].needs, Some(s.batches[id].total), open) && (warm ==> InMemory(h, e))
  }

  /** Of the batches the worker may take, the oldest in memory, else the oldest. */
  ghost predicate IsNext(s: State, h: Host, open: bool, id: string) {
    var warm := exists j :: MayTake(s, h, open, j, true);
    MayTake(s, h, open, id, warm) && forall j | MayTake(s, h, open, j, warm) :: s.batches[id].createdAt <= s.batches[j].createdAt
  }

  lemma LoadedMeans(h: Host, e: Entry)
    ensures Hosts(LoadedModels(h), e) <==> InMemory(h, e)
  {
    HostsMeansSomeArtifact(LoadedModels(h), e);
    forall a: Artifact
      ensures IsArtifactOf(a, e) <==> IsOf(a.0, a.1, e)
      ensures a in LoadedModels(h) <==> exists rt | rt in h.runtimes :: Lists(rt, a.0, a.1, true)
    {
      ArtifactsOf(a, e);
      ArtifactsListed(h.runtimes, a, true);
    }
    if rt, name, digest :| rt in h.runtimes && Lists(rt, name, digest, true) && IsOf(name, digest, e) {
      assert (name, digest) in LoadedModels(h) && IsArtifactOf((name, digest), e);
    }
  }

  lemma SelectableMeans(reg: Registry, model: string, e: Entry)
    ensures SelectableEntry(reg, model) == Some(e) <==> Selects(reg, model, e)
  {
  }

  lemma ServableMeans(s: State, h: Host, open: bool, id: string)
    requires id in s.batches && s.batches[id].status == Validated
    ensures Servable(s.registry, h, open, JobOf(s.batches[id])) <==> MayTake(s, h, open, id, false)
    ensures ServableFromMemory(s.registry, h, open, JobOf(s.batches[id])) <==> MayTake(s, h, open, id, true)
  {
    var b := s.batches[id];
    var entry := SelectableEntry(s.registry, b.model);
    forall e ensures entry == Some(e) <==> Selects(s.registry, b.model, e) {
      SelectableMeans(s.registry, b.model, e);
    }
    if entry.Some? {
      CanServeMeans(entry.value, h, b.needs, Some(b.total), open);
      LoadedMeans(h, entry.value);
    }
  }

  /** The scheduler's own test. */
  predicate Takes(reg: Registry, h: Host, open: bool, job: Queued, warm: bool) {
    if warm then ServableFromMemory(reg, h, open, job) else Servable(reg, h, open, job)
  }

  lemma ListedJob(s: State, h: Host, open: bool, listing: seq<string>, i: nat, warm: bool)
    requires IsListing(s, listing) && i < |listing|
    ensures Takes(s.registry, h, open, Jobs(s, listing)[i], warm) <==> MayTake(s, h, open, listing[i], warm)
  {
    assert listing[i] in listing;
    ServableMeans(s, h, open, listing[i]);
  }

  lemma PlaceOf(s: State, listing: seq<string>, id: string) returns (n: nat)
    requires IsListing(s, listing) && id in s.batches && s.batches[id].status == Validated
    ensures n < |listing| && listing[n] == id
  {
    assert id in listing;
    n :| 0 <= n < |listing| && listing[n] == id;
  }

  /** The listing misses no batch the worker may take. */
  lemma SomeJobMeans(s: State, h: Host, open: bool, listing: seq<string>, warm: bool)
    requires IsListing(s, listing)
    ensures (exists j | j in Jobs(s, listing) :: Takes(s.registry, h, open, j, warm)) <==> exists id :: MayTake(s, h, open, id, warm)
  {
    var jobs := Jobs(s, listing);
    if j :| j in jobs && Takes(s.registry, h, open, j, warm) {
      var n :| 0 <= n < |jobs| && jobs[n] == j;
      ListedJob(s, h, open, listing, n, warm);
    }
    if id :| MayTake(s, h, open, id, warm) {
      var n := PlaceOf(s, listing, id);
      ListedJob(s, h, open, listing, n, warm);
      assert jobs[n] in jobs;
    }
  }

  /** The first batch of the listing that may be taken is the oldest one. */
  lemma FirstIsOldest(s: State, h: Host, open: bool, listing: seq<string>, i: nat, warm: bool)
    requires IsListing(s, listing) && i < |listing|
    requires forall n | 0 <= n < i :: !MayTake(s, h, open, listing[n], warm)
    ensures forall j | MayTake(s, h, open, j, warm) :: s.batches[listing[i]].createdAt <= s.batches[j].createdAt
  {
    forall j | MayTake(s, h, open, j, warm) ensures s.batches[listing[i]].createdAt <= s.batches[j].createdAt {
      var n := PlaceOf(s, listing, j);
    }
  }

  lemma BestIsFirst(reg: Registry, h: Host, open: bool, jobs: seq<Queued>, i: nat)
    requires IsBest(reg, h, open, jobs, i)
    ensures var warm := exists j | j in jobs :: Takes(reg, h, open, j, true);
            Takes(reg, h, open, jobs[i], warm) && forall n | 0 <= n < i :: !Takes(reg, h, open, jobs[n], warm)
  {
  }

  lemma PickMeans(s: State, h: Host, open: bool, listing: seq<string>, i: nat)
    requires IsListing(s, listing) && IsBest(s.registry, h, open, Jobs(s, listing), i)
    ensures listing[i] in s.batches && IsNext(s, h, open, listing[i])
  {
    var warm := exists j :: MayTake(s, h, open, j, true);
    SomeJobMeans(s, h, open, listing, true);
    BestIsFirst(s.registry, h, open, Jobs(s, listing), i);
    forall n | 0 <= n <= i
      ensures Takes(s.registry, h, open, Jobs(s, listing)[n], warm) <==> MayTake(s, h, open, listing[n], warm)
    {
      ListedJob(s, h, open, listing, n, warm);
    }
    FirstIsOldest(s, h, open, listing, i, warm);
  }

  // ---- The answer ----

  /** The batch goes to the worker: running, assigned to it, and nothing else moves. */
  function Given(s: State, id: string, worker: string, org: string, now: int): State
    requires id in s.batches && worker in s.workers
  {
    s.(batches := s.batches[id := s.batches[id].(status := InProgress)],
       assignments := s.assignments[id := Assignment(worker, org, s.workers[worker].hostname, now)])
  }

  ghost predicate IsAnswer(s: State, org: string, worker: string, open: bool, now: int, t: State, reply: Reply) {
    if worker !in s.workers || s.workers[worker].org != org then reply == Reply.Refused && t == s
    else
      var h := s.workers[worker].host;
      if s.workers[worker].status == Draining || forall id :: !MayTake(s, h, open, id, false) then reply == NoJob && t == s
      else
        && reply.Dispatched? && reply.batch in s.batches && IsNext(s, h, open, reply.batch)
        && t == Given(s, reply.batch, worker, org, now)
        && exists e :: Selects(s.registry, s.batches[reply.batch].model, e) && IsNameFor(h, e, reply.model)
  }

  lemma NextIsNamed(s: State, worker: string, open: bool, id: string)
    requires worker in s.workers && id in s.batches && IsNext(s, s.workers[worker].host, open, id)
    ensures exists e :: Selects(s.registry, s.batches[id].model, e)
              && IsNameFor(s.workers[worker].host, e, JobName(s, s.batches[id], s.workers[worker]))
  {
    var h, b := s.workers[worker].host, s.batches[id];
    var e :| Selects(s.registry, b.model, e) && MayRun(e, h, b.needs, Some(b.total), open);
    SelectableMeans(s.registry, b.model, e);
    ResolvedNameMeans(h, e);
  }

  lemma PickIsAnswered(s: State, org: string, worker: string, open: bool, listing: seq<string>, pick: string, now: int)
    requires Legal(s, PollEvent(org, worker, open, listing, Some(pick), now)) && OrgWorker(s, org, worker) && s.workers[worker].status != Draining
    ensures pick in s.batches && IsNext(s, s.workers[worker].host, open, pick)
    ensures Poll(s, org, worker, Some(pick), now) == (Given(s, pick, worker, org, now), Dispatched(pick, JobName(s, s.batches[pick], s.workers[worker])))
  {
    var h := s.workers[worker].host;
    var i :| 0 <= i < |listing| && listing[i] == pick && IsBest(s.registry, h, open, Jobs(s, listing), i);
    PickMeans(s, h, open, listing, i);
  }

  lemma ColdCounts(s: State, h: Host, open: bool, id: string)
    requires IsNext(s, h, open, id)
    ensures MayTake(s, h, open, id, false)
  {
  }

  /**
   Every legal poll is refused to strangers; else a draining worker and one that may take nothing get no
   job; else the worker gets the oldest batch it may take, those in memory before all others, under
   a name it serves for that batch's entry.
   */
  lemma PollsAreAnswered(s: State, org: string, worker: string, open: bool, listing: seq<string>, pick: Option<string>, now: int)
    requires Legal(s, PollEvent(org, worker, open, listing, pick, now))
    ensures var (t, reply) := Step(s, PollEvent(org, worker, open, listing, pick, now)); IsAnswer(s, org, worker, open, now, t, reply)
  {
    if OrgWorker(s, org, worker) && s.workers[worker].status != Draining {
      var h := s.workers[worker].host;
      if pick.None? {
        SomeJobMeans(s, h, open, listing, false);
      } else {
        PickIsAnswered(s, org, worker, open, listing, pick.value, now);
        ColdCounts(s, h, open, pick.value);
        NextIsNamed(s, worker, open, pick.value);
      }
    }
  }
}
