/**
 Job-to-worker matching (backend/scheduler.py): which artifact a worker hosts,
 whether it may be given a batch, which batch it is given, and the model name
 the job carries.
 */
module Scheduler {
  import opened Options
  import opened KeyedRows
  import opened Catalogue

  /** The part of a worker the scheduler reads. A GPU of unknown size has size 0. */
  datatype Host = Host(
    runtimes: seq<Runtime>, gpus: seq<real>, vramTotal: Option<real>,
    ramTotal: Option<real>, ramAvailable: Option<real>, maxPrompts: Option<nat>)

  /** A (name, digest) pair as advertised to the matcher. */
  type Artifact = (string, string)

  // ---- Advertised artifacts ----

  function RuntimeArtifacts(models: Rows<string, ModelRow>, loadedOnly: bool): seq<Artifact> {
    if models == [] then []
    else
      var rest := RuntimeArtifacts(models[1..], loadedOnly);
      if models[0].1.Schedulable() && (loadedOnly ==> models[0].1.loaded)
      then [(models[0].0, models[0].1.digest)] + rest
      else rest
  }

  function Artifacts(runtimes: seq<Runtime>, loadedOnly: bool): seq<Artifact> {
    if runtimes == [] then []
    else
      var rest := Artifacts(runtimes[1..], loadedOnly);
      if runtimes[0].Schedulable() then RuntimeArtifacts(runtimes[0].models, loadedOnly) + rest else rest
  }

  function AdvertisedModels(h: Host): seq<Artifact> {
    Artifacts(h.runtimes, false)
  }

  function LoadedModels(h: Host): seq<Artifact> {
    Artifacts(h.runtimes, true)
  }

  /** A schedulable row, on a schedulable runtime, that shows up as `a`. */
  ghost predicate ServedBy(rt: Runtime, a: Artifact) {
    rt.Schedulable() && exists m | m in rt.models :: m.1.Schedulable() && a == (m.0, m.1.digest)
  }

  lemma {:induction false} RuntimeArtifactsAreSchedulable(models: Rows<string, ModelRow>, a: Artifact)
    ensures a in RuntimeArtifacts(models, false) <==> exists m | m in models :: m.1.Schedulable() && a == (m.0, m.1.digest)
  {
    if models != [] {
      RuntimeArtifactsAreSchedulable(models[1..], a);
      assert models == [models[0]] + models[1..];
    }
  }

  lemma {:induction false} ArtifactsAreServed(runtimes: seq<Runtime>, a: Artifact)
    ensures a in Artifacts(runtimes, false) <==> exists rt | rt in runtimes :: ServedBy(rt, a)
  {
    if runtimes != [] {
      ArtifactsAreServed(runtimes[1..], a);
      RuntimeArtifactsAreSchedulable(runtimes[0].models, a);
      assert runtimes == [runtimes[0]] + runtimes[1..];
      assert ServedBy(runtimes[0], a) <==> runtimes[0].Schedulable() && a in RuntimeArtifacts(runtimes[0].models, false);
      if a in Artifacts(runtimes, false) {
        assert ServedBy(runtimes[0], a) || exists rt | rt in runtimes[1..] :: ServedBy(rt, a);
      }
    }
  }

  // ---- Hosting ----

  /** Digest equality is demanded only when both sides carry a digest. */
  predicate Compatible(pin: string, digest: string) {
    Bare(pin) == "" || Bare(digest) == "" || Bare(pin) == Bare(digest)
  }

  predicate SameBytes(pin: string, digest: string) {
    Bare(pin) != "" && Bare(pin) == Bare(digest)
  }

  predicate IsArtifactOf(a: Artifact, e: Entry) {
    if a.0 in ServingTargets(e) then Compatible(e.digest, a.1) else SameBytes(e.digest, a.1)
  }

  predicate Hosts(artifacts: seq<Artifact>, e: Entry) {
    artifacts != [] && (IsArtifactOf(artifacts[0], e) || Hosts(artifacts[1..], e))
  }

  lemma {:induction false} HostsMeansSomeArtifact(artifacts: seq<Artifact>, e: Entry)
    ensures Hosts(artifacts, e) <==> exists a | a in artifacts :: IsArtifactOf(a, e)
  {
    if artifacts != [] {
      HostsMeansSomeArtifact(artifacts[1..], e);
      assert artifacts == [artifacts[0]] + artifacts[1..];
    }
  }

  method ScanHosts(artifacts: seq<Artifact>, e: Entry) returns (hosts: bool)
    ensures hosts == Hosts(artifacts, e)
  {
    var ids, cat := ServingTargets(e), Bare(e.digest);
    for i := 0 to |artifacts|
      invariant Hosts(artifacts, e) == Hosts(artifacts[i..], e)
    {
      var (name, digest) := artifacts[i];
      var wd := Bare(digest);
      assert artifacts[i..][1..] == artifacts[i + 1..];
      if name !in ids {
        if cat != "" && wd != "" && cat == wd {
          return true;
        }
        continue;
      }
      if cat != "" && wd != "" && cat != wd {
        continue;
      }
      return true;
    }
    return false;
  }

  /** For a pinned entry and rows that all carry a hash, the digest alone decides. */
  lemma PinnedHostingIsDigestEquality(artifacts: seq<Artifact>, e: Entry)
    requires Bare(e.digest) != "" && forall a | a in artifacts :: Bare(a.1) != ""
    ensures Hosts(artifacts, e) <==> exists a | a in artifacts :: Bare(a.1) == Bare(e.digest)
  {
    HostsMeansSomeArtifact(artifacts, e);
  }

  /** The position, at or after `i`, of the first runtime that hosts the entry. */
  function FirstHosting(runtimes: seq<Runtime>, e: Entry, i: nat): (k: Option<nat>)
    requires i <= |runtimes|
    ensures k.Some? ==> i <= k.value < |runtimes| && HostsOn(runtimes[k.value], e)
    decreases |runtimes| - i
  {
    if i == |runtimes| then None
    else if HostsOn(runtimes[i], e) then Some(i)
    else FirstHosting(runtimes, e, i + 1)
  }

  function HostingRuntime(runtimes: seq<Runtime>, e: Entry): Option<nat> {
    FirstHosting(runtimes, e, 0)
  }

  lemma {:induction false} FirstHostingIsFirst(runtimes: seq<Runtime>, e: Entry, i: nat)
    requires i <= |runtimes|
    ensures var k := FirstHosting(runtimes, e, i);
            forall j | i <= j < (if k.Some? then k.value else |runtimes|) :: !HostsOn(runtimes[j], e)
    decreases |runtimes| - i
  {
    if i < |runtimes| && !HostsOn(runtimes[i], e) {
      FirstHostingIsFirst(runtimes, e, i + 1);
    }
  }

  predicate HostsOn(rt: Runtime, e: Entry) {
    rt.Schedulable() && Hosts(RuntimeArtifacts(rt.models, false), e)
  }

  method ScanHostingRuntime(h: Host, e: Entry) returns (k: Option<nat>)
    ensures k == HostingRuntime(h.runtimes, e)
  {
    for i := 0 to |h.runtimes|
      invariant HostingRuntime(h.runtimes, e) == FirstHosting(h.runtimes, e, i)
    {
      var hosts := false;
      if h.runtimes[i].Schedulable() {
        hosts := ScanHosts(RuntimeArtifacts(h.runtimes[i].models, false), e);
      }
      if hosts {
        return Some(i);
      }
    }
    return None;
  }

  // ---- Capacity ----

  const RAM_RESERVE_FLOOR_GB := 4.0
  const RAM_RESERVE_FRACTION := 0.2

  function Max(a: real, b: real): real {
    if a >= b then a else b
  }

  /** The biggest card of known size. */
  function LargestGpu(gpus: seq<real>): Option<real> {
    if gpus == [] then None
    else
      var rest := LargestGpu(gpus[1..]);
      if gpus[0] == 0.0 then rest
      else if rest.None? then Some(gpus[0])
      else Some(Max(gpus[0], rest.value))
  }

  function UsableRam(h: Host): real {
    if h.ramAvailable.None? then 0.0
    else
      var total := if h.ramTotal.Some? then h.ramTotal.value else 0.0;
      Max(h.ramAvailable.value - Max(RAM_RESERVE_FLOOR_GB, RAM_RESERVE_FRACTION * total), 0.0)
  }

  predicate FitVramOnly(required: real, h: Host) {
    match LargestGpu(h.gpus)
    case Some(g) => g >= required
    case None => h.vramTotal.Some? && h.vramTotal.value >= required
  }

  predicate FitVramPlusRam(required: real, h: Host) {
    match (LargestGpu(h.gpus), h.vramTotal)
    case (Some(g), _) => g + UsableRam(h) >= required
    case (None, Some(v)) => v + UsableRam(h) >= required
    case (None, None) => false
  }

  predicate Fits(engine: string, required: real, h: Host) {
    if engine == "llamacpp" then FitVramPlusRam(required, h) else FitVramOnly(required, h)
  }

  // ---- Eligibility ----

  predicate RuntimeHas(rt: Runtime, needs: seq<string>) {
    forall c | c in needs :: c in rt.capabilities
  }

  predicate AcceptsSize(h: Host, prompts: Option<nat>) {
    h.maxPrompts.None? || prompts.None? || prompts.value <= h.maxPrompts.value
  }

  /**
   The one definition of eligible, shared by dispatch, pool capacity and the
   submission gates. `open` says the provider's hours allow a start now; a
   caller that ignores hours passes true.
   */
  predicate CanServe(e: Entry, h: Host, needs: seq<string>, prompts: Option<nat>, open: bool) {
    && open
    && AcceptsSize(h, prompts)
    && var k := HostingRuntime(h.runtimes, e);
      && k.Some?
      && RuntimeHas(h.runtimes[k.value], needs)
      && Fits(h.runtimes[k.value].engine, if e.vramGb.Some? then e.vramGb.value else 0.0, h)
  }

  // ---- Choosing a batch ----

  /** What the scheduler reads of a queued batch. */
  datatype Queued = Queued(model: string, needs: seq<string>, prompts: nat)

  predicate Servable(reg: Registry, h: Host, open: bool, job: Queued) {
    match SelectableEntry(reg, job.model)
    case Some(e) => CanServe(e, h, job.needs, Some(job.prompts), open)
    case None => false
  }

  predicate ServableFromMemory(reg: Registry, h: Host, open: bool, job: Queued) {
    Servable(reg, h, open, job) && Hosts(LoadedModels(h), SelectableEntry(reg, job.model).value)
  }

  /** `i` is the batch the scheduler hands out: the oldest already in memory, else the oldest. */
  ghost predicate IsBest(reg: Registry, h: Host, open: bool, jobs: seq<Queued>, i: nat) {
    && i < |jobs|
    && Servable(reg, h, open, jobs[i])
    && if exists j | j in jobs :: ServableFromMemory(reg, h, open, j)
       then ServableFromMemory(reg, h, open, jobs[i]) && forall j | 0 <= j < i :: !ServableFromMemory(reg, h, open, jobs[j])
       else forall j | 0 <= j < i :: !Servable(reg, h, open, jobs[j])
  }

  datatype Tier = NotServable | OnDisk | InMemory

  function TierOf(reg: Registry, h: Host, open: bool, job: Queued): Tier {
    if !Servable(reg, h, open, job) then NotServable
    else if ServableFromMemory(reg, h, open, job) then InMemory
    else OnDisk
  }

  /** `picked` lists positions of `tier` before `n`, the first one first. */
  ghost predicate Collected(tiers: seq<Tier>, n: nat, tier: Tier, picked: seq<nat>)
    requires n <= |tiers|
  {
    && (forall k | 0 <= k < |picked| :: picked[k] < n && tiers[picked[k]] == tier)
    && (forall j | 0 <= j < n && tiers[j] == tier :: picked != [] && picked[0] <= j)
  }

  ghost function Tiers(reg: Registry, h: Host, open: bool, jobs: seq<Queued>): (tiers: seq<Tier>)
    ensures |tiers| == |jobs|
  {
    if jobs == [] then [] else [TierOf(reg, h, open, jobs[0])] + Tiers(reg, h, open, jobs[1..])
  }

  lemma {:induction false} TiersAt(reg: Registry, h: Host, open: bool, jobs: seq<Queued>, i: nat)
    requires i < |jobs|
    ensures Tiers(reg, h, open, jobs)[i] == TierOf(reg, h, open, jobs[i])
  {
    if i > 0 {
      TiersAt(reg, h, open, jobs[1..], i - 1);
    }
  }

  method RateJob(reg: Registry, h: Host, open: bool, loaded: seq<Artifact>, job: Queued) returns (tier: Tier)
    requires loaded == LoadedModels(h)
    ensures tier == TierOf(reg, h, open, job)
  {
    var entry := SelectableEntry(reg, job.model);
    tier := NotServable;
    if entry.Some? && CanServe(entry.value, h, job.needs, Some(job.prompts), open) {
      var resident := ScanHosts(loaded, entry.value);
      tier := if resident then InMemory else OnDisk;
    }
  }

  lemma BestFromTiers(reg: Registry, h: Host, open: bool, jobs: seq<Queued>, loadedMatches: seq<nat>, otherMatches: seq<nat>)
    requires Collected(Tiers(reg, h, open, jobs), |jobs|, InMemory, loadedMatches)
    requires Collected(Tiers(reg, h, open, jobs), |jobs|, OnDisk, otherMatches)
    ensures loadedMatches != [] ==> IsBest(reg, h, open, jobs, loadedMatches[0])
    ensures loadedMatches == [] && otherMatches != [] ==> IsBest(reg, h, open, jobs, otherMatches[0])
    ensures loadedMatches == [] && otherMatches == [] ==> forall j | j in jobs :: !Servable(reg, h, open, j)
  {
    var tiers := Tiers(reg, h, open, jobs);
    forall i | 0 <= i < |jobs| ensures tiers[i] == TierOf(reg, h, open, jobs[i]) {
      TiersAt(reg, h, open, jobs, i);
    }
  }

  /** The positions of the in-memory matches and of the other servable batches, in queue order. */
  method CollectMatches(reg: Registry, h: Host, open: bool, jobs: seq<Queued>) returns (loadedMatches: seq<nat>, otherMatches: seq<nat>)
    ensures Collected(Tiers(reg, h, open, jobs), |jobs|, InMemory, loadedMatches)
    ensures Collected(Tiers(reg, h, open, jobs), |jobs|, OnDisk, otherMatches)
  {
    var loaded := LoadedModels(h);
    loadedMatches, otherMatches := [], [];
    ghost var tiers := Tiers(reg, h, open, jobs);
    for i := 0 to |jobs|
      invariant Collected(tiers, i, InMemory, loadedMatches)
      invariant Collected(tiers, i, OnDisk, otherMatches)
    {
      TiersAt(reg, h, open, jobs, i);
      var tier := RateJob(reg, h, open, loaded, jobs[i]);
      if tier == InMemory {
        loadedMatches := loadedMatches + [i];
      } else if tier == OnDisk {
        otherMatches := otherMatches + [i];
      }
    }
  }

  method FindBestBatch(reg: Registry, h: Host, open: bool, jobs: seq<Queued>) returns (best: Option<nat>)
    ensures best.None? ==> forall j | j in jobs :: !Servable(reg, h, open, j)
    ensures best.Some? ==> IsBest(reg, h, open, jobs, best.value)
  {
    var loadedMatches, otherMatches := CollectMatches(reg, h, open, jobs);
    BestFromTiers(reg, h, open, jobs, loadedMatches, otherMatches);
    best := if loadedMatches != [] then Some(loadedMatches[0])
            else if otherMatches != [] then Some(otherMatches[0])
            else None;
  }

  /** There is at most one best batch, so the choice is a function of the queue. */
  lemma BestIsUnique(reg: Registry, h: Host, open: bool, jobs: seq<Queued>, i: nat, j: nat)
    requires IsBest(reg, h, open, jobs, i) && IsBest(reg, h, open, jobs, j)
    ensures i == j
  {
  }

  // ---- The dispatched name ----

  function ProfiledNames(artifacts: seq<Artifact>, e: Entry): seq<string> {
    if artifacts == [] then []
    else
      var rest := ProfiledNames(artifacts[1..], e);
      if artifacts[0].0 in ServingTargets(e) && Compatible(e.digest, artifacts[0].1) then [artifacts[0].0] + rest else rest
  }

  function ExactNames(artifacts: seq<Artifact>, e: Entry): seq<string> {
    if artifacts == [] then []
    else
      var rest := ExactNames(artifacts[1..], e);
      if SameBytes(e.digest, artifacts[0].1) then [artifacts[0].0] + rest else rest
  }

  predicate IsBareName(name: string) {
    name != "" && '/' !in name
  }

  /** The first name without a '/', else the first name. */
  function PreferBare(names: seq<string>): (name: string)
    requires names != []
    ensures name in names
    ensures (exists n | n in names :: IsBareName(n)) ==> IsBareName(name)
  {
    if IsBareName(names[0]) || |names| == 1 then names[0]
    else
      var later := PreferBare(names[1..]);
      if IsBareName(later) then later else names[0]
  }

  function ResolveName(e: Entry, artifacts: seq<Artifact>): string {
    if ProfiledNames(artifacts, e) != [] then PreferBare(ProfiledNames(artifacts, e))
    else if ExactNames(artifacts, e) != [] then PreferBare(ExactNames(artifacts, e))
    else e.runtimeModelId
  }

  /** The served names under which a compatible file is held. */
  method ScanProfiled(e: Entry, artifacts: seq<Artifact>) returns (profiled: seq<string>)
    ensures profiled == ProfiledNames(artifacts, e)
  {
    var cat, ids := Bare(e.digest), ServingTargets(e);
    profiled := [];
    for i := 0 to |artifacts|
      invariant ProfiledNames(artifacts, e) == profiled + ProfiledNames(artifacts[i..], e)
    {
      var (n, digest) := artifacts[i];
      var wd := Bare(digest);
      ghost var rest := ProfiledNames(artifacts[i + 1..], e);
      assert artifacts[i..][0] == artifacts[i] && artifacts[i..][1..] == artifacts[i + 1..];
      assert profiled + ([n] + rest) == profiled + [n] + rest;
      if n in ids && (cat == "" || wd == "" || cat == wd) {
        profiled := profiled + [n];
      }
    }
    assert profiled + [] == profiled;
  }

  /** The names under which exactly the pinned file is held. */
  method ScanExact(e: Entry, artifacts: seq<Artifact>) returns (exact: seq<string>)
    requires Bare(e.digest) != ""
    ensures exact == ExactNames(artifacts, e)
  {
    var cat := Bare(e.digest);
    exact := [];
    for i := 0 to |artifacts|
      invariant ExactNames(artifacts, e) == exact + ExactNames(artifacts[i..], e)
    {
      ghost var rest := ExactNames(artifacts[i + 1..], e);
      assert artifacts[i..][0] == artifacts[i] && artifacts[i..][1..] == artifacts[i + 1..];
      assert exact + ([artifacts[i].0] + rest) == exact + [artifacts[i].0] + rest;
      if Bare(artifacts[i].1) == cat {
        exact := exact + [artifacts[i].0];
      }
    }
    assert exact + [] == exact;
  }

  method ResolveRuntimeModelId(e: Entry, artifacts: seq<Artifact>) returns (name: string)
    ensures name == ResolveName(e, artifacts)
  {
    var profiled := ScanProfiled(e, artifacts);
    if profiled != [] {
      return PreferBare(profiled);
    }
    if Bare(e.digest) == "" {
      NoExactNames(artifacts, e);
      return e.runtimeModelId;
    }
    var exact := ScanExact(e, artifacts);
    return if exact != [] then PreferBare(exact) else e.runtimeModelId;
  }

  lemma {:induction false} NoExactNames(artifacts: seq<Artifact>, e: Entry)
    requires Bare(e.digest) == ""
    ensures ExactNames(artifacts, e) == []
  {
    if artifacts != [] {
      NoExactNames(artifacts[1..], e);
    }
  }

  lemma {:induction false} ProfiledNamesAreArtifacts(artifacts: seq<Artifact>, e: Entry, n: string)
    ensures n in ProfiledNames(artifacts, e) <==>
            exists a | a in artifacts :: a.0 == n && n in ServingTargets(e) && Compatible(e.digest, a.1)
  {
    if artifacts != [] {
      ProfiledNamesAreArtifacts(artifacts[1..], e, n);
      assert artifacts == [artifacts[0]] + artifacts[1..];
    }
  }

  lemma {:induction false} ExactNamesAreArtifacts(artifacts: seq<Artifact>, e: Entry, n: string)
    ensures n in ExactNames(artifacts, e) <==> exists a | a in artifacts :: a.0 == n && SameBytes(e.digest, a.1)
  {
    if artifacts != [] {
      ExactNamesAreArtifacts(artifacts[1..], e, n);
      assert artifacts == [artifacts[0]] + artifacts[1..];
    }
  }

  /** What the second function picks stays inside what the first one accepted. */
  lemma ResolvedNameIsHosted(e: Entry, artifacts: seq<Artifact>)
    requires Hosts(artifacts, e)
    ensures exists a | a in artifacts :: a.0 == ResolveName(e, artifacts) && IsArtifactOf(a, e)
  {
    var name := ResolveName(e, artifacts);
    HostsMeansSomeArtifact(artifacts, e);
    if ProfiledNames(artifacts, e) != [] {
      ProfiledNamesAreArtifacts(artifacts, e, name);
    } else {
      var a :| a in artifacts && IsArtifactOf(a, e);
      ProfiledNamesAreArtifacts(artifacts, e, a.0);
      ExactNamesAreArtifacts(artifacts, e, a.0);
      ExactNamesAreArtifacts(artifacts, e, name);
      ProfiledNamesAreArtifacts(artifacts, e, name);
    }
  }

  /**
   A worker that may be given the batch is sent a name that one of its
   schedulable runtimes serves, with compatible bytes: never the legacy column
   as a fallback, never a quarantined, drifted or missing row.
   */
  lemma DispatchedNameIsServed(e: Entry, h: Host, needs: seq<string>, prompts: Option<nat>, open: bool)
    requires CanServe(e, h, needs, prompts, open)
    ensures Hosts(AdvertisedModels(h), e)
    ensures exists rt, a | rt in h.runtimes && a in AdvertisedModels(h) ::
        ServedBy(rt, a) && IsArtifactOf(a, e) && a.0 == ResolveName(e, AdvertisedModels(h))
  {
    var k := HostingRuntime(h.runtimes, e).value;
    HostsMeansSomeArtifact(RuntimeArtifacts(h.runtimes[k].models, false), e);
    var b :| b in RuntimeArtifacts(h.runtimes[k].models, false) && IsArtifactOf(b, e);
    RuntimeArtifactsAreSchedulable(h.runtimes[k].models, b);
    assert ServedBy(h.runtimes[k], b);
    ArtifactsAreServed(h.runtimes, b);
    HostsMeansSomeArtifact(AdvertisedModels(h), e);
    ResolvedNameIsHosted(e, AdvertisedModels(h));
    var a :| a in AdvertisedModels(h) && a.0 == ResolveName(e, AdvertisedModels(h)) && IsArtifactOf(a, e);
    ArtifactsAreServed(h.runtimes, a);
  }
}
