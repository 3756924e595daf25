/**
 What eligibility comes to, from the rows and cards a worker reports (backend/scheduler.py):
 hosting, capabilities, size and fit, and the batch a poll is given, each said without the
 functions that compute it.
 */
module Eligibility {
  import opened Options
  import opened KeyedRows
  import opened Catalogue
  import opened Scheduler

  // ---- Hosting ----

  /** The entry answers to the name: a profile's own id or alias, or the legacy column when it has no profile. */
  ghost predicate Answers(e: Entry, name: string) {
    if e.profiles == [] then name == e.runtimeModelId
    else exists p | p in e.profiles :: name == p.modelId || name in p.extras
  }

  lemma {:induction false} ProfileTargetsMean(profiles: seq<Profile>, name: string)
    ensures name in ProfileTargets(profiles) <==> exists p | p in profiles :: name == p.modelId || name in p.extras
  {
    if profiles != [] {
      ProfileTargetsMean(profiles[1..], name);
      assert profiles == [profiles[0]] + profiles[1..];
    }
  }

  lemma TargetsAreAnswers(e: Entry, name: string)
    ensures name in ServingTargets(e) <==> Answers(e, name)
  {
    ProfileTargetsMean(e.profiles, name);
  }

  /** No pin, no hash, or the same bytes. */
  predicate MayBe(pin: string, digest: string) {
    Bare(pin) == "" || Bare(digest) == "" || Bare(pin) == Bare(digest)
  }

  /** Certainly the pinned bytes. */
  predicate Is(pin: string, digest: string) {
    Bare(pin) != "" && Bare(pin) == Bare(digest)
  }

  /** A row of this name and hash is the entry's. */
  ghost predicate IsOf(name: string, digest: string, e: Entry) {
    (Answers(e, name) && MayBe(e.digest, digest)) || Is(e.digest, digest)
  }

  /** A ready runtime lists the artifact as available, and in memory if that is asked. */
  ghost predicate Lists(rt: Runtime, name: string, digest: string, warm: bool) {
    rt.status == Ready
    && exists m | m in rt.models :: m.0 == name && m.1.digest == digest && m.1.status == Available && (warm ==> m.1.loaded)
  }

  ghost predicate HostedOn(rt: Runtime, e: Entry) {
    exists name, digest :: Lists(rt, name, digest, false) && IsOf(name, digest, e)
  }

  lemma {:induction false} RowsListed(models: Rows<string, ModelRow>, a: Artifact, warm: bool)
    ensures a in RuntimeArtifacts(models, warm) <==>
            exists m | m in models :: m.0 == a.0 && m.1.digest == a.1 && m.1.status == Available && (warm ==> m.1.loaded)
  {
    if models != [] {
      RowsListed(models[1..], a, warm);
      assert models == [models[0]] + models[1..];
    }
  }

  lemma {:induction false} ArtifactsListed(runtimes: seq<Runtime>, a: Artifact, warm: bool)
    ensures a in Artifacts(runtimes, warm) <==> exists rt | rt in runtimes :: Lists(rt, a.0, a.1, warm)
  {
    if runtimes != [] {
      ArtifactsListed(runtimes[1..], a, warm);
      RowsListed(runtimes[0].models, a, warm);
      assert runtimes == [runtimes[0]] + runtimes[1..];
      assert Lists(runtimes[0], a.0, a.1, warm) <==> runtimes[0].Schedulable() && a in RuntimeArtifacts(runtimes[0].models, warm);
      if rt :| rt in runtimes[1..] && Lists(rt, a.0, a.1, warm) {
        assert rt in runtimes;
      }
    }
  }

  lemma ArtifactsOf(a: Artifact, e: Entry)
    ensures IsArtifactOf(a, e) <==> IsOf(a.0, a.1, e)
  {
    TargetsAreAnswers(e, a.0);
  }

  lemma HostsOnMeans(rt: Runtime, e: Entry)
    ensures HostsOn(rt, e) <==> HostedOn(rt, e)
  {
    var arts := RuntimeArtifacts(rt.models, false);
    HostsMeansSomeArtifact(arts, e);
    forall name, digest ensures rt.status == Ready ==> ((name, digest) in arts <==> Lists(rt, name, digest, false)) {
      RowsListed(rt.models, (name, digest), false);
    }
    forall a: Artifact ensures IsArtifactOf(a, e) <==> IsOf(a.0, a.1, e) {
      ArtifactsOf(a, e);
    }
    if a: Artifact :| a in arts && IsArtifactOf(a, e) && rt.status == Ready {
      assert Lists(rt, a.0, a.1, false);
    }
    if name, digest :| Lists(rt, name, digest, false) && IsOf(name, digest, e) {
      assert (name, digest) in arts && IsArtifactOf((name, digest), e);
    }
  }

  /** The first runtime that hosts the entry: the one whose engine and capabilities count. */
  ghost predicate IsFirstHost(h: Host, e: Entry, k: nat) {
    k < |h.runtimes| && HostedOn(h.runtimes[k], e) && forall j | 0 <= j < k :: !HostedOn(h.runtimes[j], e)
  }

  lemma HostingRuntimeMeans(h: Host, e: Entry, k: nat)
    ensures HostingRuntime(h.runtimes, e) == Some(k) <==> IsFirstHost(h, e, k)
  {
    FirstHostingIsFirst(h.runtimes, e, 0);
    forall rt ensures HostsOn(rt, e) <==> HostedOn(rt, e) {
      HostsOnMeans(rt, e);
    }
  }

  // ---- Fit ----

  ghost predicate HasKnownCard(h: Host) {
    exists g | g in h.gpus :: g != 0.0
  }

  /** One card alone holds it; the machine total counts only when no card's size is known. */
  ghost predicate OneCardHolds(h: Host, required: real) {
    if HasKnownCard(h) then exists g | g in h.gpus :: g != 0.0 && g >= required
    else h.vramTotal.Some? && h.vramTotal.value >= required
  }

  /** Free RAM above a reserve of 4 GB, or of a fifth of the machine's when that is more. */
  function SpareRam(h: Host): real {
    var reserve := if h.ramTotal.Some? && h.ramTotal.value > 20.0 then h.ramTotal.value / 5.0 else 4.0;
    if h.ramAvailable.None? || h.ramAvailable.value <= reserve then 0.0 else h.ramAvailable.value - reserve
  }

  lemma {:induction false} LargestGpuMeans(gpus: seq<real>)
    ensures LargestGpu(gpus).None? <==> forall g | g in gpus :: g == 0.0
    ensures LargestGpu(gpus).Some? ==> LargestGpu(gpus).value in gpus && LargestGpu(gpus).value != 0.0
    ensures LargestGpu(gpus).Some? ==> forall g | g in gpus && g != 0.0 :: g <= LargestGpu(gpus).value
  {
    if gpus != [] {
      LargestGpuMeans(gpus[1..]);
      assert gpus == [gpus[0]] + gpus[1..];
      assert gpus[0] in gpus && forall g :: g in gpus[1..] ==> g in gpus;
    }
  }

  lemma FitsMeans(engine: string, required: real, h: Host)
    ensures Fits(engine, required, h) <==> OneCardHolds(h, if engine == "llamacpp" then required - SpareRam(h) else required)
  {
    LargestGpuMeans(h.gpus);
    SpareRamMeans(h);
  }

  lemma SpareRamMeans(h: Host)
    ensures UsableRam(h) == SpareRam(h)
  {
  }

  // ---- Eligibility as a whole ----

  ghost predicate TakesSize(h: Host, prompts: Option<nat>) {
    h.maxPrompts.Some? && prompts.Some? ==> prompts.value <= h.maxPrompts.value
  }

  /**
   Within the provider's hours and size limit, some runtime hosts the entry, and the first one that
   does has every capability asked for and room: on one card, with spare RAM beside it for the
   one engine that offloads.
   */
  ghost predicate MayRun(e: Entry, h: Host, needs: seq<string>, prompts: Option<nat>, open: bool) {
    && open && TakesSize(h, prompts)
    && exists k: nat :: IsFirstHost(h, e, k)
         && (forall c | c in needs :: c in h.runtimes[k].capabilities)
         && var required := if e.vramGb.Some? then e.vramGb.value else 0.0;
            OneCardHolds(h, if h.runtimes[k].engine == "llamacpp" then required - SpareRam(h) else required)
  }

  lemma CanServeMeans(e: Entry, h: Host, needs: seq<string>, prompts: Option<nat>, open: bool)
    ensures CanServe(e, h, needs, prompts, open) <==> MayRun(e, h, needs, prompts, open)
  {
    var first := HostingRuntime(h.runtimes, e);
    var required := if e.vramGb.Some? then e.vramGb.value else 0.0;
    forall k: nat ensures first == Some(k) <==> IsFirstHost(h, e, k) {
      HostingRuntimeMeans(h, e, k);
    }
    if first.Some? {
      FitsMeans(h.runtimes[first.value].engine, required, h);
      assert IsFirstHost(h, e, first.value);
    }
  }

  /** For any other engine neither free RAM nor a further card no larger than a known one changes the answer. */
  lemma RamAndFurtherCardsDoNotMatter(e: Entry, h: Host, g: Host, card: real, needs: seq<string>, prompts: Option<nat>, open: bool)
    requires forall rt | rt in h.runtimes :: rt.engine != "llamacpp"
    requires exists own | own in h.gpus :: own != 0.0 && card <= own
    requires g == h.(gpus := h.gpus + [card], ramTotal := g.ramTotal, ramAvailable := g.ramAvailable)
    ensures CanServe(e, h, needs, prompts, open) <==> CanServe(e, g, needs, prompts, open)
  {
    CanServeMeans(e, h, needs, prompts, open);
    CanServeMeans(e, g, needs, prompts, open);
    assert forall x :: x in g.gpus <==> x in h.gpus || x == card;
    forall required ensures OneCardHolds(h, required) <==> OneCardHolds(g, required) {
    }
    forall k: nat ensures IsFirstHost(h, e, k) <==> IsFirstHost(g, e, k) {
    }
  }
}
