/**
 The runtime whose capabilities were checked and the name the job is sent under
 (backend/scheduler.py): the first looks at one runtime, the second at all of them.
 Exactly when do they meet?
 */
module DispatchedNames {
  import opened Options
  import opened KeyedRows
  import opened Catalogue
  import opened Scheduler

  predicate HasBare(names: seq<string>) {
    exists n | n in names :: IsBareName(n)
  }

  /** How good a name these artifacts offer, in the resolver's order of preference. */
  function Rank(artifacts: seq<Artifact>, e: Entry): nat {
    if HasBare(ProfiledNames(artifacts, e)) then 4
    else if ProfiledNames(artifacts, e) != [] then 3
    else if HasBare(ExactNames(artifacts, e)) then 2
    else if ExactNames(artifacts, e) != [] then 1
    else 0
  }

  // ---- Names over several runtimes ----

  function Kept(artifacts: seq<Artifact>, keep: Artifact -> bool): seq<string> {
    if artifacts == [] then []
    else (if keep(artifacts[0]) then [artifacts[0].0] else []) + Kept(artifacts[1..], keep)
  }

  lemma {:induction false} KeptConcat(a: seq<Artifact>, b: seq<Artifact>, keep: Artifact -> bool)
    ensures Kept(a + b, keep) == Kept(a, keep) + Kept(b, keep)
  {
    if a == [] {
      assert a + b == b;
    } else {
      KeptConcat(a[1..], b, keep);
      assert (a + b)[1..] == a[1..] + b;
      var x, y, z := if keep(a[0]) then [a[0].0] else [], Kept(a[1..], keep), Kept(b, keep);
      assert Kept(a, keep) == x + y && Kept(a + b, keep) == x + (y + z);
      assert x + (y + z) == x + y + z;
    }
  }

  function IsProfiled(e: Entry): Artifact -> bool {
    (a: Artifact) => a.0 in ServingTargets(e) && Compatible(e.digest, a.1)
  }

  function IsExact(e: Entry): Artifact -> bool {
    (a: Artifact) => SameBytes(e.digest, a.1)
  }

  lemma {:induction false} NamesAreKept(artifacts: seq<Artifact>, e: Entry)
    ensures ProfiledNames(artifacts, e) == Kept(artifacts, IsProfiled(e))
    ensures ExactNames(artifacts, e) == Kept(artifacts, IsExact(e))
  {
    if artifacts != [] {
      NamesAreKept(artifacts[1..], e);
    }
  }

  lemma NamesConcat(a: seq<Artifact>, b: seq<Artifact>, e: Entry)
    ensures ProfiledNames(a + b, e) == ProfiledNames(a, e) + ProfiledNames(b, e)
    ensures ExactNames(a + b, e) == ExactNames(a, e) + ExactNames(b, e)
  {
    NamesAreKept(a, e);
    NamesAreKept(b, e);
    NamesAreKept(a + b, e);
    KeptConcat(a, b, IsProfiled(e));
    KeptConcat(a, b, IsExact(e));
  }

  lemma {:induction false} ArtifactsConcat(a: seq<Runtime>, b: seq<Runtime>)
    ensures Artifacts(a + b, false) == Artifacts(a, false) + Artifacts(b, false)
  {
    if a == [] {
      assert a + b == b;
    } else {
      ArtifactsConcat(a[1..], b);
      assert (a + b)[0] == a[0] && (a + b)[1..] == a[1..] + b;
    }
  }

  /** Artifacts that do not host the entry offer it no name. */
  lemma UnhostedMeansNameless(artifacts: seq<Artifact>, e: Entry)
    requires !Hosts(artifacts, e)
    ensures ProfiledNames(artifacts, e) == [] && ExactNames(artifacts, e) == []
  {
    HostsMeansSomeArtifact(artifacts, e);
    if ProfiledNames(artifacts, e) != [] {
      ProfiledNamesAreArtifacts(artifacts, e, ProfiledNames(artifacts, e)[0]);
    }
    if ExactNames(artifacts, e) != [] {
      ExactNamesAreArtifacts(artifacts, e, ExactNames(artifacts, e)[0]);
    }
  }

  lemma {:induction false} UnhostingRuntimesAreNameless(runtimes: seq<Runtime>, e: Entry)
    requires forall rt | rt in runtimes :: !HostsOn(rt, e)
    ensures ProfiledNames(Artifacts(runtimes, false), e) == [] && ExactNames(Artifacts(runtimes, false), e) == []
  {
    if runtimes != [] {
      UnhostingRuntimesAreNameless(runtimes[1..], e);
      assert !HostsOn(runtimes[0], e);
      if runtimes[0].Schedulable() {
        UnhostedMeansNameless(RuntimeArtifacts(runtimes[0].models, false), e);
        NamesConcat(RuntimeArtifacts(runtimes[0].models, false), Artifacts(runtimes[1..], false), e);
      }
    }
  }

  lemma {:induction false} PreferBareOfLonger(a: seq<string>, b: seq<string>)
    requires a != [] && (HasBare(a) || !HasBare(a + b))
    ensures PreferBare(a + b) == PreferBare(a)
  {
    var all := a + b;
    assert all[0] == a[0] && all[1..] == a[1..] + b;
    if IsBareName(a[0]) {
    } else if !HasBare(all) {
      assert forall n :: n in a ==> n in all;
      assert PreferBare(all) in all && PreferBare(a) in a;
      NothingBareNothingSkipped(all);
      NothingBareNothingSkipped(a);
    } else {
      var n :| n in a && IsBareName(n);
      assert n in a[1..];
      PreferBareOfLonger(a[1..], b);
    }
  }

  lemma NothingBareNothingSkipped(names: seq<string>)
    requires names != [] && !HasBare(names)
    ensures PreferBare(names) == names[0]
  {
    if |names| > 1 {
      assert PreferBare(names[1..]) in names;
    }
  }

  /** The first hosting runtime's artifacts, then those of the later ones, decide all names. */
  lemma NamesStartAtTheCheckedRuntime(runtimes: seq<Runtime>, e: Entry, k: nat)
    requires HostingRuntime(runtimes, e) == Some(k)
    ensures var own, later := RuntimeArtifacts(runtimes[k].models, false), Artifacts(runtimes[k + 1..], false);
            && ProfiledNames(Artifacts(runtimes, false), e) == ProfiledNames(own, e) + ProfiledNames(later, e)
            && ExactNames(Artifacts(runtimes, false), e) == ExactNames(own, e) + ExactNames(later, e)
  {
    var before, own, later := runtimes[..k], RuntimeArtifacts(runtimes[k].models, false), Artifacts(runtimes[k + 1..], false);
    FirstHostingIsFirst(runtimes, e, 0);
    UnhostingRuntimesAreNameless(before, e);
    assert runtimes == before + runtimes[k..] && runtimes[k..][0] == runtimes[k] && runtimes[k..][1..] == runtimes[k + 1..];
    ArtifactsConcat(before, runtimes[k..]);
    NamesConcat(Artifacts(before, false), own + later, e);
    NamesConcat(own, later, e);
  }

  // ---- When check and name meet ----

  /** The name the job is sent under is one this runtime serves for the entry. */
  ghost predicate NameIsOn(rt: Runtime, e: Entry, h: Host) {
    exists a :: ServedBy(rt, a) && IsArtifactOf(a, e) && a.0 == ResolveName(e, AdvertisedModels(h))
  }

  lemma BestRankKeepsTheName(own: seq<Artifact>, all: seq<Artifact>, e: Entry, later: seq<Artifact>)
    requires ProfiledNames(all, e) == ProfiledNames(own, e) + ProfiledNames(later, e)
    requires ExactNames(all, e) == ExactNames(own, e) + ExactNames(later, e)
    requires Rank(own, e) >= Rank(all, e)
    ensures ResolveName(e, all) == ResolveName(e, own)
  {
    if ProfiledNames(all, e) != [] {
      PreferBareOfLonger(ProfiledNames(own, e), ProfiledNames(later, e));
    } else if ExactNames(all, e) != [] {
      PreferBareOfLonger(ExactNames(own, e), ExactNames(later, e));
    }
  }

  lemma ServedNameHasTheRank(own: seq<Artifact>, all: seq<Artifact>, e: Entry, later: seq<Artifact>, a: Artifact)
    requires ProfiledNames(all, e) == ProfiledNames(own, e) + ProfiledNames(later, e)
    requires ExactNames(all, e) == ExactNames(own, e) + ExactNames(later, e)
    requires a in own && IsArtifactOf(a, e) && a.0 == ResolveName(e, all)
    ensures Rank(own, e) >= Rank(all, e)
  {
    ProfiledNamesAreArtifacts(own, e, a.0);
    ExactNamesAreArtifacts(own, e, a.0);
    ProfiledNamesAreArtifacts(all, e, a.0);
  }

  /**
   On every worker, mixed ones included, the name sent is served by the runtime whose
   capabilities were checked exactly when no later runtime offers a name the resolver prefers.
   */
  lemma NameIsOnTheCheckedRuntimeExactly(e: Entry, h: Host)
    requires HostingRuntime(h.runtimes, e).Some?
    ensures var rt := h.runtimes[HostingRuntime(h.runtimes, e).value];
            NameIsOn(rt, e, h) <==> Rank(RuntimeArtifacts(rt.models, false), e) >= Rank(AdvertisedModels(h), e)
  {
    var k := HostingRuntime(h.runtimes, e).value;
    var rt := h.runtimes[k];
    var own, all, later := RuntimeArtifacts(rt.models, false), AdvertisedModels(h), Artifacts(h.runtimes[k + 1..], false);
    NamesStartAtTheCheckedRuntime(h.runtimes, e, k);
    if Rank(own, e) >= Rank(all, e) {
      BestRankKeepsTheName(own, all, e, later);
      ResolvedNameIsHosted(e, own);
      var a :| a in own && a.0 == ResolveName(e, own) && IsArtifactOf(a, e);
      RuntimeArtifactsAreSchedulable(rt.models, a);
      assert ServedBy(rt, a);
    }
    if NameIsOn(rt, e, h) {
      var a :| ServedBy(rt, a) && IsArtifactOf(a, e) && a.0 == ResolveName(e, all);
      RuntimeArtifactsAreSchedulable(rt.models, a);
      ServedNameHasTheRank(own, all, e, later, a);
    }
  }

  /** In particular when only one schedulable runtime hosts the entry. */
  lemma DispatchedNameIsOnTheCheckedRuntime(e: Entry, h: Host, needs: seq<string>, prompts: Option<nat>, open: bool)
    requires CanServe(e, h, needs, prompts, open)
    requires forall i, j | 0 <= i < |h.runtimes| && 0 <= j < |h.runtimes| ::
        HostsOn(h.runtimes[i], e) && HostsOn(h.runtimes[j], e) ==> i == j
    ensures var rt := h.runtimes[HostingRuntime(h.runtimes, e).value];
            RuntimeHas(rt, needs) && NameIsOn(rt, e, h)
  {
    var k := HostingRuntime(h.runtimes, e).value;
    forall rt | rt in h.runtimes[k + 1..] ensures !HostsOn(rt, e) {
      var j :| k + 1 <= j < |h.runtimes| && h.runtimes[j] == rt;
    }
    UnhostingRuntimesAreNameless(h.runtimes[k + 1..], e);
    NamesStartAtTheCheckedRuntime(h.runtimes, e, k);
    NameIsOnTheCheckedRuntimeExactly(e, h);
  }

  /**
   With two hosting runtimes the check and the name can part: the first runtime
   has the capability under an unprofiled alias, the second has the profiled name
   and nothing else, and the job is sent under the second one's name.
   */
  lemma DispatchedNameCanMissTheCheckedRuntime() returns (e: Entry, h: Host)
    ensures CanServe(e, h, ["logprobs"], None, true)
    ensures forall rt, a | rt in h.runtimes && ServedBy(rt, a) && a.0 == ResolveName(e, AdvertisedModels(h)) ::
        !RuntimeHas(rt, ["logprobs"])
  {
    var row := ModelRow("d1", Available, None, false, Facts("", 0, []));
    var vllm := Runtime("vllm", Ready, [("alias", row)], {"logprobs"}, 0);
    var ollama := Runtime("ollama", Ready, [("m:1b", row)], {}, 0);
    e := Entry("ollama", "m:1b", "d1", [Profile("ollama", "m:1b", [])], None, true, Active);
    h := Host([vllm, ollama], [8.0], None, None, None, None);
    var adv := [("alias", "d1"), ("m:1b", "d1")];
    assert RuntimeArtifacts([("alias", row)], false) == [adv[0]];
    assert RuntimeArtifacts([("m:1b", row)], false) == [adv[1]];
    assert Artifacts([ollama], false) == [adv[1]];
    assert AdvertisedModels(h) == adv;
    assert ServingTargets(e) == ["m:1b"];
    assert Bare("d1") == "d1";
    assert adv[0] in [adv[0]] && IsArtifactOf(adv[0], e);
    assert HostsOn(vllm, e);
    assert LargestGpu([8.0]) == Some(8.0);
    assert ProfiledNames(adv[1..], e) == ["m:1b"];
    assert ProfiledNames(adv, e) == ["m:1b"];
    assert "logprobs" in ["logprobs"];
  }
}
