/**
 The submission gates 4b to 4d (backend/services/batch_validator.py): refuse a
 file now when no online worker that hosts its model could ever be given it.
 */
module SubmissionGates {
  import opened Options
  import opened Catalogue
  import opened Scheduler
  import opened Lifecycle

  datatype Gate =
    | Open
    | UnsupportedN
    | UnsupportedCapability(first: string, missing: seq<string>)
    | TooLarge(limit: nat)

  /** Online by heartbeat, and able to take a plain chat batch for the entry at some hour. */
  predicate IsOnlineHost(e: Entry, w: Worker, now: int) {
    w.status == Online && w.lastHeartbeat >= now - HEARTBEAT_TIMEOUT_SECONDS && CanServe(e, w.host, [], None, true)
  }

  method OnlineHosts(e: Entry, workers: seq<Worker>, now: int) returns (hosts: seq<Worker>)
    ensures forall w :: w in hosts <==> w in workers && IsOnlineHost(e, w, now)
  {
    hosts := [];
    for i := 0 to |workers|
      invariant forall w :: w in hosts <==> w in workers[..i] && IsOnlineHost(e, w, now)
    {
      if IsOnlineHost(e, workers[i], now) {
        hosts := hosts + [workers[i]];
      }
      assert workers[..i + 1] == workers[..i] + [workers[i]];
    }
    assert workers[..|workers|] == workers;
  }

  method Capable(e: Entry, hosts: seq<Worker>, needs: seq<string>) returns (capable: seq<Worker>)
    ensures forall w :: w in capable <==> w in hosts && CanServe(e, w.host, needs, None, true)
  {
    capable := [];
    for i := 0 to |hosts|
      invariant forall w :: w in capable <==> w in hosts[..i] && CanServe(e, w.host, needs, None, true)
    {
      if CanServe(e, hosts[i].host, needs, None, true) {
        capable := capable + [hosts[i]];
      }
      assert hosts[..i + 1] == hosts[..i] + [hosts[i]];
    }
    assert hosts[..|hosts|] == hosts;
  }

  /** The largest size limit, or nothing when some worker has none. */
  method LargestLimit(capable: seq<Worker>) returns (limit: Option<nat>)
    requires capable != []
    ensures limit.None? <==> exists w | w in capable :: w.host.maxPrompts.None?
    ensures limit.Some? ==> (exists w | w in capable :: w.host.maxPrompts == limit)
    ensures limit.Some? ==> forall w | w in capable :: w.host.maxPrompts.Some? && w.host.maxPrompts.value <= limit.value
  {
    limit := capable[0].host.maxPrompts;
    for i := 1 to |capable|
      invariant limit.None? <==> exists w | w in capable[..i] :: w.host.maxPrompts.None?
      invariant limit.Some? ==> exists w | w in capable[..i] :: w.host.maxPrompts == limit
      invariant limit.Some? ==> forall w | w in capable[..i] :: w.host.maxPrompts.Some? && w.host.maxPrompts.value <= limit.value
    {
      var next := capable[i].host.maxPrompts;
      assert capable[..i + 1] == capable[..i] + [capable[i]];
      assert capable[i] in capable[..i + 1] && forall w :: w in capable[..i] ==> w in capable[..i + 1];
      if limit.Some? && (next.None? || next.value > limit.value) {
        limit := next;
      }
    }
    assert capable[..|capable|] == capable;
  }

  /** Some online host could be given exactly this batch, hours aside. */
  ghost predicate SomeHostTakes(e: Entry, workers: seq<Worker>, now: int, needs: seq<string>, total: nat) {
    exists w | w in workers :: IsOnlineHost(e, w, now) && CanServe(e, w.host, needs, Some(total), true)
  }

  ghost predicate NoHostOnline(e: Entry, workers: seq<Worker>, now: int) {
    forall w | w in workers :: !IsOnlineHost(e, w, now)
  }

  /** The online hosts that can run these rows at some size. */
  ghost predicate AreCapable(e: Entry, workers: seq<Worker>, now: int, needs: seq<string>, capable: seq<Worker>) {
    forall w :: w in capable <==> w in workers && IsOnlineHost(e, w, now) && CanServe(e, w.host, needs, None, true)
  }

  lemma TakersAreCapable(e: Entry, workers: seq<Worker>, now: int, needs: seq<string>, capable: seq<Worker>, n: nat)
    requires AreCapable(e, workers, now, needs, capable)
    ensures SomeHostTakes(e, workers, now, needs, n) <==>
            exists w :: w in capable && (w.host.maxPrompts.None? || n <= w.host.maxPrompts.value)
  {
    if w :| w in workers && IsOnlineHost(e, w, now) && CanServe(e, w.host, needs, Some(n), true) {
      assert w in capable;
    }
    if w :| w in capable && (w.host.maxPrompts.None? || n <= w.host.maxPrompts.value) {
      assert CanServe(e, w.host, needs, Some(n), true);
    }
  }

  /** Gate 4d: among capable hosts, only the largest limit matters. */
  method SizeGate(e: Entry, workers: seq<Worker>, now: int, needs: seq<string>, total: nat, capable: seq<Worker>) returns (gate: Gate)
    requires capable != [] && AreCapable(e, workers, now, needs, capable)
    ensures gate == Open || gate.TooLarge?
    ensures gate == Open <==> SomeHostTakes(e, workers, now, needs, total)
    ensures gate.TooLarge? ==> gate.limit < total && forall n: nat :: SomeHostTakes(e, workers, now, needs, n) <==> n <= gate.limit
  {
    var limit := LargestLimit(capable);
    forall n: nat ensures SomeHostTakes(e, workers, now, needs, n) <==> limit.None? || n <= limit.value {
      TakersAreCapable(e, workers, now, needs, capable, n);
    }
    return if limit.Some? && total > limit.value then TooLarge(limit.value) else Open;
  }

  ghost predicate SomeHostMeets(e: Entry, workers: seq<Worker>, now: int, c: string) {
    exists w | w in workers :: IsOnlineHost(e, w, now) && CanServe(e, w.host, [c], None, true)
  }

  ghost predicate AreHosts(e: Entry, workers: seq<Worker>, now: int, hosts: seq<Worker>) {
    forall w :: w in hosts <==> w in workers && IsOnlineHost(e, w, now)
  }

  /** The needs no online host meets on its own, in the order the file raised them. */
  ghost function UnmetNeeds(e: Entry, workers: seq<Worker>, now: int, needs: seq<string>): seq<string> {
    if needs == [] then []
    else
      var before, last := UnmetNeeds(e, workers, now, needs[..|needs| - 1]), needs[|needs| - 1];
      if SomeHostMeets(e, workers, now, last) then before else before + [last]
  }

  lemma {:induction false} UnmetNeedsAreListed(e: Entry, workers: seq<Worker>, now: int, needs: seq<string>, c: string)
    ensures c in UnmetNeeds(e, workers, now, needs) <==> c in needs && !SomeHostMeets(e, workers, now, c)
  {
    if needs != [] {
      UnmetNeedsAreListed(e, workers, now, needs[..|needs| - 1], c);
      assert needs == needs[..|needs| - 1] + [needs[|needs| - 1]];
    }
  }

  /** The need a refusal names: the first that no host meets, or the first of all when each is met by some host. */
  ghost predicate IsFirstUnmet(e: Entry, workers: seq<Worker>, now: int, needs: seq<string>, first: string) {
    if forall c :: c in needs ==> SomeHostMeets(e, workers, now, c) then needs != [] && first == needs[0]
    else exists i :: 0 <= i < |needs| && first == needs[i] && !SomeHostMeets(e, workers, now, needs[i])
                     && forall j :: 0 <= j < i ==> SomeHostMeets(e, workers, now, needs[j])
  }

  lemma {:induction false} FirstUnmetIsListedFirst(e: Entry, workers: seq<Worker>, now: int, needs: seq<string>) returns (i: nat)
    requires UnmetNeeds(e, workers, now, needs) != []
    ensures i < |needs| && !SomeHostMeets(e, workers, now, needs[i]) && UnmetNeeds(e, workers, now, needs)[0] == needs[i]
    ensures forall j :: 0 <= j < i ==> SomeHostMeets(e, workers, now, needs[j])
  {
    var init := needs[..|needs| - 1];
    if UnmetNeeds(e, workers, now, init) != [] {
      i := FirstUnmetIsListedFirst(e, workers, now, init);
    } else {
      i := |needs| - 1;
      forall j | 0 <= j < i ensures SomeHostMeets(e, workers, now, needs[j]) {
        UnmetNeedsAreListed(e, workers, now, init, needs[j]);
        assert init[j] == needs[j];
      }
    }
  }

  lemma SomeHostIsAble(e: Entry, workers: seq<Worker>, now: int, hosts: seq<Worker>, c: string, able: seq<Worker>)
    requires AreHosts(e, workers, now, hosts)
    requires forall w :: w in able <==> w in hosts && CanServe(e, w.host, [c], None, true)
    ensures able != [] <==> SomeHostMeets(e, workers, now, c)
  {
    assert able != [] ==> able[0] in able;
    assert (exists w :: w in able) <==> SomeHostMeets(e, workers, now, c);
  }

  /** Going through the needs in order. */
  method Missing(e: Entry, workers: seq<Worker>, now: int, hosts: seq<Worker>, needs: seq<string>) returns (missing: seq<string>)
    requires AreHosts(e, workers, now, hosts)
    ensures missing == UnmetNeeds(e, workers, now, needs)
  {
    missing := [];
    for i := 0 to |needs|
      invariant missing == UnmetNeeds(e, workers, now, needs[..i])
    {
      assert needs[..i + 1][..i] == needs[..i];
      var able := Capable(e, hosts, [needs[i]]);
      SomeHostIsAble(e, workers, now, hosts, needs[i], able);
      if able == [] {
        missing := missing + [needs[i]];
      }
    }
    assert needs[..|needs|] == needs;
  }

  /** Gate 4c's refusal. */
  method CapabilityRefusal(e: Entry, workers: seq<Worker>, now: int, hosts: seq<Worker>, needs: seq<string>) returns (gate: Gate)
    requires needs != [] && AreHosts(e, workers, now, hosts)
    ensures gate.UnsupportedCapability? && IsFirstUnmet(e, workers, now, needs, gate.first)
    ensures gate.missing == UnmetNeeds(e, workers, now, needs)
    ensures forall c :: c in gate.missing <==> c in needs && !SomeHostMeets(e, workers, now, c)
  {
    var missing := Missing(e, workers, now, hosts, needs);
    forall c ensures c in missing <==> c in needs && !SomeHostMeets(e, workers, now, c) {
      UnmetNeedsAreListed(e, workers, now, needs, c);
    }
    if missing != [] {
      ghost var i := FirstUnmetIsListedFirst(e, workers, now, needs);
      assert missing[0] in missing;
    }
    return UnsupportedCapability(if missing != [] then missing[0] else needs[0], missing);
  }

  method CheckGates(e: Entry, nRows: nat, needs: seq<string>, total: nat, workers: seq<Worker>, now: int) returns (gate: Gate)
    ensures gate == UnsupportedN <==> e.runtime == "ollama" && nRows > 0
    ensures gate != UnsupportedN ==>
              (gate == Open <==> NoHostOnline(e, workers, now) || SomeHostTakes(e, workers, now, needs, total))
    ensures gate.UnsupportedCapability? ==> IsFirstUnmet(e, workers, now, needs, gate.first)
    ensures gate.UnsupportedCapability? ==> gate.missing == UnmetNeeds(e, workers, now, needs)
    ensures gate.UnsupportedCapability? ==> forall c :: c in gate.missing <==> c in needs && !SomeHostMeets(e, workers, now, c)
    ensures gate.TooLarge? ==> gate.limit < total && forall n: nat :: SomeHostTakes(e, workers, now, needs, n) <==> n <= gate.limit
  {
    if e.runtime == "ollama" && nRows > 0 {
      return UnsupportedN;
    }
    var hosts := OnlineHosts(e, workers, now);
    if hosts == [] {
      return Open;
    }
    assert hosts[0] in hosts && !NoHostOnline(e, workers, now);
    var capable := Capable(e, hosts, needs);
    assert needs == [] ==> hosts[0] in capable;
    if capable == [] {
      TakersAreCapable(e, workers, now, needs, capable, total);
      gate := CapabilityRefusal(e, workers, now, hosts, needs);
    } else {
      gate := SizeGate(e, workers, now, needs, total, capable);
    }
  }

  /** Needing more, or being larger, never makes a worker eligible; closed hours never do either. */
  lemma EligibilityShrinks(e: Entry, h: Host, needs: seq<string>, prompts: Option<nat>, open: bool)
    requires CanServe(e, h, needs, prompts, open)
    ensures CanServe(e, h, [], None, true) && CanServe(e, h, needs, prompts, true)
  {
  }

  /**
   A file the gates refuse would sit in the queue for ever: no worker online now,
   at whatever hour it polls and whatever else is queued, is handed it.
   */
  lemma RefusedFilesAreNeverDispatched(reg: Registry, model: string, needs: seq<string>, total: nat,
                                       workers: seq<Worker>, now: int, w: Worker, open: bool, queue: seq<Queued>, i: nat)
    requires SelectableEntry(reg, model).Some?
    requires !SomeHostTakes(SelectableEntry(reg, model).value, workers, now, needs, total)
    requires w in workers && w.status == Online && w.lastHeartbeat >= now - HEARTBEAT_TIMEOUT_SECONDS
    requires IsBest(reg, w.host, open, queue, i)
    ensures queue[i] != Queued(model, needs, total)
  {
    var e := SelectableEntry(reg, model).value;
    if queue[i] == Queued(model, needs, total) {
      EligibilityShrinks(e, w.host, needs, Some(total), open);
      assert IsOnlineHost(e, w, now) && CanServe(e, w.host, needs, Some(total), true);
    }
  }

  /** A file the gates admit while a host is online is handed to some online worker that polls within its hours. */
  lemma AdmittedFilesHaveATaker(reg: Registry, model: string, needs: seq<string>, total: nat, workers: seq<Worker>, now: int)
    requires SelectableEntry(reg, model).Some?
    requires SomeHostTakes(SelectableEntry(reg, model).value, workers, now, needs, total)
    ensures exists w | w in workers :: w.status == Online && IsBest(reg, w.host, true, [Queued(model, needs, total)], 0)
  {
    var e := SelectableEntry(reg, model).value;
    var w :| w in workers && IsOnlineHost(e, w, now) && CanServe(e, w.host, needs, Some(total), true);
    var queue := [Queued(model, needs, total)];
    assert queue[0] in queue && forall j :: j in queue ==> j == queue[0];
    assert IsBest(reg, w.host, true, queue, 0);
  }
}
