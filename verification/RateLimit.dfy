/**
 The API-key creation limiter (backend/rate_limit.py): per-user timestamps in
 memory, pruned on every call and swept now and then. The specification is the
 log of all accepted calls, which the code does not keep.
 */
module RateLimit {
  const MAX_KEYS_PER_HOUR: nat := 10
  const WINDOW_SECONDS := 3600.0

  /** The timestamps still inside the window. */
  function Live(stamps: seq<real>, now: real): seq<real> {
    if stamps == [] then []
    else
      var before := Live(stamps[..|stamps| - 1], now);
      if now - stamps[|stamps| - 1] < WINDOW_SECONDS then before + [stamps[|stamps| - 1]] else before
  }

  type Log = seq<(string, real)>

  /** When one user's calls were accepted. */
  function AcceptedAt(log: Log, user: string): seq<real> {
    if log == [] then []
    else
      var before := AcceptedAt(log[..|log| - 1], user);
      if log[|log| - 1].0 == user then before + [log[|log| - 1].1] else before
  }

  /** Fewer than ten accepted calls by the user lie in the last hour. */
  predicate Allows(log: Log, user: string, now: real) {
    |Live(AcceptedAt(log, user), now)| < MAX_KEYS_PER_HOUR
  }

  /** The entries of the log that are this user's and less than an hour old. */
  function Recent(log: Log, user: string, now: real): set<nat> {
    set i: nat | i < |log| && log[i].0 == user && now - log[i].1 < 3600.0
  }

  lemma {:induction false} RecentAreLive(log: Log, user: string, now: real)
    ensures |Live(AcceptedAt(log, user), now)| == |Recent(log, user, now)|
  {
    if log == [] {
      assert Recent(log, user, now) == {};
    } else {
      var n := |log| - 1;
      RecentAreLive(log[..n], user, now);
      var before, stamps := Recent(log[..n], user, now), AcceptedAt(log[..n], user);
      assert n !in before && Recent(log, user, now) == before + if log[n].0 == user && now - log[n].1 < 3600.0 then {n} else {};
      assert (stamps + [log[n].1])[..|stamps|] == stamps;
    }
  }

  /** A call is let through exactly when fewer than ten of the user's accepted calls are less than an hour old. */
  lemma AllowedExactly(log: Log, user: string, now: real)
    ensures Allows(log, user, now) <==> |Recent(log, user, now)| < 10
  {
    RecentAreLive(log, user, now);
  }

  function Logged(log: Log, user: string, now: real): Log {
    if Allows(log, user, now) then log + [(user, now)] else log
  }

  // ---- Pruning ----

  lemma {:induction false} LiveConcat(a: seq<real>, b: seq<real>, now: real)
    ensures Live(a + b, now) == Live(a, now) + Live(b, now)
  {
    if b == [] {
      assert a + b == a;
    } else {
      LiveConcat(a, b[..|b| - 1], now);
      assert (a + b)[..|a + b| - 1] == a + b[..|b| - 1];
    }
  }

  /** Dropping what has aged out changes nothing that a later call sees. */
  lemma {:induction false} LiveLater(stamps: seq<real>, then_: real, now: real)
    requires then_ <= now
    ensures Live(Live(stamps, then_), now) == Live(stamps, now)
  {
    if stamps != [] {
      var init, last := stamps[..|stamps| - 1], stamps[|stamps| - 1];
      LiveLater(init, then_, now);
      LiveConcat(Live(init, then_), [last], now);
      assert [last][..0] == [];
    }
  }

  lemma AcceptedSnoc(log: Log, user: string, now: real, other: string)
    ensures AcceptedAt(log + [(user, now)], other) == AcceptedAt(log, other) + if user == other then [now] else []
  {
    assert (log + [(user, now)])[..|log|] == log;
  }

  lemma {:induction false} LiveIsShorter(stamps: seq<real>, now: real)
    ensures |Live(stamps, now)| <= |stamps|
  {
    if stamps != [] {
      LiveIsShorter(stamps[..|stamps| - 1], now);
    }
  }

  // ---- The table ----

  type Table = map<string, seq<real>>

  function At(table: Table, user: string): seq<real> {
    if user in table then table[user] else []
  }

  /** The table agrees with the log on everything that still matters, and is small. */
  ghost predicate Agrees(table: Table, log: Log, now: real) {
    forall user :: Live(At(table, user), now) == Live(AcceptedAt(log, user), now) && |At(table, user)| <= MAX_KEYS_PER_HOUR
  }

  ghost predicate Pruned(before: Table, after: Table, now: real) {
    forall user :: At(after, user) == At(before, user) || At(after, user) == Live(At(before, user), now)
  }

  lemma PruningAgrees(before: Table, after: Table, log: Log, clock: real, now: real)
    requires Agrees(before, log, clock) && clock <= now && Pruned(before, after, now)
    ensures Agrees(after, log, now)
  {
    forall user ensures Live(At(after, user), now) == Live(AcceptedAt(log, user), now) && |At(after, user)| <= MAX_KEYS_PER_HOUR {
      LiveLater(At(before, user), now, now);
      LiveLater(At(before, user), clock, now);
      LiveLater(AcceptedAt(log, user), clock, now);
      LiveIsShorter(At(before, user), now);
    }
  }

  lemma RecordingAgrees(table: Table, log: Log, user: string, now: real)
    requires Agrees(table, log, now)
    ensures var kept := Live(At(table, user), now);
            Agrees(table[user := if Allows(log, user, now) then kept + [now] else kept], Logged(log, user, now), now)
  {
    var kept := Live(At(table, user), now);
    LiveLater(At(table, user), now, now);
    LiveIsShorter(At(table, user), now);
    LiveConcat(kept, [now], now);
    LiveConcat(AcceptedAt(log, user), [now], now);
    forall other ensures AcceptedAt(log + [(user, now)], other) == AcceptedAt(log, other) + if user == other then [now] else [] {
      AcceptedSnoc(log, user, now, other);
    }
  }

  // ---- The limiter ----

  class Limiter {
    var stamps: Table
    var lastSweep: real
    ghost var log: Log
    ghost var clock: real

    ghost predicate Valid()
      reads this
    {
      Agrees(stamps, log, clock)
    }

    constructor ()
      ensures Valid() && log == [] && clock == 0.0
    {
      stamps, lastSweep, log, clock := map[], 0.0, [], 0.0;
    }

    method Prune(user: string, now: real) returns (kept: seq<real>)
      ensures kept == Live(At(stamps, user), now)
    {
      var all := At(stamps, user);
      kept := [];
      for i := 0 to |all|
        invariant kept == Live(all[..i], now)
      {
        assert all[..i + 1][..i] == all[..i];
        if now - all[i] < WINDOW_SECONDS {
          kept := kept + [all[i]];
        }
      }
      assert all[..|all|] == all;
    }

    /** `_sweep`: at most once a window, prune every user and forget those with nothing left. */
    method Sweep(now: real)
      modifies this`stamps, this`lastSweep
      ensures now - old(lastSweep) < WINDOW_SECONDS ==> stamps == old(stamps) && lastSweep == old(lastSweep)
      ensures now - old(lastSweep) >= WINDOW_SECONDS ==> lastSweep == now
      ensures now - old(lastSweep) >= WINDOW_SECONDS ==> forall user :: user in stamps ==> stamps[user] != []
      ensures Pruned(old(stamps), stamps, now)
    {
      if now - lastSweep < WINDOW_SECONDS {
        return;
      }
      lastSweep := now;
      var rest := stamps.Keys;
      while rest != {}
        invariant rest <= stamps.Keys <= old(stamps).Keys && lastSweep == now
        invariant forall user :: user in rest ==> stamps[user] == old(stamps)[user]
        invariant forall user :: user !in rest ==> At(stamps, user) == Live(At(old(stamps), user), now)
        invariant forall user :: user in stamps && user !in rest ==> stamps[user] != []
        decreases |rest|
      {
        var user :| user in rest;
        var kept := Prune(user, now);
        stamps := if kept != [] then stamps[user := kept] else stamps - {user};
        rest := rest - {user};
      }
    }

    /** `check_key_creation_rate`: the call is accepted unless ten were in the last hour. */
    method CheckKeyCreationRate(user: string, now: real) returns (accepted: bool)
      requires Valid() && clock <= now
      modifies this
      ensures Valid() && clock == now
      ensures accepted == Allows(old(log), user, now) == (|Recent(old(log), user, now)| < 10)
      ensures log == Logged(old(log), user, now)
    {
      AllowedExactly(log, user, now);
      Sweep(now);
      PruningAgrees(old(stamps), stamps, log, clock, now);
      RecordingAgrees(stamps, log, user, now);
      var kept := Prune(user, now);
      accepted := |kept| < MAX_KEYS_PER_HOUR;
      stamps := stamps[user := if accepted then kept + [now] else kept];
      log, clock := Logged(log, user, now), now;
    }
  }

  // ---- Runs ----

  /** The log after a run of calls. */
  function Run(calls: Log): Log {
    if calls == [] then []
    else Logged(Run(calls[..|calls| - 1]), calls[|calls| - 1].0, calls[|calls| - 1].1)
  }

  ghost predicate Clocked(calls: Log) {
    forall i, j :: 0 <= i < j < |calls| ==> calls[i].1 <= calls[j].1
  }

  ghost predicate Ascending(ts: seq<real>) {
    forall i, j :: 0 <= i < j < |ts| ==> ts[i] <= ts[j]
  }

  lemma {:induction false} AcceptedAscend(calls: Log, user: string)
    requires Clocked(calls)
    ensures Ascending(AcceptedAt(Run(calls), user))
    ensures forall t :: t in AcceptedAt(Run(calls), user) ==> calls != [] && t <= calls[|calls| - 1].1
  {
    if calls != [] {
      var init, last := calls[..|calls| - 1], calls[|calls| - 1];
      AcceptedAscend(init, user);
      AcceptedSnoc(Run(init), last.0, last.1, user);
      var before := AcceptedAt(Run(init), user);
      forall i | 0 <= i < |before| ensures before[i] <= last.1 {
        assert before[i] in before;
        assert init[|init| - 1] == calls[|init| - 1] && calls[|init| - 1].1 <= calls[|calls| - 1].1;
      }
    }
  }

  /** In an ascending list, an entry from which on fewer than `n` remain live bounds how many are live. */
  lemma {:induction false} LiveTail(ts: seq<real>, now: real, k: nat)
    requires Ascending(ts) && k < |ts| && now - ts[k] < WINDOW_SECONDS
    ensures |Live(ts, now)| >= |ts| - k
  {
    assert ts[|ts| - 1] >= ts[k];
    if k < |ts| - 1 {
      LiveTail(ts[..|ts| - 1], now, k);
    }
  }

  /** Any two acceptances of one user that are ten apart lie at least an hour apart. */
  lemma {:induction false} TenAcceptancesTakeAnHour(calls: Log, user: string, i: nat)
    requires Clocked(calls) && i + MAX_KEYS_PER_HOUR < |AcceptedAt(Run(calls), user)|
    ensures AcceptedAt(Run(calls), user)[i + MAX_KEYS_PER_HOUR] - AcceptedAt(Run(calls), user)[i] >= WINDOW_SECONDS
  {
    if calls != [] {
      var init, last := calls[..|calls| - 1], calls[|calls| - 1];
      var before := AcceptedAt(Run(init), user);
      AcceptedSnoc(Run(init), last.0, last.1, user);
      if i + MAX_KEYS_PER_HOUR < |before| {
        TenAcceptancesTakeAnHour(init, user, i);
      } else {
        AcceptedAscend(init, user);
        if last.1 - before[i] < WINDOW_SECONDS {
          LiveTail(before, last.1, i);
        }
      }
    }
  }
}
