/**
 The usage outbox (backend/sweeper.py, backend/services/usage_ingest.py): every
 sweep retries a few completed batches whose ingestion never finished. Over runs of
 sweeps the backlog drains, whatever the files hold.
 */
module Outbox {
  import opened Options
  import opened KeyedRows
  import opened UsageIngest

  const MAX_USAGE_INGESTION_ATTEMPTS: nat := 5
  const MAX_INGESTIONS_PER_SWEEP: nat := 5

  type Batches = map<string, BatchUsage>

  /** The File rows by id, each with the file's lines, or nothing when it is gone from disk. */
  type Files = map<string, Option<seq<Line>>>

  predicate Eligible(b: BatchUsage) {
    b.completed && b.pending && b.attempts < MAX_USAGE_INGESTION_ATTEMPTS
  }

  predicate Waits(b: BatchUsage) {
    b.completed && b.pending && b.attempts <= 4
  }

  lemma WaitingIsEligible(b: BatchUsage)
    ensures Eligible(b) <==> Waits(b)
  {
  }

  /** The query's result: up to `limit` eligible batches, oldest first, ties in any order. */
  ghost predicate IsPick(batches: Batches, picked: seq<string>, limit: nat) {
    && (forall i :: 0 <= i < |picked| ==> picked[i] in batches && Eligible(batches[picked[i]]))
    && (forall i, j :: 0 <= i < j < |picked| ==>
          picked[i] != picked[j] && batches[picked[i]].completedAt <= batches[picked[j]].completedAt)
    && |picked| <= limit
    && (|picked| < limit ==> forall id :: id in batches && Eligible(batches[id]) ==> id in picked)
    && (forall id, i :: id in batches && Eligible(batches[id]) && id !in picked && 0 <= i < |picked| ==>
          batches[picked[i]].completedAt <= batches[id].completedAt)
  }

  lemma OldestExists(batches: Batches, rest: set<string>)
    requires rest != {} && rest <= batches.Keys
    ensures exists id :: id in rest && forall other :: other in rest ==> batches[id].completedAt <= batches[other].completedAt
  {
    var x :| x in rest;
    if rest != {x} {
      OldestExists(batches, rest - {x});
      var y :| y in rest - {x} && forall other :: other in rest - {x} ==> batches[y].completedAt <= batches[other].completedAt;
      var id := if batches[x].completedAt <= batches[y].completedAt then x else y;
      assert forall other :: other in rest ==> other == x || other in rest - {x};
      assert id in rest && forall other :: other in rest ==> batches[id].completedAt <= batches[other].completedAt;
    }
  }

  /** Eligible batches, all different, oldest first. */
  ghost predicate IsSorted(batches: Batches, picked: seq<string>) {
    && (forall i :: 0 <= i < |picked| ==> picked[i] in batches && Eligible(batches[picked[i]]))
    && (forall i, j :: 0 <= i < j < |picked| ==>
          picked[i] != picked[j] && batches[picked[i]].completedAt <= batches[picked[j]].completedAt)
  }

  /** What is left to pick from: the other eligible batches, none older than a picked one. */
  ghost predicate IsRest(batches: Batches, picked: seq<string>, rest: set<string>) {
    && (forall id :: id in rest <==> id in batches && Eligible(batches[id]) && id !in picked)
    && (forall id, i :: id in rest && 0 <= i < |picked| && picked[i] in batches ==>
          batches[picked[i]].completedAt <= batches[id].completedAt)
  }

  lemma PickNext(batches: Batches, picked: seq<string>, rest: set<string>, id: string)
    requires IsSorted(batches, picked) && IsRest(batches, picked, rest) && id in rest
    requires forall other :: other in rest ==> other in batches && batches[id].completedAt <= batches[other].completedAt
    ensures IsSorted(batches, picked + [id]) && IsRest(batches, picked + [id], rest - {id})
  {
    assert forall i :: 0 <= i < |picked| ==> picked[i] in picked;
  }

  method OldestPending(batches: Batches, limit: nat) returns (picked: seq<string>)
    ensures IsPick(batches, picked, limit)
  {
    picked := [];
    var rest := set id | id in batches && Eligible(batches[id]);
    while |picked| < limit && rest != {}
      invariant |picked| <= limit && IsSorted(batches, picked) && IsRest(batches, picked, rest)
      decreases |rest|
    {
      OldestExists(batches, rest);
      var id :| id in rest && forall other :: other in rest ==> batches[id].completedAt <= batches[other].completedAt;
      PickNext(batches, picked, rest, id);
      picked, rest := picked + [id], rest - {id};
    }
  }

  /** A file whose ingestion raises, this time and every time. */
  ghost predicate Doomed(files: Files, b: BatchUsage) {
    b.outputFile in files && files[b.outputFile].Some? && Explodes(files[b.outputFile].value)
  }

  /** One retry: the flag is cleared on every terminal outcome, and only there. */
  ghost predicate Tried(files: Files, before: BatchUsage, after: BatchUsage) {
    if Doomed(files, before) then after == before.(attempts := before.attempts + 1)
    else after == before.(pending := false, totals := after.totals)
  }

  ghost predicate SweepStep(files: Files, before: Batches, picked: seq<string>, after: Batches) {
    && IsPick(before, picked, MAX_INGESTIONS_PER_SWEEP)
    && after.Keys == before.Keys
    && forall id :: id in before ==> if id in picked then Tried(files, before[id], after[id]) else after[id] == before[id]
  }

  /** How many of the first `n` picked batches have an output file row to read. */
  function WithFile(files: Files, batches: Batches, picked: seq<string>, n: nat): nat
    requires n <= |picked|
  {
    if n == 0 then 0
    else
      WithFile(files, batches, picked, n - 1)
      + (if picked[n - 1] in batches && batches[picked[n - 1]].outputFile in files then 1 else 0)
  }

  method Retry(store: UsageStore, files: Files, id: string, chunkSize: nat) returns (ingested: bool)
    requires Unique(store.table) && chunkSize >= 1 && id in store.batches
    modifies store
    ensures Unique(store.table)
    ensures store.batches.Keys == old(store.batches).Keys
    ensures Tried(files, old(store.batches)[id], store.batches[id])
    ensures forall other :: other in store.batches && other != id ==> store.batches[other] == old(store.batches)[other]
    ensures ingested == (old(store.batches)[id].outputFile in files)
  {
    var b := store.batches[id];
    if b.outputFile !in files {
      store.batches := store.batches[id := b.(pending := false)];
      return false;
    }
    var outcome, written, commits := store.Ingest(id, files[b.outputFile], chunkSize, NoFault);
    return true;
  }

  /** The first `i` picked batches were retried, the others are as before. */
  ghost predicate RetriedFirst(files: Files, before: Batches, now: Batches, picked: seq<string>, i: nat)
    requires i <= |picked|
  {
    && now.Keys == before.Keys
    && forall id :: id in before ==> if id in picked[..i] then Tried(files, before[id], now[id]) else now[id] == before[id]
  }

  lemma RetriedOneMore(files: Files, before: Batches, mid: Batches, after: Batches, picked: seq<string>, i: nat)
    requires i < |picked| && IsPick(before, picked, MAX_INGESTIONS_PER_SWEEP) && RetriedFirst(files, before, mid, picked, i)
    requires after.Keys == mid.Keys && Tried(files, mid[picked[i]], after[picked[i]])
    requires forall other :: other in mid && other != picked[i] ==> after[other] == mid[other]
    ensures RetriedFirst(files, before, after, picked, i + 1) && mid[picked[i]] == before[picked[i]]
  {
    assert picked[..i + 1] == picked[..i] + [picked[i]];
    forall j | 0 <= j < i ensures picked[..i][j] != picked[i] {
      assert picked[j] != picked[i];
    }
  }

  lemma NoneRetried(files: Files, before: Batches, picked: seq<string>)
    ensures RetriedFirst(files, before, before, picked, 0)
  {
  }

  lemma AllRetried(files: Files, before: Batches, after: Batches, picked: seq<string>)
    requires IsPick(before, picked, MAX_INGESTIONS_PER_SWEEP) && RetriedFirst(files, before, after, picked, |picked|)
    ensures SweepStep(files, before, picked, after)
  {
    assert picked[..|picked|] == picked;
  }

  /** The sweep's loop body. */
  method RetryNext(store: UsageStore, files: Files, chunkSize: nat, picked: seq<string>, i: nat, ghost before: Batches)
    returns (ingested: bool)
    requires Unique(store.table) && chunkSize >= 1
    requires i < |picked| && IsPick(before, picked, MAX_INGESTIONS_PER_SWEEP) && RetriedFirst(files, before, store.batches, picked, i)
    modifies store
    ensures Unique(store.table) && RetriedFirst(files, before, store.batches, picked, i + 1)
    ensures ingested == (picked[i] in before && before[picked[i]].outputFile in files)
  {
    ghost var mid := store.batches;
    assert picked[i] in before;
    ingested := Retry(store, files, picked[i], chunkSize);
    RetriedOneMore(files, before, mid, store.batches, picked, i);
  }

  /** `sweep_pending_ingestions` with a database that accepts its writes. */
  method SweepPendingIngestions(store: UsageStore, files: Files, chunkSize: nat) returns (picked: seq<string>, retried: nat)
    requires Unique(store.table) && chunkSize >= 1
    modifies store
    ensures Unique(store.table)
    ensures SweepStep(files, old(store.batches), picked, store.batches)
    ensures retried == WithFile(files, old(store.batches), picked, |picked|)
    // Completed batches still pending, raised fewer than five times: at most five, the oldest, none left out while there is room.
    ensures forall i :: 0 <= i < |picked| ==> picked[i] in old(store.batches) && Waits(old(store.batches)[picked[i]])
    ensures |picked| <= 5 && (|picked| < 5 ==> forall id :: id in old(store.batches) && Waits(old(store.batches)[id]) ==> id in picked)
    ensures forall id, i :: id in old(store.batches) && Waits(old(store.batches)[id]) && id !in picked && 0 <= i < |picked| ==>
              picked[i] in old(store.batches) && old(store.batches)[picked[i]].completedAt <= old(store.batches)[id].completedAt
  {
    ghost var before := store.batches;
    picked := OldestPending(store.batches, MAX_INGESTIONS_PER_SWEEP);
    forall b ensures Eligible(b) <==> Waits(b) { WaitingIsEligible(b); }
    retried := 0;
    NoneRetried(files, before, picked);
    for i := 0 to |picked|
      invariant Unique(store.table) && RetriedFirst(files, before, store.batches, picked, i)
      invariant retried == WithFile(files, before, picked, i)
    {
      var ingested := RetryNext(store, files, chunkSize, picked, i, before);
      if ingested {
        retried := retried + 1;
      }
    }
    AllRetried(files, before, store.batches, picked);
  }

  // ---- Draining ----

  function Work(b: BatchUsage): nat {
    if Eligible(b) then MAX_USAGE_INGESTION_ATTEMPTS - b.attempts else 0
  }

  /** The retries still owed to the batches listed in `ids`. */
  function Backlog(batches: Batches, ids: seq<string>): nat {
    if ids == [] then 0
    else Backlog(batches, ids[..|ids| - 1]) + (if ids[|ids| - 1] in batches then Work(batches[ids[|ids| - 1]]) else 0)
  }

  /** How many of `ids` were picked. */
  function Picks(ids: seq<string>, picked: seq<string>): nat {
    if ids == [] then 0
    else Picks(ids[..|ids| - 1], picked) + (if ids[|ids| - 1] in picked then 1 else 0)
  }

  /** Every batch a sweep picks owes at least one retry less afterwards; no other batch owes more. */
  lemma {:induction false} SweepLowersBacklog(files: Files, before: Batches, picked: seq<string>, after: Batches, ids: seq<string>)
    requires SweepStep(files, before, picked, after)
    ensures Backlog(after, ids) + Picks(ids, picked) <= Backlog(before, ids)
  {
    if ids != [] {
      SweepLowersBacklog(files, before, picked, after, ids[..|ids| - 1]);
      var id := ids[|ids| - 1];
      if id in picked {
        var i :| 0 <= i < |picked| && picked[i] == id;
        assert Eligible(before[picked[i]]);
      }
    }
  }

  lemma {:induction false} PicksAreCounted(ids: seq<string>, picked: seq<string>, k: nat)
    requires k < |ids| && ids[k] in picked
    ensures Picks(ids, picked) >= 1
  {
    if k < |ids| - 1 {
      PicksAreCounted(ids[..|ids| - 1], picked, k);
    }
  }

  ghost predicate Lists(ids: seq<string>, batches: Batches) {
    forall id :: id in batches ==> id in ids
  }

  /** While anything is eligible, a sweep strictly lowers the backlog. */
  lemma EverySweepMakesProgress(files: Files, before: Batches, picked: seq<string>, after: Batches, ids: seq<string>)
    requires SweepStep(files, before, picked, after) && Lists(ids, before)
    ensures Backlog(after, ids) <= Backlog(before, ids)
    ensures (exists id :: id in before && Eligible(before[id])) ==> Backlog(after, ids) < Backlog(before, ids)
  {
    SweepLowersBacklog(files, before, picked, after, ids);
    if id :| id in before && Eligible(before[id]) {
      assert picked != [];
      assert picked[0] in ids;
      var k :| 0 <= k < |ids| && ids[k] == picked[0];
      PicksAreCounted(ids, picked, k);
    }
  }

  /** Consecutive sweeps with no upload in between and a database that accepts their writes. */
  ghost predicate IsQuietRun(files: Files, states: seq<Batches>, picks: seq<seq<string>>) {
    && |states| == |picks| + 1
    && forall i :: 0 <= i < |picks| ==> SweepStep(files, states[i], picks[i], states[i + 1])
  }

  lemma {:induction false} BacklogAfter(files: Files, states: seq<Batches>, picks: seq<seq<string>>, ids: seq<string>, n: nat)
    requires IsQuietRun(files, states, picks) && n < |states| && Lists(ids, states[0])
    ensures Lists(ids, states[n])
    ensures Backlog(states[n], ids) == 0 || Backlog(states[n], ids) + n <= Backlog(states[0], ids)
    ensures Backlog(states[n], ids) <= Backlog(states[0], ids)
  {
    if n > 0 {
      BacklogAfter(files, states, picks, ids, n - 1);
      assert SweepStep(files, states[n - 1], picks[n - 1], states[n]);
      EverySweepMakesProgress(files, states[n - 1], picks[n - 1], states[n], ids);
      if Backlog(states[n - 1], ids) > 0 {
        BacklogMeansEligible(states[n - 1], ids);
      }
    }
  }

  lemma {:induction false} BacklogMeansEligible(batches: Batches, ids: seq<string>)
    ensures Backlog(batches, ids) > 0 ==> exists id :: id in batches && Eligible(batches[id])
    ensures Backlog(batches, ids) == 0 ==> forall id :: id in ids && id in batches ==> !Eligible(batches[id])
  {
    if ids != [] {
      BacklogMeansEligible(batches, ids[..|ids| - 1]);
      assert ids == ids[..|ids| - 1] + [ids[|ids| - 1]];
    }
  }

  /** What a batch looks like after n sweeps, whichever of them picked it. */
  ghost predicate Reached(files: Files, before: BatchUsage, after: BatchUsage) {
    && after == before.(pending := after.pending, attempts := after.attempts, totals := after.totals)
    && before.attempts <= after.attempts
    && (before.pending && before.attempts < after.attempts ==>
          after.pending && Doomed(files, before) && after.attempts <= MAX_USAGE_INGESTION_ATTEMPTS)
    && (!before.pending ==> after == before)
    && (before.pending && !after.pending ==> !Doomed(files, before) && after.attempts == before.attempts)
  }

  lemma {:induction false} BatchAfter(files: Files, states: seq<Batches>, picks: seq<seq<string>>, id: string, n: nat)
    requires IsQuietRun(files, states, picks) && n < |states| && id in states[0]
    ensures id in states[n] && Reached(files, states[0][id], states[n][id])
  {
    if n > 0 {
      BatchAfter(files, states, picks, id, n - 1);
      assert SweepStep(files, states[n - 1], picks[n - 1], states[n]);
      if id in picks[n - 1] {
        var i :| 0 <= i < |picks[n - 1]| && picks[n - 1][i] == id;
        assert Eligible(states[n - 1][picks[n - 1][i]]);
      }
    }
  }

  /**
   After as many sweeps as the backlog is long, no retry is owed: a completed batch is still
   pending exactly if it was and had used up its attempts, or its file raises every time;
   so no batch waits for ever behind older failing ones.
   */
  lemma TheOutboxDrains(files: Files, states: seq<Batches>, picks: seq<seq<string>>, ids: seq<string>, id: string)
    requires IsQuietRun(files, states, picks) && Lists(ids, states[0]) && |picks| >= Backlog(states[0], ids)
    requires id in states[0] && states[0][id].completed
    ensures id in states[|picks|] && !Eligible(states[|picks|][id])
    ensures states[|picks|][id].pending <==>
            states[0][id].pending && (Doomed(files, states[0][id]) || states[0][id].attempts >= MAX_USAGE_INGESTION_ATTEMPTS)
  {
    BacklogAfter(files, states, picks, ids, |picks|);
    BacklogMeansEligible(states[|picks|], ids);
    BatchAfter(files, states, picks, id, |picks|);
    if states[0][id].attempts >= MAX_USAGE_INGESTION_ATTEMPTS {
      GivenUpStays(files, states, picks, id, |picks|);
    }
  }

  lemma {:induction false} GivenUpStays(files: Files, states: seq<Batches>, picks: seq<seq<string>>, id: string, n: nat)
    requires IsQuietRun(files, states, picks) && n < |states| && id in states[0] && !Eligible(states[0][id])
    ensures id in states[n] && states[n][id] == states[0][id]
  {
    if n > 0 {
      GivenUpStays(files, states, picks, id, n - 1);
      assert SweepStep(files, states[n - 1], picks[n - 1], states[n]);
    }
  }

  // ---- Sweeps while batches complete ----

  /** One retry, or one background run after an upload, that the database may have refused. */
  ghost predicate Retried(before: BatchUsage, after: BatchUsage) {
    after == before.(attempts := before.attempts + 1) || after == before.(pending := false, totals := after.totals)
  }

  ghost predicate BusySweep(before: Batches, picked: seq<string>, after: Batches) {
    && IsPick(before, picked, MAX_INGESTIONS_PER_SWEEP)
    && after.Keys == before.Keys
    && forall id :: id in before ==> if id in picked then Retried(before[id], after[id]) else after[id] == before[id]
  }

  /** Until the next sweep: completed batches stay, though their own runs may end or fail; others may complete. */
  ghost predicate Meanwhile(before: Batches, after: Batches) {
    forall id :: id in before && before[id].completed ==>
      id in after && (after[id] == before[id] || Retried(before[id], after[id]))
  }

  /** Sweep i leads from `states[i]` to `swept[i]`, and what happens until the next one to `states[i + 1]`. */
  ghost predicate IsRun(states: seq<Batches>, swept: seq<Batches>, picks: seq<seq<string>>) {
    && |states| == |picks| + 1 && |swept| == |picks|
    && forall i :: 0 <= i < |picks| ==> BusySweep(states[i], picks[i], swept[i]) && Meanwhile(swept[i], states[i + 1])
  }

  /** A sweep on a database that accepts its writes is one of these. */
  lemma SweepsAreBusySweeps(files: Files, before: Batches, picked: seq<string>, after: Batches)
    requires SweepStep(files, before, picked, after)
    ensures BusySweep(before, picked, after)
  {
  }

  /** How many sweeps of a run retried this batch. */
  function Retries(picks: seq<seq<string>>, id: string): nat {
    if picks == [] then 0
    else Retries(picks[..|picks| - 1], id) + (if id in picks[|picks| - 1] then 1 else 0)
  }

  /** The retries a batch can still get: one that is not completed may get them all. */
  function Owed(batches: Batches, id: string): nat {
    if id in batches && batches[id].completed then Work(batches[id]) else MAX_USAGE_INGESTION_ATTEMPTS
  }

  lemma PickedAreEligible(batches: Batches, picked: seq<string>, id: string)
    requires IsPick(batches, picked, MAX_INGESTIONS_PER_SWEEP) && id in picked
    ensures id in batches && Eligible(batches[id])
  {
    var i :| 0 <= i < |picked| && picked[i] == id;
  }

  lemma OneSweepLater(before: Batches, picked: seq<string>, swept: Batches, after: Batches, id: string)
    requires BusySweep(before, picked, swept) && Meanwhile(swept, after)
    ensures Owed(after, id) + (if id in picked then 1 else 0) <= Owed(before, id)
  {
    if id in picked {
      PickedAreEligible(before, picked, id);
    }
  }

  /**
   The sweeper retries a batch at most five times, over any run: whatever else completes, and
   whatever its own background runs and the database do.
   */
  lemma {:induction false} RetriesAreBounded(states: seq<Batches>, swept: seq<Batches>, picks: seq<seq<string>>, id: string)
    requires IsRun(states, swept, picks)
    ensures Retries(picks, id) + Owed(states[|picks|], id) <= Owed(states[0], id) <= MAX_USAGE_INGESTION_ATTEMPTS
  {
    if picks != [] {
      var n := |picks| - 1;
      RetriesAreBounded(states[..n + 1], swept[..n], picks[..n], id);
      OneSweepLater(states[n], picks[n], swept[n], states[n + 1], id);
    }
  }

  /** The retries owed to the listed batches that had completed by `c`. */
  function OlderBacklog(batches: Batches, ids: seq<string>, c: int): nat {
    if ids == [] then 0
    else OlderBacklog(batches, ids[..|ids| - 1], c) + OlderWork(batches, ids[|ids| - 1], c)
  }

  predicate IsOlder(batches: Batches, id: string, c: int) {
    id in batches && batches[id].completed && batches[id].completedAt <= c
  }

  function OlderWork(batches: Batches, id: string, c: int): nat {
    if IsOlder(batches, id, c) then Work(batches[id]) else 0
  }

  /** Every batch that completes in between completes after `c`. */
  ghost predicate NewcomersAreNewer(before: Batches, after: Batches, c: int) {
    forall id :: IsOlder(after, id, c) ==> id in before && before[id].completed
  }

  ghost predicate ListsOlder(ids: seq<string>, batches: Batches, c: int) {
    forall id :: IsOlder(batches, id, c) ==> id in ids
  }

  lemma OlderStayOlder(before: Batches, picked: seq<string>, swept: Batches, after: Batches, id: string, c: int)
    requires BusySweep(before, picked, swept) && Meanwhile(swept, after) && NewcomersAreNewer(swept, after, c)
    ensures IsOlder(after, id, c) <==> IsOlder(before, id, c)
    ensures OlderWork(after, id, c) <= OlderWork(before, id, c)
    ensures id in picked && IsOlder(before, id, c) ==> OlderWork(after, id, c) < OlderWork(before, id, c)
  {
    if id in picked {
      PickedAreEligible(before, picked, id);
    }
  }

  lemma {:induction false} OlderBacklogFalls(before: Batches, picked: seq<string>, swept: Batches, after: Batches,
                                             ids: seq<string>, c: int)
    requires BusySweep(before, picked, swept) && Meanwhile(swept, after) && NewcomersAreNewer(swept, after, c)
    ensures OlderBacklog(after, ids, c) <= OlderBacklog(before, ids, c)
    ensures (exists id :: id in ids && id in picked && IsOlder(before, id, c)) ==>
              OlderBacklog(after, ids, c) < OlderBacklog(before, ids, c)
  {
    if ids != [] {
      var init, last := ids[..|ids| - 1], ids[|ids| - 1];
      OlderBacklogFalls(before, picked, swept, after, init, c);
      OlderStayOlder(before, picked, swept, after, last, c);
      assert ids == init + [last];
    }
  }

  /** While an old batch is eligible, a sweep picks one that is at least as old. */
  lemma OldestFirst(batches: Batches, picked: seq<string>, id: string, c: int)
    requires IsPick(batches, picked, MAX_INGESTIONS_PER_SWEEP) && IsOlder(batches, id, c) && Eligible(batches[id])
    ensures exists other :: other in picked && IsOlder(batches, other, c)
  {
    if id !in picked {
      assert picked[0] in picked && IsOlder(batches, picked[0], c);
    }
  }

  lemma {:induction false} OlderBacklogAfter(states: seq<Batches>, swept: seq<Batches>, picks: seq<seq<string>>,
                                             ids: seq<string>, id: string, c: int, n: nat)
    requires IsRun(states, swept, picks) && n < |states| && ListsOlder(ids, states[0], c) && IsOlder(states[0], id, c)
    requires forall i :: 0 <= i < |picks| ==> NewcomersAreNewer(swept[i], states[i + 1], c)
    ensures ListsOlder(ids, states[n], c) && IsOlder(states[n], id, c)
    ensures !Eligible(states[n][id]) || OlderBacklog(states[n], ids, c) + n <= OlderBacklog(states[0], ids, c)
  {
    if n > 0 {
      OlderBacklogAfter(states, swept, picks, ids, id, c, n - 1);
      var before, after := states[n - 1], states[n];
      assert BusySweep(before, picks[n - 1], swept[n - 1]) && Meanwhile(swept[n - 1], after) && NewcomersAreNewer(swept[n - 1], after, c);
      forall other ensures IsOlder(after, other, c) <==> IsOlder(before, other, c) {
        OlderStayOlder(before, picks[n - 1], swept[n - 1], after, other, c);
      }
      OlderStayOlder(before, picks[n - 1], swept[n - 1], after, id, c);
      OlderBacklogFalls(before, picks[n - 1], swept[n - 1], after, ids, c);
      if Eligible(before[id]) {
        OldestFirst(before, picks[n - 1], id, c);
      }
    }
  }

  lemma {:induction false} OwnWorkCounts(batches: Batches, ids: seq<string>, id: string, c: int)
    requires id in ids
    ensures OlderWork(batches, id, c) <= OlderBacklog(batches, ids, c)
  {
    var init, last := ids[..|ids| - 1], ids[|ids| - 1];
    assert ids == init + [last];
    if last != id {
      OwnWorkCounts(batches, init, id, c);
    }
  }

  /**
   Newer batches never starve an older one: after as many sweeps as there were retries owed to
   the batches completed by then, its usage is ingested or it has been given up, however many
   batches complete later.
   */
  lemma OldBatchesAreNotStarved(states: seq<Batches>, swept: seq<Batches>, picks: seq<seq<string>>, ids: seq<string>, id: string)
    requires IsRun(states, swept, picks) && id in states[0] && states[0][id].completed
    requires ListsOlder(ids, states[0], states[0][id].completedAt)
    requires forall i :: 0 <= i < |picks| ==> NewcomersAreNewer(swept[i], states[i + 1], states[0][id].completedAt)
    requires |picks| >= OlderBacklog(states[0], ids, states[0][id].completedAt)
    ensures id in states[|picks|] && states[|picks|][id].completed && !Eligible(states[|picks|][id])
  {
    var c, n := states[0][id].completedAt, |picks|;
    OlderBacklogAfter(states, swept, picks, ids, id, c, n);
    OwnWorkCounts(states[n], ids, id, c);
  }
}
