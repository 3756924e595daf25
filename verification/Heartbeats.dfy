/**
 One heartbeat over a worker's runtimes and rows (backend/routers/workers.py):
 liveness, loaded flags, models never seen before, the inventory pass, and the
 counter that takes a runtime's models out after two empty reports.
 */
module Heartbeats {
  import opened Options
  import opened KeyedRows
  import opened Catalogue
  import opened Reconciliation
  import opened InventoryTheorems

  const EMPTY_BEATS_BEFORE_DELISTING: nat := 2

  /** `unknown` is the reported names no row has, in the arbitrary order of a Python set. */
  datatype Beat = Beat(liveness: seq<(string, RuntimeStatus)>, loaded: seq<string>, unknown: seq<string>, items: seq<Item>)

  // ---- Liveness and loaded flags ----

  /** The last of the first `n` runtimes with this engine. */
  function LastWith(runtimes: seq<Runtime>, engine: string, n: nat): (k: Option<nat>)
    requires n <= |runtimes|
    ensures k.Some? ==> k.value < n
  {
    if n == 0 then None
    else if runtimes[n - 1].engine == engine then Some(n - 1)
    else LastWith(runtimes, engine, n - 1)
  }

  /** An observation of one runtime; an operator's drain stands. */
  function Observe(runtimes: seq<Runtime>, report: (string, RuntimeStatus)): seq<Runtime> {
    match LastWith(runtimes, report.0, |runtimes|)
    case Some(k) => if runtimes[k].status == DrainingRuntime then runtimes else runtimes[k := runtimes[k].(status := report.1)]
    case None => runtimes
  }

  function ObserveAll(runtimes: seq<Runtime>, liveness: seq<(string, RuntimeStatus)>): seq<Runtime> {
    if liveness == [] then runtimes else Observe(ObserveAll(runtimes, liveness[..|liveness| - 1]), liveness[|liveness| - 1])
  }

  function WithLoaded(models: Rows<string, ModelRow>, loaded: seq<string>): (r: Rows<string, ModelRow>)
    ensures |r| == |models|
  {
    seq(|models|, i requires 0 <= i < |models| => (models[i].0, models[i].1.(loaded := models[i].0 in loaded)))
  }

  function FlagAll(runtimes: seq<Runtime>, loaded: seq<string>): (r: seq<Runtime>)
    ensures |r| == |runtimes|
  {
    seq(|runtimes|, k requires 0 <= k < |runtimes| => runtimes[k].(models := WithLoaded(runtimes[k].models, loaded)))
  }

  // ---- Models never seen before ----

  predicate IsKnown(runtimes: seq<Runtime>, name: string) {
    exists rt :: rt in runtimes && Find(rt.models, name).Some?
  }

  /** The runtime tag the same beat's inventory puts on a name: the last one counts, "" when none does. */
  function TagOf(items: seq<Item>, name: string): string {
    if items == [] then ""
    else if items[|items| - 1].name == name && items[|items| - 1].runtime != "" then items[|items| - 1].runtime
    else TagOf(items[..|items| - 1], name)
  }

  function FirstWith(runtimes: seq<Runtime>, engine: string, i: nat): (k: Option<nat>)
    requires i <= |runtimes|
    ensures k.Some? ==> i <= k.value < |runtimes| && runtimes[k.value].engine == engine
    decreases |runtimes| - i
  {
    if i == |runtimes| then None
    else if runtimes[i].engine == engine then Some(i)
    else FirstWith(runtimes, engine, i + 1)
  }

  /** Where a new row goes: the tagged runtime of a mixed worker, else the first. */
  function HomeOf(runtimes: seq<Runtime>, items: seq<Item>, name: string): (k: nat)
    requires runtimes != []
    ensures k < |runtimes|
  {
    var tag := TagOf(items, name);
    if |runtimes| == 1 || tag == "" || FirstWith(runtimes, tag, 0).None? then 0 else FirstWith(runtimes, tag, 0).value
  }

  function AddRow(reg: Registry, runtimes: seq<Runtime>, items: seq<Item>, name: string): (r: seq<Runtime>)
    requires runtimes != []
    ensures |r| == |runtimes|
  {
    var k := HomeOf(runtimes, items, name);
    runtimes[k := runtimes[k].(models := runtimes[k].models + [(name, Judged(reg, name, NO_EVIDENCE, true))])]
  }

  function AddRows(reg: Registry, runtimes: seq<Runtime>, items: seq<Item>, names: seq<string>): (r: seq<Runtime>)
    ensures |r| == |runtimes|
  {
    if names == [] || runtimes == [] then runtimes
    else AddRow(reg, AddRows(reg, runtimes, items, names[..|names| - 1]), items, names[|names| - 1])
  }

  // ---- The empty-beat counter ----

  predicate ReportsEngine(items: seq<Item>, engine: string) {
    exists i :: i in items && i.runtime == engine && i.runtime != ""
  }

  predicate ReportsSome(items: seq<Item>) {
    exists i :: i in items && i.runtime != ""
  }

  predicate HearsFrom(liveness: seq<(string, RuntimeStatus)>, engine: string) {
    exists r :: r in liveness && r.0 == engine
  }

  /** A beat says something about a runtime's artifacts: it hears the runtime, and some runtime lists any. */
  predicate Eligible(b: Beat, engine: string) {
    HearsFrom(b.liveness, engine) && ReportsSome(b.items)
  }

  function Delisted(models: Rows<string, ModelRow>): (r: Rows<string, ModelRow>)
    ensures |r| == |models|
  {
    seq(|models|, i requires 0 <= i < |models| =>
      if models[i].1.status == Available then (models[i].0, models[i].1.(status := Missing)) else models[i])
  }

  function CountBeat(rt: Runtime, b: Beat): Runtime {
    if !Eligible(b, rt.engine) then rt
    else if ReportsEngine(b.items, rt.engine) then rt.(emptyBeats := 0)
    else if rt.emptyBeats + 1 < EMPTY_BEATS_BEFORE_DELISTING then rt.(emptyBeats := rt.emptyBeats + 1)
    else rt.(emptyBeats := rt.emptyBeats + 1, models := Delisted(rt.models))
  }

  function CountAll(runtimes: seq<Runtime>, b: Beat): (r: seq<Runtime>)
    ensures |r| == |runtimes|
  {
    seq(|runtimes|, k requires 0 <= k < |runtimes| => CountBeat(runtimes[k], b))
  }

  // ---- The whole heartbeat ----

  function BeforeInventory(reg: Registry, runtimes: seq<Runtime>, b: Beat): seq<Runtime> {
    AddRows(reg, FlagAll(ObserveAll(runtimes, b.liveness), b.loaded), b.items, b.unknown)
  }

  function Heartbeat(reg: Registry, runtimes: seq<Runtime>, b: Beat): (Registry, seq<Runtime>) {
    var (reg1, runtimes1) := ApplyInventory(reg, BeforeInventory(reg, runtimes, b), b.items);
    (reg1, CountAll(runtimes1, b))
  }

  ghost predicate Legal(runtimes: seq<Runtime>, b: Beat) {
    && (forall i, j :: 0 <= i < j < |b.unknown| ==> b.unknown[i] != b.unknown[j])
    && (forall name :: name in b.unknown <==> name in b.loaded && !IsKnown(runtimes, name))
  }

  // ---- As it is written ----

  method TakeLiveness(rows: WorkerRows, liveness: seq<(string, RuntimeStatus)>)
    modifies rows`runtimes
    ensures rows.runtimes == ObserveAll(old(rows.runtimes), liveness)
  {
    for i := 0 to |liveness|
      invariant rows.runtimes == ObserveAll(old(rows.runtimes), liveness[..i])
    {
      assert liveness[..i + 1][..i] == liveness[..i];
      var k := LastWith(rows.runtimes, liveness[i].0, |rows.runtimes|);
      if k.Some? && rows.runtimes[k.value].status != DrainingRuntime {
        rows.runtimes := rows.runtimes[k.value := rows.runtimes[k.value].(status := liveness[i].1)];
      }
    }
    assert liveness[..|liveness|] == liveness;
  }

  method FlagRows(stored: Rows<string, ModelRow>, loaded: seq<string>) returns (models: Rows<string, ModelRow>)
    ensures models == WithLoaded(stored, loaded)
  {
    models := stored;
    for i := 0 to |models|
      invariant |models| == |stored|
      invariant forall j :: 0 <= j < i ==> models[j] == WithLoaded(stored, loaded)[j]
      invariant forall j :: i <= j < |models| ==> models[j] == stored[j]
    {
      var (name, row) := models[i];
      models := models[i := (name, row.(loaded := name in loaded))];
    }
  }

  method TakeLoaded(rows: WorkerRows, loaded: seq<string>)
    modifies rows`runtimes
    ensures rows.runtimes == FlagAll(old(rows.runtimes), loaded)
  {
    ghost var before := rows.runtimes;
    for k := 0 to |rows.runtimes|
      invariant |rows.runtimes| == |before|
      invariant forall j :: 0 <= j < k ==> rows.runtimes[j] == FlagAll(before, loaded)[j]
      invariant forall j :: k <= j < |before| ==> rows.runtimes[j] == before[j]
    {
      var models := FlagRows(rows.runtimes[k].models, loaded);
      rows.runtimes := rows.runtimes[k := rows.runtimes[k].(models := models)];
    }
  }

  method AddUnknown(rows: WorkerRows, items: seq<Item>, names: seq<string>)
    modifies rows`runtimes
    ensures rows.runtimes == AddRows(rows.registry, old(rows.runtimes), items, names)
  {
    if rows.runtimes == [] {
      return;
    }
    for i := 0 to |names|
      invariant rows.runtimes == AddRows(rows.registry, old(rows.runtimes), items, names[..i]) && rows.runtimes != []
    {
      assert names[..i + 1][..i] == names[..i];
      var k := HomeOf(rows.runtimes, items, names[i]);
      var (status, entry) := Classify(rows.registry, names[i], "");
      var row := ModelRow("", status, entry, true, NO_FACTS);
      rows.runtimes := rows.runtimes[k := rows.runtimes[k].(models := rows.runtimes[k].models + [(names[i], row)])];
    }
    assert names[..|names|] == names;
  }

  method DelistRows(stored: Rows<string, ModelRow>) returns (models: Rows<string, ModelRow>)
    ensures models == Delisted(stored)
  {
    models := stored;
    for i := 0 to |models|
      invariant |models| == |stored|
      invariant forall j :: 0 <= j < i ==> models[j] == Delisted(stored)[j]
      invariant forall j :: i <= j < |models| ==> models[j] == stored[j]
    {
      if models[i].1.status == Available {
        models := models[i := (models[i].0, models[i].1.(status := Missing))];
      }
    }
  }

  method CountRuntime(stored: Runtime, b: Beat) returns (rt: Runtime)
    ensures rt == CountBeat(stored, b)
  {
    rt := stored;
    if !HearsFrom(b.liveness, rt.engine) || !ReportsSome(b.items) {
      return;
    }
    if ReportsEngine(b.items, rt.engine) {
      rt := rt.(emptyBeats := 0);
      return;
    }
    rt := rt.(emptyBeats := rt.emptyBeats + 1);
    if rt.emptyBeats >= EMPTY_BEATS_BEFORE_DELISTING {
      var models := DelistRows(rt.models);
      rt := rt.(models := models);
    }
  }

  method CountEmptyBeats(rows: WorkerRows, b: Beat)
    modifies rows`runtimes
    ensures rows.runtimes == CountAll(old(rows.runtimes), b)
  {
    ghost var before := rows.runtimes;
    for k := 0 to |rows.runtimes|
      invariant |rows.runtimes| == |before|
      invariant forall j :: 0 <= j < k ==> rows.runtimes[j] == CountBeat(before[j], b)
      invariant forall j :: k <= j < |before| ==> rows.runtimes[j] == before[j]
    {
      var rt := CountRuntime(rows.runtimes[k], b);
      rows.runtimes := rows.runtimes[k := rt];
    }
  }

  /** `worker_heartbeat`, as far as it changes runtimes, their rows and the catalogue. */
  method WorkerHeartbeat(rows: WorkerRows, b: Beat)
    modifies rows
    ensures (rows.registry, rows.runtimes) == Heartbeat(old(rows.registry), old(rows.runtimes), b)
  {
    TakeLiveness(rows, b.liveness);
    TakeLoaded(rows, b.loaded);
    AddUnknown(rows, b.items, b.unknown);
    rows.ReportInventory(b.items);
    CountEmptyBeats(rows, b);
  }

  // ---- What a heartbeat keeps ----

  ghost predicate SameShape(a: seq<Runtime>, b: seq<Runtime>) {
    |a| == |b| && forall k :: 0 <= k < |a| ==> a[k].engine == b[k].engine && a[k].emptyBeats == b[k].emptyBeats
  }

  lemma {:induction false} ObservingKeepsShape(runtimes: seq<Runtime>, liveness: seq<(string, RuntimeStatus)>)
    ensures SameShape(runtimes, ObserveAll(runtimes, liveness))
    ensures forall k :: 0 <= k < |runtimes| ==>
              ObserveAll(runtimes, liveness)[k].models == runtimes[k].models
              && (runtimes[k].status == DrainingRuntime ==> ObserveAll(runtimes, liveness)[k].status == DrainingRuntime)
  {
    if liveness != [] {
      ObservingKeepsShape(runtimes, liveness[..|liveness| - 1]);
    }
  }

  lemma {:induction false} AddingKeepsShape(reg: Registry, runtimes: seq<Runtime>, items: seq<Item>, names: seq<string>)
    ensures SameShape(runtimes, AddRows(reg, runtimes, items, names))
    ensures forall k :: 0 <= k < |runtimes| ==> AddRows(reg, runtimes, items, names)[k].status == runtimes[k].status
  {
    if names != [] && runtimes != [] {
      AddingKeepsShape(reg, runtimes, items, names[..|names| - 1]);
    }
  }

  /** Up to the inventory a runtime keeps engine and counter, and a drain stands. */
  predicate KeepsRuntime(a: Runtime, b: Runtime) {
    b.engine == a.engine && b.emptyBeats == a.emptyBeats && (a.status == DrainingRuntime ==> b.status == DrainingRuntime)
  }

  lemma BeforeInventoryKeepsRuntime(reg: Registry, runtimes: seq<Runtime>, b: Beat, k: nat)
    requires k < |runtimes|
    ensures |BeforeInventory(reg, runtimes, b)| == |runtimes| && KeepsRuntime(runtimes[k], BeforeInventory(reg, runtimes, b)[k])
  {
    var observed := ObserveAll(runtimes, b.liveness);
    ObservingKeepsShape(runtimes, b.liveness);
    assert KeepsRuntime(runtimes[k], FlagAll(observed, b.loaded)[k]);
    AddingKeepsShape(reg, FlagAll(observed, b.loaded), b.items, b.unknown);
  }

  lemma InventoryKeepsRuntime(reg: Registry, runtimes: seq<Runtime>, items: seq<Item>, k: nat)
    requires k < |runtimes|
    ensures |ApplyInventory(reg, runtimes, items).1| == |runtimes| && KeepsRuntime(runtimes[k], ApplyInventory(reg, runtimes, items).1[k])
  {
  }

  /** Every runtime keeps its place; its counter moves as this beat says, and a drain stands. */
  lemma HeartbeatMovesCounters(reg: Registry, runtimes: seq<Runtime>, b: Beat, k: nat)
    requires k < |runtimes|
    ensures |Heartbeat(reg, runtimes, b).1| == |runtimes|
    ensures var after := Heartbeat(reg, runtimes, b).1[k];
            && after.engine == runtimes[k].engine
            && after.emptyBeats == NextCount(b, runtimes[k].engine, runtimes[k].emptyBeats)
            && (runtimes[k].status == DrainingRuntime ==> after.status == DrainingRuntime)
  {
    BeforeInventoryKeepsRuntime(reg, runtimes, b, k);
    InventoryKeepsRuntime(reg, BeforeInventory(reg, runtimes, b), b.items, k);
  }

  function NextCount(b: Beat, engine: string, count: nat): nat {
    if !Eligible(b, engine) then count else if ReportsEngine(b.items, engine) then 0 else count + 1
  }

  // ---- Rows stay unique ----

  lemma FlaggingKeepsRows(runtimes: seq<Runtime>, loaded: seq<string>)
    requires UniqueRows(runtimes)
    ensures UniqueRows(FlagAll(runtimes, loaded))
    ensures forall name :: IsKnown(FlagAll(runtimes, loaded), name) ==> IsKnown(runtimes, name)
  {
    var after := FlagAll(runtimes, loaded);
    forall name | IsKnown(after, name) ensures IsKnown(runtimes, name) {
      var rt :| rt in after && Find(rt.models, name).Some?;
      var k :| 0 <= k < |after| && after[k] == rt;
      FindMeansMember(rt.models, name);
      assert KeysOf(rt.models) == KeysOf(runtimes[k].models);
      FindMeansMember(runtimes[k].models, name);
      assert runtimes[k] in runtimes;
    }
  }

  lemma AddingOneKeepsUnique(reg: Registry, runtimes: seq<Runtime>, items: seq<Item>, name: string)
    requires runtimes != [] && UniqueRows(runtimes) && !IsKnown(runtimes, name)
    ensures UniqueRows(AddRow(reg, runtimes, items, name))
    ensures forall other :: IsKnown(AddRow(reg, runtimes, items, name), other) ==> other == name || IsKnown(runtimes, other)
  {
    var k := HomeOf(runtimes, items, name);
    var row := (name, Judged(reg, name, NO_EVIDENCE, true));
    var old_, after := runtimes[k].models, AddRow(reg, runtimes, items, name);
    assert runtimes[k] in runtimes;
    FindMeansMember(old_, name);
    assert forall i :: 0 <= i < |old_| ==> KeysOf(old_)[i] == old_[i].0;
    assert Unique(old_ + [row]);
    forall other | IsKnown(after, other) && other != name ensures IsKnown(runtimes, other) {
      var rt :| rt in after && Find(rt.models, other).Some?;
      var j :| 0 <= j < |after| && after[j] == rt;
      if j == k {
        FindMeansMember(old_ + [row], other);
        FindMeansMember(old_, other);
        assert KeysOf(old_ + [row]) == KeysOf(old_) + [name];
      }
      assert runtimes[j] in runtimes;
    }
  }

  lemma {:induction false} AddingKeepsUnique(reg: Registry, runtimes: seq<Runtime>, items: seq<Item>, names: seq<string>)
    requires UniqueRows(runtimes)
    requires forall i, j :: 0 <= i < j < |names| ==> names[i] != names[j]
    requires forall name :: name in names ==> !IsKnown(runtimes, name)
    ensures UniqueRows(AddRows(reg, runtimes, items, names))
    ensures forall other :: IsKnown(AddRows(reg, runtimes, items, names), other) ==> other in names || IsKnown(runtimes, other)
  {
    if names != [] && runtimes != [] {
      var init, last := names[..|names| - 1], names[|names| - 1];
      assert forall name :: name in init ==> name in names;
      AddingKeepsUnique(reg, runtimes, items, init);
      assert last !in init;
      assert last in names;
      AddingOneKeepsUnique(reg, AddRows(reg, runtimes, items, init), items, last);
    }
  }

  /** No heartbeat gives a runtime two rows of one name. */
  lemma HeartbeatKeepsRowsUnique(reg: Registry, runtimes: seq<Runtime>, b: Beat)
    requires UniqueRows(runtimes) && Legal(runtimes, b)
    ensures UniqueRows(Heartbeat(reg, runtimes, b).1)
  {
    var observed := ObserveAll(runtimes, b.liveness);
    ObservingKeepsShape(runtimes, b.liveness);
    ObservedRows(runtimes, observed);
    FlaggingKeepsRows(observed, b.loaded);
    AddingKeepsUnique(reg, FlagAll(observed, b.loaded), b.items, b.unknown);
    InventoryKeepsRowsUnique(reg, BeforeInventory(reg, runtimes, b), b.items);
  }

  lemma ObservedRows(runtimes: seq<Runtime>, observed: seq<Runtime>)
    requires |runtimes| == |observed| && forall k :: 0 <= k < |runtimes| ==> observed[k].models == runtimes[k].models
    ensures forall name :: IsKnown(observed, name) ==> IsKnown(runtimes, name)
  {
    forall name | IsKnown(observed, name) ensures IsKnown(runtimes, name) {
      var rt :| rt in observed && Find(rt.models, name).Some?;
      var k :| 0 <= k < |observed| && observed[k] == rt;
      assert runtimes[k] in runtimes;
    }
  }

  // ---- Runs of heartbeats ----

  /** The runtimes after a run of heartbeats, each against the catalogue of its moment. */
  function Run(runtimes: seq<Runtime>, beats: seq<(Registry, Beat)>): seq<Runtime> {
    if beats == [] then runtimes
    else
      var (reg, b) := beats[|beats| - 1];
      Heartbeat(reg, Run(runtimes, beats[..|beats| - 1]), b).1
  }

  predicate IsEmptyBeat(b: Beat, engine: string) {
    Eligible(b, engine) && !ReportsEngine(b.items, engine)
  }

  predicate IsFullBeat(b: Beat, engine: string) {
    Eligible(b, engine) && ReportsEngine(b.items, engine)
  }

  /** The beats from index `from` on that were eligible and empty for an engine. */
  function EmptyBeats(beats: seq<(Registry, Beat)>, engine: string, from: nat): (indices: set<nat>)
  {
    set i: nat | from <= i < |beats| && IsEmptyBeat(beats[i].1, engine)
  }

  /** `from` is just after the engine's last eligible beat that listed artifacts, or the start. */
  ghost predicate SinceLastFull(beats: seq<(Registry, Beat)>, engine: string, from: nat) {
    && from <= |beats|
    && (from > 0 ==> IsFullBeat(beats[from - 1].1, engine))
    && (forall i :: from <= i < |beats| ==> !IsFullBeat(beats[i].1, engine))
  }

  lemma EmptyBeatsSnoc(beats: seq<(Registry, Beat)>, engine: string, from: nat)
    requires beats != [] && from < |beats|
    ensures EmptyBeats(beats, engine, from) ==
            EmptyBeats(beats[..|beats| - 1], engine, from) + if IsEmptyBeat(beats[|beats| - 1].1, engine) then {|beats| - 1} else {}
    ensures |beats| - 1 !in EmptyBeats(beats[..|beats| - 1], engine, from)
  {
  }

  function CountAfter(beats: seq<(Registry, Beat)>, engine: string): nat {
    if beats == [] then 0 else NextCount(beats[|beats| - 1].1, engine, CountAfter(beats[..|beats| - 1], engine))
  }

  lemma {:induction false} CountersOverARun(runtimes: seq<Runtime>, beats: seq<(Registry, Beat)>, k: nat)
    requires k < |runtimes| && runtimes[k].emptyBeats == 0
    ensures |Run(runtimes, beats)| == |runtimes| && Run(runtimes, beats)[k].engine == runtimes[k].engine
    ensures Run(runtimes, beats)[k].emptyBeats == CountAfter(beats, runtimes[k].engine)
  {
    if beats != [] {
      var init, last := beats[..|beats| - 1], beats[|beats| - 1];
      CountersOverARun(runtimes, init, k);
      HeartbeatMovesCounters(last.0, Run(runtimes, init), last.1, k);
    }
  }

  lemma {:induction false} CountIsSinceLastFull(beats: seq<(Registry, Beat)>, engine: string) returns (from: nat)
    ensures SinceLastFull(beats, engine, from) && CountAfter(beats, engine) == |EmptyBeats(beats, engine, from)|
  {
    from := 0;
    if beats == [] {
      assert EmptyBeats(beats, engine, 0) == {};
    } else {
      var init, last := beats[..|beats| - 1], beats[|beats| - 1];
      from := CountIsSinceLastFull(init, engine);
      if IsFullBeat(last.1, engine) {
        from := |beats|;
        assert EmptyBeats(beats, engine, from) == {};
      } else {
        EmptyBeatsSnoc(beats, engine, from);
        assert forall i :: from <= i < |init| ==> init[i] == beats[i];
      }
    }
  }

  /**
   Since registration, a runtime's counter is the number of eligible empty beats since its last
   eligible beat that listed artifacts; other beats neither count nor reset.
   */
  lemma CounterCountsEmptyBeats(runtimes: seq<Runtime>, beats: seq<(Registry, Beat)>, k: nat)
    requires k < |runtimes| && runtimes[k].emptyBeats == 0
    ensures k < |Run(runtimes, beats)|
    ensures exists from: nat :: SinceLastFull(beats, runtimes[k].engine, from)
              && Run(runtimes, beats)[k].emptyBeats == |EmptyBeats(beats, runtimes[k].engine, from)|
  {
    CountersOverARun(runtimes, beats, k);
    var from := CountIsSinceLastFull(beats, runtimes[k].engine);
  }

  /** Counting takes a model out exactly when it was available and this was at least the second empty beat. */
  lemma DelistingNeedsTwoEmptyBeats(rt: Runtime, b: Beat, i: nat)
    requires i < |rt.models|
    ensures |CountBeat(rt, b).models| == |rt.models| && CountBeat(rt, b).models[i].0 == rt.models[i].0
    ensures CountBeat(rt, b).models[i] != rt.models[i] <==>
            rt.models[i].1.status == Available && IsEmptyBeat(b, rt.engine) && CountBeat(rt, b).emptyBeats >= EMPTY_BEATS_BEFORE_DELISTING
    ensures CountBeat(rt, b).models[i] != rt.models[i] ==> CountBeat(rt, b).models[i].1 == rt.models[i].1.(status := Missing)
  {
  }

  /** Two different eligible empty beats with no listing of the engine in between. */
  ghost predicate SilentTwice(beats: seq<(Registry, Beat)>, engine: string) {
    exists m, n :: 0 <= m < n < |beats| && IsEmptyBeat(beats[m].1, engine) && IsEmptyBeat(beats[n].1, engine)
                   && forall j :: m <= j <= n ==> !IsFullBeat(beats[j].1, engine)
  }

  lemma TwoMembers(s: set<nat>) returns (m: nat, n: nat)
    requires |s| >= 2
    ensures m in s && n in s && m < n
  {
    var x :| x in s;
    assert |s - {x}| >= 1;
    var y :| y in s - {x};
    m, n := if x < y then x else y, if x < y then y else x;
  }

  lemma TwoEmptyBeats(beats: seq<(Registry, Beat)>, engine: string)
    requires CountAfter(beats, engine) >= 2
    ensures SilentTwice(beats, engine)
  {
    var from := CountIsSinceLastFull(beats, engine);
    var m, n := TwoMembers(EmptyBeats(beats, engine, from));
    assert IsEmptyBeat(beats[m].1, engine) && IsEmptyBeat(beats[n].1, engine);
  }

  /** So over a run since registration, counting takes a model out only when its runtime was silent twice. */
  lemma DelistedModelsWereSilentTwice(runtimes: seq<Runtime>, beats: seq<(Registry, Beat)>, reg: Registry, b: Beat, k: nat, i: nat)
    requires k < |runtimes| && runtimes[k].emptyBeats == 0
    requires var listed := ApplyInventory(reg, BeforeInventory(reg, Run(runtimes, beats), b), b.items).1;
             k < |listed| && i < |listed[k].models| && CountBeat(listed[k], b).models[i] != listed[k].models[i]
    ensures SilentTwice(beats + [(reg, b)], runtimes[k].engine)
  {
    var all := beats + [(reg, b)];
    assert all[..|beats|] == beats;
    CountersOverARun(runtimes, beats, k);
    HeartbeatMovesCounters(reg, Run(runtimes, beats), b, k);
    var listed := ApplyInventory(reg, BeforeInventory(reg, Run(runtimes, beats), b), b.items).1;
    DelistingNeedsTwoEmptyBeats(listed[k], b, i);
    assert Heartbeat(reg, Run(runtimes, beats), b).1[k] == CountBeat(listed[k], b);
    TwoEmptyBeats(all, runtimes[k].engine);
  }
}
