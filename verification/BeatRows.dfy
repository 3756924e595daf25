/**
 What a heartbeat leaves of each runtime and row (backend/routers/workers.py), from the beat,
 the rows as they were and the catalogue alone.
 */
module BeatRows {
  import opened Options
  import opened KeyedRows
  import opened Catalogue
  import opened Reconciliation
  import opened InventoryTheorems
  import opened ReportedRows
  import opened Heartbeats

  // ---- Liveness ----

  /** Of several runtimes of one engine, the last is the one observed. */
  ghost predicate IsObserved(runtimes: seq<Runtime>, k: nat) {
    k < |runtimes| && forall j | k < j < |runtimes| :: runtimes[j].engine != runtimes[k].engine
  }

  /** The last report about the engine counts, until one of them, or the operator before, drains it. */
  ghost predicate IsStatusAfter(was: RuntimeStatus, engine: string, liveness: seq<(string, RuntimeStatus)>, now: RuntimeStatus) {
    if was == DrainingRuntime || IsDrained(liveness, engine) then now == DrainingRuntime
    else if !IsHeardOf(liveness, engine) then now == was
    else exists i :: IsLastReport(liveness, engine, now, i)
  }

  ghost predicate IsLastReport(liveness: seq<(string, RuntimeStatus)>, engine: string, status: RuntimeStatus, i: int) {
    0 <= i < |liveness| && liveness[i] == (engine, status) && forall j | i < j < |liveness| :: liveness[j].0 != engine
  }

  lemma {:induction false} LastWithMeans(runtimes: seq<Runtime>, engine: string, n: nat)
    requires n <= |runtimes|
    ensures match LastWith(runtimes, engine, n)
            case Some(k) => runtimes[k].engine == engine && forall j | k < j < n :: runtimes[j].engine != engine
            case None => forall j | 0 <= j < n :: runtimes[j].engine != engine
  {
    if n > 0 && runtimes[n - 1].engine != engine {
      LastWithMeans(runtimes, engine, n - 1);
    }
  }

  lemma ObserveMeans(runtimes: seq<Runtime>, report: (string, RuntimeStatus), k: nat)
    requires k < |runtimes|
    ensures |Observe(runtimes, report)| == |runtimes|
    ensures Observe(runtimes, report)[k] ==
            if IsObserved(runtimes, k) && runtimes[k].engine == report.0 && runtimes[k].status != DrainingRuntime
            then runtimes[k].(status := report.1) else runtimes[k]
  {
    LastWithMeans(runtimes, report.0, |runtimes|);
  }

  lemma {:induction false} StatusesAfter(runtimes: seq<Runtime>, liveness: seq<(string, RuntimeStatus)>, k: nat)
    requires k < |runtimes|
    ensures |ObserveAll(runtimes, liveness)| == |runtimes|
    ensures var after := ObserveAll(runtimes, liveness)[k];
            && after == runtimes[k].(status := after.status)
            && if IsObserved(runtimes, k) then IsStatusAfter(runtimes[k].status, runtimes[k].engine, liveness, after.status)
               else after.status == runtimes[k].status
  {
    if liveness != [] {
      var init, last := liveness[..|liveness| - 1], liveness[|liveness| - 1];
      var before := ObserveAll(runtimes, init);
      StatusesAfter(runtimes, init, k);
      ObservingKeepsShape(runtimes, init);
      assert IsObserved(before, k) <==> IsObserved(runtimes, k);
      ObserveMeans(before, last, k);
      if IsObserved(runtimes, k) {
        StatusSnoc(runtimes[k].status, runtimes[k].engine, init, last, before[k].status);
      }
      assert liveness == init + [last];
    }
  }

  /** Some report about the engine drains it. */
  ghost predicate IsDrained(liveness: seq<(string, RuntimeStatus)>, engine: string) {
    (engine, DrainingRuntime) in liveness
  }

  ghost predicate IsHeardOf(liveness: seq<(string, RuntimeStatus)>, engine: string) {
    exists r :: r in liveness && r.0 == engine
  }

  lemma ReportsSnoc(engine: string, init: seq<(string, RuntimeStatus)>, last: (string, RuntimeStatus))
    ensures IsDrained(init + [last], engine) <==> IsDrained(init, engine) || last == (engine, DrainingRuntime)
    ensures IsHeardOf(init + [last], engine) <==> IsHeardOf(init, engine) || last.0 == engine
    ensures last.0 == engine ==> IsLastReport(init + [last], engine, last.1, |init|)
    ensures last.0 != engine ==> forall status, i | IsLastReport(init, engine, status, i) :: IsLastReport(init + [last], engine, status, i)
  {
    var all := init + [last];
    assert forall r :: r in all <==> r in init || r == last;
    assert all[|init|] == last && forall i | 0 <= i < |init| :: all[i] == init[i];
  }

  lemma StatusSnoc(was: RuntimeStatus, engine: string, init: seq<(string, RuntimeStatus)>, last: (string, RuntimeStatus), now: RuntimeStatus)
    requires IsStatusAfter(was, engine, init, now)
    ensures IsStatusAfter(was, engine, init + [last], if last.0 == engine && now != DrainingRuntime then last.1 else now)
  {
    ReportsSnoc(engine, init, last);
    if i :| IsLastReport(init, engine, now, i) && now == DrainingRuntime {
      assert init[i] in init;
    }
    assert last.0 == engine ==> last == (engine, last.1);
  }

  // ---- Rows before the inventory ----

  /** The engine the beat's inventory gives for a name: its last item with one. */
  ghost predicate IsTagOf(items: seq<Item>, name: string, tag: string) {
    if exists i :: 0 <= i < |items| && items[i].name == name && items[i].runtime != "" then
      exists i :: 0 <= i < |items| && items[i].name == name && items[i].runtime == tag && tag != ""
                  && forall j | i < j < |items| && items[j].name == name :: items[j].runtime == ""
    else tag == ""
  }

  /** Where a loaded model without a row goes: the first runtime of its tagged engine, else the first of all. */
  ghost predicate IsHome(runtimes: seq<Runtime>, items: seq<Item>, name: string, k: nat) {
    exists tag :: IsTagOf(items, name, tag) &&
      if |runtimes| > 1 && tag != "" && exists j :: 0 <= j < |runtimes| && runtimes[j].engine == tag
      then k < |runtimes| && runtimes[k].engine == tag && forall j | 0 <= j < k :: runtimes[j].engine != tag
      else k == 0
  }

  lemma {:induction false} TagMeans(items: seq<Item>, name: string)
    ensures IsTagOf(items, name, TagOf(items, name))
  {
    if items != [] {
      var init, last := items[..|items| - 1], items[|items| - 1];
      TagMeans(init, name);
      assert items[|items| - 1] == last && forall i | 0 <= i < |init| :: items[i] == init[i];
    }
  }

  lemma OneTag(items: seq<Item>, name: string, a: string, b: string)
    requires IsTagOf(items, name, a) && IsTagOf(items, name, b)
    ensures a == b
  {
  }

  lemma {:induction false} FirstWithMeans(runtimes: seq<Runtime>, engine: string, i: nat)
    requires i <= |runtimes|
    ensures var k := FirstWith(runtimes, engine, i);
            forall j | i <= j < (if k.Some? then k.value else |runtimes|) :: runtimes[j].engine != engine
    decreases |runtimes| - i
  {
    if i < |runtimes| && runtimes[i].engine != engine {
      FirstWithMeans(runtimes, engine, i + 1);
    }
  }

  lemma HomeMeans(runtimes: seq<Runtime>, items: seq<Item>, name: string, k: nat)
    requires runtimes != []
    ensures HomeOf(runtimes, items, name) == k <==> IsHome(runtimes, items, name, k)
  {
    var tag := TagOf(items, name);
    TagMeans(items, name);
    FirstWithMeans(runtimes, tag, 0);
    forall other | IsTagOf(items, name, other) ensures other == tag {
      OneTag(items, name, other, tag);
    }
  }

  /** Before the inventory: flags from the loaded list, and a bare row for every loaded model without one. */
  ghost predicate IsRowBefore(runtimes: seq<Runtime>, b: Beat, k: nat, name: string, row: Option<ModelRow>)
    requires k < |runtimes|
  {
    match Find(runtimes[k].models, name)
    case Some(was) => row == Some(was.(loaded := name in b.loaded))
    case None =>
      if name in b.unknown && IsHome(runtimes, b.items, name, k) then row == Some(UNSTATED.(loaded := true)) else row == None
  }

  lemma {:induction false} FlaggedRow(models: Rows<string, ModelRow>, loaded: seq<string>, name: string)
    ensures Find(WithLoaded(models, loaded), name) ==
            match Find(models, name) case Some(row) => Some(row.(loaded := name in loaded)) case None => None
  {
    if models != [] {
      FlaggedRow(models[1..], loaded, name);
      assert WithLoaded(models, loaded)[1..] == WithLoaded(models[1..], loaded);
    }
  }

  lemma {:induction false} FindInLonger(models: Rows<string, ModelRow>, row: (string, ModelRow), name: string)
    ensures Find(models + [row], name) ==
            if Find(models, name).Some? then Find(models, name) else if row.0 == name then Some(row.1) else None
  {
    if models != [] {
      FindInLonger(models[1..], row, name);
      assert (models + [row])[1..] == models[1..] + [row];
    }
  }

  lemma BareRowsAreUnstated(reg: Registry, name: string)
    ensures Judged(reg, name, NO_EVIDENCE, true) == UNSTATED.(loaded := true)
  {
    ClassifyMeans(reg, name, "");
  }

  lemma SameHome(a: seq<Runtime>, b: seq<Runtime>, items: seq<Item>, name: string, k: nat)
    requires |a| == |b| && forall j | 0 <= j < |a| :: a[j].engine == b[j].engine
    ensures IsHome(a, items, name, k) <==> IsHome(b, items, name, k)
  {
  }

  lemma {:induction false} AddedRows(reg: Registry, runtimes: seq<Runtime>, items: seq<Item>, names: seq<string>, k: nat, name: string)
    requires k < |runtimes|
    ensures Find(AddRows(reg, runtimes, items, names)[k].models, name) ==
            if Find(runtimes[k].models, name).Some? then Find(runtimes[k].models, name)
            else if name in names && IsHome(runtimes, items, name, k) then Some(UNSTATED.(loaded := true)) else None
  {
    if names != [] {
      var init, last := names[..|names| - 1], names[|names| - 1];
      var before := AddRows(reg, runtimes, items, init);
      AddedRows(reg, runtimes, items, init, k, name);
      AddingKeepsShape(reg, runtimes, items, init);
      SameHome(runtimes, before, items, last, k);
      HomeMeans(before, items, last, k);
      BareRowsAreUnstated(reg, last);
      FindInLonger(before[k].models, (last, UNSTATED.(loaded := true)), name);
      assert names == init + [last];
    }
  }

  lemma RowsBeforeTheInventory(reg: Registry, runtimes: seq<Runtime>, b: Beat, k: nat, name: string)
    requires k < |runtimes|
    ensures |BeforeInventory(reg, runtimes, b)| == |runtimes|
    ensures IsRowBefore(runtimes, b, k, name, Find(BeforeInventory(reg, runtimes, b)[k].models, name))
  {
    var observed := ObserveAll(runtimes, b.liveness);
    ObservingKeepsShape(runtimes, b.liveness);
    var flagged := FlagAll(observed, b.loaded);
    FlaggedRow(observed[k].models, b.loaded, name);
    AddedRows(reg, flagged, b.items, b.unknown, k, name);
    SameHome(runtimes, flagged, b.items, name, k);
  }

  // ---- After the beat ----

  lemma BeforeInventoryStatus(reg: Registry, runtimes: seq<Runtime>, b: Beat, k: nat)
    requires k < |runtimes|
    ensures |BeforeInventory(reg, runtimes, b)| == |runtimes|
    ensures var after := BeforeInventory(reg, runtimes, b)[k];
            if IsObserved(runtimes, k) then IsStatusAfter(runtimes[k].status, runtimes[k].engine, b.liveness, after.status)
            else after.status == runtimes[k].status
  {
    StatusesAfter(runtimes, b.liveness, k);
    ObservingKeepsShape(runtimes, b.liveness);
    AddingKeepsShape(reg, FlagAll(ObserveAll(runtimes, b.liveness), b.loaded), b.items, b.unknown);
  }

  /** Every runtime keeps its place and engine, and its status is what the beat observed. */
  lemma StatusAfterABeat(reg: Registry, runtimes: seq<Runtime>, b: Beat, k: nat)
    requires k < |runtimes|
    ensures |Heartbeat(reg, runtimes, b).1| == |runtimes|
    ensures var after := Heartbeat(reg, runtimes, b).1[k];
            && after.engine == runtimes[k].engine
            && if IsObserved(runtimes, k) then IsStatusAfter(runtimes[k].status, runtimes[k].engine, b.liveness, after.status)
               else after.status == runtimes[k].status
  {
    BeforeInventoryStatus(reg, runtimes, b, k);
    HeartbeatMovesCounters(reg, runtimes, b, k);
    var before := BeforeInventory(reg, runtimes, b);
    var listed := ApplyInventory(reg, before, b.items).1;
    assert |listed| == |before| && listed[k] == before[k].(models := listed[k].models);
    assert Heartbeat(reg, runtimes, b).1[k] == CountBeat(listed[k], b);
  }

  /** The beat hears this engine, and its inventory tags items with some engine. */
  ghost predicate IsEvidence(b: Beat, engine: string) {
    (exists r :: r in b.liveness && r.0 == engine) && exists i :: i in b.items && i.runtime != ""
  }

  ghost predicate ListsSomethingOn(b: Beat, engine: string) {
    exists i :: i in b.items && i.runtime == engine && engine != ""
  }

  lemma BeatsMean(b: Beat, engine: string)
    ensures IsEmptyBeat(b, engine) <==> IsEvidence(b, engine) && !ListsSomethingOn(b, engine)
    ensures IsFullBeat(b, engine) <==> IsEvidence(b, engine) && ListsSomethingOn(b, engine)
  {
  }

  /** A beat that is evidence resets the counter or raises it by one; any other leaves it. */
  lemma CounterAfterABeat(reg: Registry, runtimes: seq<Runtime>, b: Beat, k: nat)
    requires k < |runtimes|
    ensures |Heartbeat(reg, runtimes, b).1| == |runtimes|
    ensures Heartbeat(reg, runtimes, b).1[k].emptyBeats ==
            if !IsEvidence(b, runtimes[k].engine) then runtimes[k].emptyBeats
            else if ListsSomethingOn(b, runtimes[k].engine) then 0 else runtimes[k].emptyBeats + 1
  {
    BeatsMean(b, runtimes[k].engine);
    HeartbeatMovesCounters(reg, runtimes, b, k);
  }

  /** Counting takes an available row out at the second empty beat, and leaves every other row. */
  ghost function Counted(row: Option<ModelRow>, b: Beat, engine: string, count: nat): Option<ModelRow> {
    if row.Some? && row.value.status == Available && IsEvidence(b, engine) && !ListsSomethingOn(b, engine) && count + 1 >= 2
    then Some(row.value.(status := Missing)) else row
  }

  lemma {:induction false} FindDelisted(models: Rows<string, ModelRow>, name: string)
    ensures Find(Delisted(models), name) ==
            match Find(models, name)
            case Some(row) => Some(if row.status == Available then row.(status := Missing) else row)
            case None => None
  {
    if models != [] {
      FindDelisted(models[1..], name);
      assert Delisted(models)[1..] == Delisted(models[1..]);
    }
  }

  lemma CountedRow(rt: Runtime, b: Beat, name: string)
    ensures Find(CountBeat(rt, b).models, name) == Counted(Find(rt.models, name), b, rt.engine, rt.emptyBeats)
  {
    FindDelisted(rt.models, name);
    BeatsMean(b, rt.engine);
  }

  /**
   Every row after a heartbeat: flagged or newly added before the inventory, then stating the
   inventory, then perhaps counted out.
   */
  lemma EveryRowAfterABeat(reg: Registry, runtimes: seq<Runtime>, b: Beat, k: nat, name: string)
    requires k < |runtimes|
    ensures |Heartbeat(reg, runtimes, b).1| == |runtimes|
    ensures exists before, listed :: IsRowBefore(runtimes, b, k, name, before) && IsRowAfter(reg, runtimes, b.items, k, name, before, listed)
              && Find(Heartbeat(reg, runtimes, b).1[k].models, name) == Counted(listed, b, runtimes[k].engine, runtimes[k].emptyBeats)
  {
    var before := BeforeInventory(reg, runtimes, b);
    RowsBeforeTheInventory(reg, runtimes, b, k, name);
    forall j | 0 <= j < |runtimes| ensures before[j].engine == runtimes[j].engine && before[j].emptyBeats == runtimes[j].emptyBeats {
      BeforeInventoryKeepsRuntime(reg, runtimes, b, j);
    }
    EveryRowAfterAReport(reg, before, b.items, k, name);
    var listed := ApplyInventory(reg, before, b.items).1;
    SameRowAfter(reg, before, runtimes, b.items, k, name, Find(before[k].models, name), Find(listed[k].models, name));
    assert listed[k] == before[k].(models := listed[k].models);
    CountedRow(listed[k], b, name);
    assert Heartbeat(reg, runtimes, b).1[k] == CountBeat(listed[k], b);
  }
}
