/**
 Merging a worker's inventory report into its stored rows
 (backend/reconciliation.py): what the pass computes, row by row.
 */
module Reconciliation {
  import opened Options
  import opened KeyedRows
  import opened Catalogue

  /** One reported artifact. `runtime` is "" when the daemon sends no tag. */
  datatype Item = Item(name: string, sha: string, loaded: bool, runtime: string, facts: Facts)

  // ---- What a report says about one row ----

  /** Hash and facts: a report overwrites the parts it carries and leaves the rest. */
  datatype Evidence = Evidence(digest: string, facts: Facts)

  const NO_FACTS := Facts("", 0, [])
  const NO_EVIDENCE := Evidence("", NO_FACTS)
  const BLANK_ROW := ModelRow("", Available, None, false, NO_FACTS)

  function Merge(a: Evidence, b: Evidence): Evidence {
    Evidence(
      if b.digest != "" then b.digest else a.digest,
      Facts(if b.facts.details != "" then b.facts.details else a.facts.details,
            if b.facts.sizeBytes != 0 then b.facts.sizeBytes else a.facts.sizeBytes,
            if b.facts.shards != [] then b.facts.shards else a.facts.shards))
  }

  function EvidenceIn(item: Item): Evidence {
    Evidence(item.sha, item.facts)
  }

  function EvidenceOf(row: ModelRow): Evidence {
    Evidence(row.digest, row.facts)
  }

  /** A row stating this evidence, classified. */
  function Judged(reg: Registry, name: string, e: Evidence, loaded: bool): ModelRow {
    var (status, entry) := Classify(reg, name, e.digest);
    ModelRow(e.digest, status, entry, loaded, e.facts)
  }

  function Upsert(reg: Registry, prior: Option<ModelRow>, item: Item): ModelRow {
    var base := if prior.Some? then prior.value else BLANK_ROW;
    Judged(reg, item.name, Merge(EvidenceOf(base), EvidenceIn(item)), item.loaded)
  }

  // ---- Self-healing of the catalogue ----

  predicate HasProfileFor(profiles: seq<Profile>, engine: string) {
    exists p | p in profiles :: p.runtime == engine
  }

  /** `name` joins the aliases of the first profile for `engine`. */
  function WithAlias(profiles: seq<Profile>, engine: string, name: string): seq<Profile> {
    if profiles == [] then []
    else if profiles[0].runtime == engine then
      [if name in profiles[0].extras then profiles[0] else profiles[0].(extras := profiles[0].extras + [name])] + profiles[1..]
    else [profiles[0]] + WithAlias(profiles[1..], engine, name)
  }

  function HealEntry(e: Entry, name: string, engine: string): Entry {
    if name in ServingTargets(e) then e else e.(profiles := WithAlias(e.profiles, engine, name))
  }

  /** A hash-verified row makes its entry answer to the row's name on the row's engine. */
  function Heal(reg: Registry, entry: Option<string>, name: string, engine: string): Registry {
    if entry.None? || Find(reg.entries, entry.value).None? then reg
    else reg.(entries := Put(reg.entries, entry.value, HealEntry(Find(reg.entries, entry.value).value, name, engine)))
  }

  // ---- The pass ----

  /** The runtime an item belongs to: the last one with its tag, else the worker's first. */
  function TargetFrom(runtimes: seq<Runtime>, tag: string, n: nat): nat
    requires n <= |runtimes|
  {
    if n == 0 then 0
    else if runtimes[n - 1].engine == tag then n - 1
    else TargetFrom(runtimes, tag, n - 1)
  }

  function Target(runtimes: seq<Runtime>, tag: string): (k: nat)
    requires runtimes != []
    ensures k < |runtimes|
  {
    TargetInRange(runtimes, tag, |runtimes|);
    TargetFrom(runtimes, tag, |runtimes|)
  }

  lemma {:induction false} TargetInRange(runtimes: seq<Runtime>, tag: string, n: nat)
    requires runtimes != [] && n <= |runtimes|
    ensures TargetFrom(runtimes, tag, n) < |runtimes|
  {
    if n > 0 && runtimes[n - 1].engine != tag {
      TargetInRange(runtimes, tag, n - 1);
    }
  }

  function ApplyItem(reg: Registry, runtimes: seq<Runtime>, item: Item): (Registry, seq<Runtime>)
    requires runtimes != []
  {
    var k := Target(runtimes, item.runtime);
    var row := Upsert(reg, Find(runtimes[k].models, item.name), item);
    (Heal(reg, row.catalogId, item.name, runtimes[k].engine),
     runtimes[k := runtimes[k].(models := Put(runtimes[k].models, item.name, row))])
  }

  function ApplyItems(reg: Registry, runtimes: seq<Runtime>, items: seq<Item>): (r: (Registry, seq<Runtime>))
    requires runtimes != []
    ensures |r.1| == |runtimes|
    ensures forall k | 0 <= k < |runtimes| :: r.1[k] == runtimes[k].(models := r.1[k].models)
  {
    if items == [] then (reg, runtimes)
    else
      var (reg1, runtimes1) := ApplyItems(reg, runtimes, items[..|items| - 1]);
      ApplyItem(reg1, runtimes1, items[|items| - 1])
  }

  /** The items of the report that land on row `name` of runtime `k`. */
  function ItemsFor(runtimes: seq<Runtime>, items: seq<Item>, k: nat, name: string): seq<Item>
    requires runtimes != []
  {
    if items == [] then []
    else
      var last := items[|items| - 1];
      ItemsFor(runtimes, items[..|items| - 1], k, name)
      + if Target(runtimes, last.runtime) == k && last.name == name then [last] else []
  }

  /** The names the report gives for runtime `k`, in order of appearance. */
  function NamesFor(runtimes: seq<Runtime>, items: seq<Item>, k: nat): seq<string>
    requires runtimes != []
  {
    if items == [] then []
    else
      var last := items[|items| - 1];
      NamesFor(runtimes, items[..|items| - 1], k) + if Target(runtimes, last.runtime) == k then [last.name] else []
  }

  predicate IsReported(runtimes: seq<Runtime>, items: seq<Item>, k: nat)
    requires runtimes != []
  {
    exists i | i in items :: Target(runtimes, i.runtime) == k
  }

  function Gone(row: ModelRow): ModelRow {
    if row.status == Missing then row else row.(status := Missing, catalogId := None, loaded := false)
  }

  function MarkMissing(models: Rows<string, ModelRow>, seen: seq<string>): (r: Rows<string, ModelRow>)
    ensures |r| == |models|
  {
    seq(|models|, i requires 0 <= i < |models| =>
      if models[i].0 in seen then models[i] else (models[i].0, Gone(models[i].1)))
  }

  function FinishRuntime(before: seq<Runtime>, rt: Runtime, items: seq<Item>, k: nat): Runtime
    requires before != []
  {
    if IsReported(before, items, k) then rt.(models := MarkMissing(rt.models, NamesFor(before, items, k))) else rt
  }

  /** The whole pass over a worker's runtimes. An empty report changes nothing. */
  function ApplyInventory(reg: Registry, runtimes: seq<Runtime>, items: seq<Item>): (Registry, seq<Runtime>) {
    if items == [] || runtimes == [] then (reg, runtimes)
    else
      var (reg1, runtimes1) := ApplyItems(reg, runtimes, items);
      (reg1, seq(|runtimes1|, k requires 0 <= k < |runtimes1| => FinishRuntime(runtimes, runtimes1[k], items, k)))
  }

  // ---- The pass as it is written ----

  /** The row for a reported artifact before classification: a new one, or the stored one brought up to date. */
  method ReadItem(found: Option<ModelRow>, item: Item) returns (row: ModelRow)
    ensures EvidenceOf(row) == Merge(EvidenceOf(if found.Some? then found.value else BLANK_ROW), EvidenceIn(item))
    ensures row.loaded == item.loaded
  {
    if found.None? {
      row := BLANK_ROW.(digest := item.sha, loaded := item.loaded, facts := item.facts);
    } else {
      row := found.value;
      if item.sha != "" && row.digest != item.sha {
        row := row.(digest := item.sha);
      }
    }
    if row.loaded != item.loaded {
      row := row.(loaded := item.loaded);
    }
    if item.facts.details != "" && row.facts.details != item.facts.details {
      row := row.(facts := row.facts.(details := item.facts.details));
    }
    if item.facts.sizeBytes != 0 && row.facts.sizeBytes != item.facts.sizeBytes {
      row := row.(facts := row.facts.(sizeBytes := item.facts.sizeBytes));
    }
    if item.facts.shards != [] && row.facts.shards != item.facts.shards {
      row := row.(facts := row.facts.(shards := item.facts.shards));
    }
  }

  method MarkUnseen(stored: Rows<string, ModelRow>, seen: seq<string>) returns (models: Rows<string, ModelRow>)
    ensures models == MarkMissing(stored, seen)
  {
    models := stored;
    for i := 0 to |models|
      invariant |models| == |stored|
      invariant forall j | 0 <= j < i :: models[j] == MarkMissing(stored, seen)[j]
      invariant forall j | i <= j < |models| :: models[j] == stored[j]
    {
      var (name, row) := models[i];
      if name !in seen && row.status != Missing {
        row := row.(status := Missing);
        row := row.(catalogId := None, loaded := false);
        models := models[i := (name, row)];
      }
    }
  }

  class WorkerRows {
    var registry: Registry
    var runtimes: seq<Runtime>

    /** Upserts one reported artifact and settles its state. */
    method TakeItem(item: Item)
      requires runtimes != []
      modifies this
      ensures (registry, runtimes) == ApplyItem(old(registry), old(runtimes), item)
    {
      var k := Target(runtimes, item.runtime);
      var row := ReadItem(Find(runtimes[k].models, item.name), item);
      var (status, entry) := Classify(registry, item.name, row.digest);
      registry := Heal(registry, entry, item.name, runtimes[k].engine);
      row := row.(status := status, catalogId := entry);
      runtimes := runtimes[k := runtimes[k].(models := Put(runtimes[k].models, item.name, row))];
    }

    method TakeItems(items: seq<Item>)
      requires runtimes != []
      modifies this
      ensures (registry, runtimes) == ApplyItems(old(registry), old(runtimes), items)
    {
      for i := 0 to |items|
        invariant |runtimes| == |old(runtimes)|
        invariant (registry, runtimes) == ApplyItems(old(registry), old(runtimes), items[..i])
      {
        assert items[..i + 1][..i] == items[..i];
        TakeItem(items[i]);
      }
      assert items[..|items|] == items;
    }

    method ReportInventory(items: seq<Item>)
      modifies this
      ensures (registry, runtimes) == ApplyInventory(old(registry), old(runtimes), items)
    {
      if items == [] || runtimes == [] {
        return;
      }
      ghost var before := runtimes;
      TakeItems(items);
      var merged := runtimes;
      for k := 0 to |merged|
        invariant |runtimes| == |merged| && registry == ApplyItems(old(registry), before, items).0
        invariant forall j | 0 <= j < k :: runtimes[j] == FinishRuntime(before, merged[j], items, j)
        invariant forall j | k <= j < |merged| :: runtimes[j] == merged[j]
      {
        SameTargets(before, merged, items, k);
        if IsReported(merged, items, k) {
          var models := MarkUnseen(merged[k].models, NamesFor(merged, items, k));
          runtimes := runtimes[k := merged[k].(models := models)];
        }
      }
      assert runtimes == ApplyInventory(old(registry), before, items).1;
    }
  }

  /** Targets depend on the engines only, which the pass never changes. */
  lemma {:induction false} SameTargetFrom(a: seq<Runtime>, b: seq<Runtime>, tag: string, n: nat)
    requires |a| == |b| && n <= |a| && forall k | 0 <= k < |a| :: a[k].engine == b[k].engine
    ensures TargetFrom(a, tag, n) == TargetFrom(b, tag, n)
  {
    if n > 0 {
      SameTargetFrom(a, b, tag, n - 1);
    }
  }

  lemma {:induction false} SameTargets(a: seq<Runtime>, b: seq<Runtime>, items: seq<Item>, k: nat)
    requires a != [] && |a| == |b| && forall j | 0 <= j < |a| :: a[j].engine == b[j].engine
    ensures forall tag :: Target(a, tag) == Target(b, tag)
    ensures NamesFor(a, items, k) == NamesFor(b, items, k)
    ensures IsReported(a, items, k) == IsReported(b, items, k)
    ensures forall name :: ItemsFor(a, items, k, name) == ItemsFor(b, items, k, name)
  {
    forall tag ensures Target(a, tag) == Target(b, tag) {
      SameTargetFrom(a, b, tag, |a|);
    }
    if items != [] {
      SameTargets(a, b, items[..|items| - 1], k);
    }
  }
}
