/**
 What a reported artifact's row states after an inventory report (backend/reconciliation.py):
 its hash and facts, and when it is available, unregistered or in drift, from the report,
 the row as it was and the catalogue alone.
 */
module ReportedRows {
  import opened Options
  import opened KeyedRows
  import opened Catalogue
  import opened Reconciliation
  import opened InventoryTheorems

  // ---- The verdict ----

  /** A stored hash, bare or prefixed, of the bytes `sha` names. */
  predicate IsHashOf(stored: string, sha: string) {
    Bare(sha) != "" && (stored == Bare(sha) || stored == "sha256:" + Bare(sha))
  }

  ghost predicate Pins(reg: Registry, id: string, sha: string) {
    exists e | e in reg.entries :: e.0 == id && IsHashOf(e.1.digest, sha)
  }

  ghost predicate Owns(reg: Registry, id: string, sha: string) {
    exists f | f in reg.files :: f.owner == id && IsHashOf(f.sha256, sha)
  }

  /** The legacy column or a profile's own id is the name. */
  ghost predicate IsCalled(e: Entry, name: string) {
    e.runtimeModelId == name || exists p | p in e.profiles :: p.modelId == name
  }

  ghost predicate IsVerdict(reg: Registry, name: string, sha: string, status: RowStatus, entry: Option<string>) {
    if sha == "" then status == Available && entry == None
    else if exists id :: Pins(reg, id, sha) then status == Available && entry.Some? && Pins(reg, entry.value, sha)
    else if exists id :: Owns(reg, id, sha) then status == Available && entry.Some? && Owns(reg, entry.value, sha)
    else
      && entry == None
      && (status == Unregistered <==> !exists e :: e in reg.entries && IsCalled(e.1, name))
      && (status == Drift <==>
            && (exists e :: e in reg.entries && IsCalled(e.1, name))
            && forall e | e in reg.entries && IsCalled(e.1, name) :: Bare(e.1.digest) != "")
      && status != Missing
  }

  lemma {:induction false} FirstOwnerOwns(files: seq<ArtifactFile>, d: string)
    ensures match FirstOwner(files, d)
            case Some(id) => exists f :: f in files && f.owner == id && InPinForms(f.sha256, d)
            case None => forall f | f in files :: !InPinForms(f.sha256, d)
  {
    if files != [] {
      FirstOwnerOwns(files[1..], d);
      assert files[0] in files;
      assert forall f :: f in files[1..] ==> f in files;
    }
  }

  lemma ClassifyMeans(reg: Registry, name: string, sha: string)
    ensures IsVerdict(reg, name, sha, Classify(reg, name, sha).0, Classify(reg, name, sha).1)
  {
    var d := Bare(sha);
    FirstPinnedIsPinned(reg.entries, d);
    FirstOwnerOwns(reg.files, d);
    if d != "" {
      match FirstPinned(reg.entries, d)
      case Some(id) => assert Pins(reg, id, sha);
      case None =>
        match FirstOwner(reg.files, d)
        case Some(id) => assert Owns(reg, id, sha);
        case None =>
    }
  }

  // ---- What the report says about a row ----

  /** What a row no report spoke of states. */
  const UNSTATED := ModelRow("", Available, None, false, Facts("", 0, []))

  /** The last runtime with the item's tag as its engine, else the worker's first. */
  ghost predicate LandsOn(runtimes: seq<Runtime>, tag: string, k: nat) {
    && k < |runtimes|
    && if exists j :: 0 <= j < |runtimes| && runtimes[j].engine == tag
       then runtimes[k].engine == tag && forall j | k < j < |runtimes| :: runtimes[j].engine != tag
       else k == 0
  }

  /** Item `i` of the report is about row `name` of runtime `k`. */
  ghost predicate IsAbout(runtimes: seq<Runtime>, items: seq<Item>, i: int, k: nat, name: string) {
    0 <= i < |items| && items[i].name == name && LandsOn(runtimes, items[i].runtime, k)
  }

  /** The value the last such item that carries one gives, else the value before. */
  ghost predicate IsLatest<T(!new)>(runtimes: seq<Runtime>, items: seq<Item>, k: nat, name: string,
                              field: Item -> T, blank: T, prior: T, value: T)
  {
    || (value == prior && forall i | IsAbout(runtimes, items, i, k, name) :: field(items[i]) == blank)
    || (exists i :: IsAbout(runtimes, items, i, k, name) && field(items[i]) != blank && value == field(items[i])
                    && forall j | IsAbout(runtimes, items, j, k, name) && i < j :: field(items[j]) == blank)
  }

  ghost predicate IsLastLoaded(runtimes: seq<Runtime>, items: seq<Item>, k: nat, name: string, loaded: bool) {
    exists i :: IsAbout(runtimes, items, i, k, name) && loaded == items[i].loaded
                && forall j | IsAbout(runtimes, items, j, k, name) :: j <= i
  }

  /** The row after the report: what it states, and how it is judged. */
  ghost predicate StatesReport(reg: Registry, runtimes: seq<Runtime>, items: seq<Item>, k: nat, name: string,
                               before: ModelRow, row: ModelRow)
  {
    && IsLatest(runtimes, items, k, name, (i: Item) => i.sha, "", before.digest, row.digest)
    && IsLatest(runtimes, items, k, name, (i: Item) => i.facts.details, "", before.facts.details, row.facts.details)
    && IsLatest(runtimes, items, k, name, (i: Item) => i.facts.sizeBytes, 0, before.facts.sizeBytes, row.facts.sizeBytes)
    && IsLatest(runtimes, items, k, name, (i: Item) => i.facts.shards, [], before.facts.shards, row.facts.shards)
    && IsLastLoaded(runtimes, items, k, name, row.loaded)
    && IsVerdict(reg, name, row.digest, row.status, row.catalogId)
  }

  lemma {:induction false} TargetFromMeans(runtimes: seq<Runtime>, tag: string, n: nat)
    requires n <= |runtimes|
    ensures var k := TargetFrom(runtimes, tag, n);
            if exists j :: 0 <= j < n && runtimes[j].engine == tag
            then k < n && runtimes[k].engine == tag && forall j | k < j < n :: runtimes[j].engine != tag
            else k == 0
  {
    if n > 0 && runtimes[n - 1].engine != tag {
      TargetFromMeans(runtimes, tag, n - 1);
    }
  }

  lemma TargetMeans(runtimes: seq<Runtime>, tag: string, k: nat)
    requires runtimes != [] && k < |runtimes|
    ensures Target(runtimes, tag) == k <==> LandsOn(runtimes, tag, k)
  {
    TargetFromMeans(runtimes, tag, |runtimes|);
  }

  /** The last of these items that carries a value gives it, else `prior`. */
  function Latest<T(==)>(its: seq<Item>, field: Item -> T, blank: T, prior: T): T {
    if its == [] then prior
    else if field(its[|its| - 1]) != blank then field(its[|its| - 1])
    else Latest(its[..|its| - 1], field, blank, prior)
  }

  lemma {:induction false} MergeAllIsLatest(e: Evidence, its: seq<Item>)
    ensures MergeAll(e, its) == Evidence(
              Latest(its, (i: Item) => i.sha, "", e.digest),
              Facts(Latest(its, (i: Item) => i.facts.details, "", e.facts.details),
                    Latest(its, (i: Item) => i.facts.sizeBytes, 0, e.facts.sizeBytes),
                    Latest(its, (i: Item) => i.facts.shards, [], e.facts.shards)))
  {
    if its != [] {
      MergeAllIsLatest(e, its[..|its| - 1]);
    }
  }

  lemma AboutSnoc(runtimes: seq<Runtime>, items: seq<Item>, k: nat, name: string)
    requires items != []
    ensures var init, n := items[..|items| - 1], |items| - 1;
            && (forall i :: IsAbout(runtimes, init, i, k, name) ==> IsAbout(runtimes, items, i, k, name) && i < n && init[i] == items[i])
            && (forall i :: IsAbout(runtimes, items, i, k, name) ==> i == n || (IsAbout(runtimes, init, i, k, name) && init[i] == items[i]))
  {
  }

  lemma LatestSnoc<T(!new)>(runtimes: seq<Runtime>, items: seq<Item>, k: nat, name: string,
                            field: Item -> T, blank: T, prior: T, value: T)
    requires items != [] && IsLatest(runtimes, items[..|items| - 1], k, name, field, blank, prior, value)
    requires IsAbout(runtimes, items, |items| - 1, k, name) ==> field(items[|items| - 1]) == blank
    ensures IsLatest(runtimes, items, k, name, field, blank, prior, value)
  {
    var init := items[..|items| - 1];
    AboutSnoc(runtimes, items, k, name);
    if i :| IsAbout(runtimes, init, i, k, name) && field(init[i]) != blank && value == field(init[i])
            && forall j | IsAbout(runtimes, init, j, k, name) && i < j :: field(init[j]) == blank {
      assert IsAbout(runtimes, items, i, k, name) && init[i] == items[i];
    }
  }

  lemma {:induction false} LatestMeans<T(!new)>(runtimes: seq<Runtime>, items: seq<Item>, k: nat, name: string,
                                                field: Item -> T, blank: T, prior: T)
    requires runtimes != [] && k < |runtimes|
    ensures IsLatest(runtimes, items, k, name, field, blank, prior, Latest(ItemsFor(runtimes, items, k, name), field, blank, prior))
  {
    if items != [] {
      var init, n := items[..|items| - 1], |items| - 1;
      TargetMeans(runtimes, items[n].runtime, k);
      if IsAbout(runtimes, items, n, k, name) && field(items[n]) != blank {
        AboutSnoc(runtimes, items, k, name);
      } else {
        LatestMeans(runtimes, init, k, name, field, blank, prior);
        var its := ItemsFor(runtimes, init, k, name);
        LatestSnoc(runtimes, items, k, name, field, blank, prior, Latest(its, field, blank, prior));
        assert (its + [items[n]])[..|its|] == its && its + [] == its;
      }
    }
  }

  lemma {:induction false} LastItemMeans(runtimes: seq<Runtime>, items: seq<Item>, k: nat, name: string)
    requires runtimes != [] && k < |runtimes|
    ensures var its := ItemsFor(runtimes, items, k, name);
            && (its == [] <==> forall i :: !IsAbout(runtimes, items, i, k, name))
            && (its != [] ==> IsLastLoaded(runtimes, items, k, name, its[|its| - 1].loaded))
  {
    if items != [] {
      var init, n := items[..|items| - 1], |items| - 1;
      LastItemMeans(runtimes, init, k, name);
      TargetMeans(runtimes, items[n].runtime, k);
      AboutSnoc(runtimes, items, k, name);
      if IsAbout(runtimes, items, n, k, name) {
        assert IsLastLoaded(runtimes, items, k, name, items[n].loaded);
      }
    }
  }

  lemma ReportedMeans(runtimes: seq<Runtime>, items: seq<Item>, k: nat)
    requires runtimes != [] && k < |runtimes|
    ensures IsReported(runtimes, items, k) <==> exists i | i in items :: LandsOn(runtimes, i.runtime, k)
  {
    forall tag ensures Target(runtimes, tag) == k <==> LandsOn(runtimes, tag, k) {
      TargetMeans(runtimes, tag, k);
    }
  }

  // ---- The rows after the report ----

  lemma RowAfterStates(reg: Registry, runtimes: seq<Runtime>, items: seq<Item>, k: nat, name: string)
    requires k < |runtimes| && ItemsFor(runtimes, items, k, name) != []
    ensures var prior := Find(runtimes[k].models, name);
            var row := RowAfter(reg, name, prior, ItemsFor(runtimes, items, k, name));
            row.Some? && StatesReport(reg, runtimes, items, k, name, if prior.Some? then prior.value else UNSTATED, row.value)
  {
    var prior, its := Find(runtimes[k].models, name), ItemsFor(runtimes, items, k, name);
    var base := if prior.Some? then prior.value else BLANK_ROW;
    MergeAllIsLatest(EvidenceOf(base), its);
    LatestMeans(runtimes, items, k, name, (i: Item) => i.sha, "", base.digest);
    LatestMeans(runtimes, items, k, name, (i: Item) => i.facts.details, "", base.facts.details);
    LatestMeans(runtimes, items, k, name, (i: Item) => i.facts.sizeBytes, 0, base.facts.sizeBytes);
    LatestMeans(runtimes, items, k, name, (i: Item) => i.facts.shards, [], base.facts.shards);
    LastItemMeans(runtimes, items, k, name);
    ClassifyMeans(reg, name, MergeAll(EvidenceOf(base), its).digest);
  }

  /**
   A row the report is about states it and is judged by the catalogue; a row of a reported runtime it is
   not about is missing, unlinked and unloaded, unless it was missing already; every other row
   is as it was.
   */
  ghost predicate IsRowAfter(reg: Registry, runtimes: seq<Runtime>, items: seq<Item>, k: nat, name: string,
                             before: Option<ModelRow>, after: Option<ModelRow>)
  {
    if exists i :: IsAbout(runtimes, items, i, k, name) then
      after.Some? && StatesReport(reg, runtimes, items, k, name, if before.Some? then before.value else UNSTATED, after.value)
    else if before.Some? && before.value.status != Missing && exists i | i in items :: LandsOn(runtimes, i.runtime, k) then
      after == Some(before.value.(status := Missing, catalogId := None, loaded := false))
    else after == before
  }

  /** What an inventory report leaves of every row. */
  lemma EveryRowAfterAReport(reg: Registry, runtimes: seq<Runtime>, items: seq<Item>, k: nat, name: string)
    requires k < |runtimes|
    ensures |ApplyInventory(reg, runtimes, items).1| == |runtimes|
    ensures IsRowAfter(reg, runtimes, items, k, name,
                       Find(runtimes[k].models, name), Find(ApplyInventory(reg, runtimes, items).1[k].models, name))
  {
    LastItemMeans(runtimes, items, k, name);
    ReportedMeans(runtimes, items, k);
    if IsReported(runtimes, items, k) {
      ReportedRowsAreJudged(reg, runtimes, items, k, name);
      if ItemsFor(runtimes, items, k, name) != [] {
        RowAfterStates(reg, runtimes, items, k, name);
      }
    } else {
      UnreportedRuntimesAreUntouched(reg, runtimes, items, k);
      NamesMeanItems(runtimes, items, k, name);
    }
  }

  ghost predicate SameEngines(a: seq<Runtime>, b: seq<Runtime>) {
    |a| == |b| && forall j | 0 <= j < |a| :: a[j].engine == b[j].engine
  }

  lemma SameAbout(a: seq<Runtime>, b: seq<Runtime>, items: seq<Item>, k: nat, name: string)
    requires SameEngines(a, b)
    ensures forall tag :: LandsOn(a, tag, k) <==> LandsOn(b, tag, k)
    ensures forall i: int :: IsAbout(a, items, i, k, name) <==> IsAbout(b, items, i, k, name)
  {
  }

  lemma SameLatest<T(!new)>(a: seq<Runtime>, b: seq<Runtime>, items: seq<Item>, k: nat, name: string,
                            field: Item -> T, blank: T, prior: T, value: T)
    requires SameEngines(a, b) && IsLatest(a, items, k, name, field, blank, prior, value)
    ensures IsLatest(b, items, k, name, field, blank, prior, value)
  {
    SameAbout(a, b, items, k, name);
  }

  /** Where items land is a matter of engines. */
  lemma SameRowAfter(reg: Registry, a: seq<Runtime>, b: seq<Runtime>, items: seq<Item>, k: nat, name: string,
                     before: Option<ModelRow>, after: Option<ModelRow>)
    requires SameEngines(a, b) && IsRowAfter(reg, a, items, k, name, before, after)
    ensures IsRowAfter(reg, b, items, k, name, before, after)
  {
    SameAbout(a, b, items, k, name);
    if exists i :: IsAbout(a, items, i, k, name) {
      var was, row := if before.Some? then before.value else UNSTATED, after.value;
      SameLatest(a, b, items, k, name, (i: Item) => i.sha, "", was.digest, row.digest);
      SameLatest(a, b, items, k, name, (i: Item) => i.facts.details, "", was.facts.details, row.facts.details);
      SameLatest(a, b, items, k, name, (i: Item) => i.facts.sizeBytes, 0, was.facts.sizeBytes, row.facts.sizeBytes);
      SameLatest(a, b, items, k, name, (i: Item) => i.facts.shards, [], was.facts.shards, row.facts.shards);
    }
  }

  // ---- What the report adds to the catalogue ----

  /** The place of a new alias: the first profile of the engine. */
  ghost predicate IsProfileFor(e: Entry, engine: string, j: nat) {
    j < |e.profiles| && e.profiles[j].runtime == engine && forall i | 0 <= i < j :: e.profiles[i].runtime != engine
  }

  /** One alias more, in the profile of its engine, of the entry with this id; or nothing. */
  ghost predicate IsHealed(a: Registry, b: Registry, h: Healing) {
    && OnlyAliasesGrew(a, b)
    && forall i, j, n | 0 <= i < |a.entries| && 0 <= j < |a.entries[i].1.profiles| && j < |b.entries[i].1.profiles|
                        && n in b.entries[i].1.profiles[j].extras && n !in a.entries[i].1.profiles[j].extras ::
         h.entry == Some(a.entries[i].0) && h.name == n && IsProfileFor(a.entries[i].1, h.engine, j)
  }

  lemma {:induction false} WithAliasAddsOne(profiles: seq<Profile>, engine: string, name: string, j: nat, n: string)
    requires j < |profiles| && |WithAlias(profiles, engine, name)| == |profiles|
    ensures n in WithAlias(profiles, engine, name)[j].extras && n !in profiles[j].extras ==>
              n == name && profiles[j].runtime == engine && forall i | 0 <= i < j :: profiles[i].runtime != engine
  {
    if profiles[0].runtime != engine && j > 0 {
      WithAliasAddsOne(profiles[1..], engine, name, j - 1, n);
    }
  }

  lemma HealAddsOne(reg: Registry, h: Healing)
    ensures IsHealed(reg, Heal(reg, h.entry, h.name, h.engine), h)
  {
    HealOnlyGrowsAliases(reg, h.entry, h.name, h.engine);
    if h.entry.Some? && Find(reg.entries, h.entry.value).Some? {
      var e := Find(reg.entries, h.entry.value).value;
      PutFirst(reg.entries, h.entry.value, HealEntry(e, h.name, h.engine));
      WithAliasGrows(e, h.engine, h.name);
      forall j: nat, n | j < |e.profiles|
        ensures n in WithAlias(e.profiles, h.engine, h.name)[j].extras && n !in e.profiles[j].extras ==>
                  n == h.name && IsProfileFor(e, h.engine, j)
      {
        WithAliasAddsOne(e.profiles, h.engine, h.name, j, n);
      }
    }
  }

  ghost predicate IsSource(reg: Registry, h: Healing, i: nat, j: nat, n: string) {
    i < |reg.entries| && h.entry == Some(reg.entries[i].0) && h.name == n && IsProfileFor(reg.entries[i].1, h.engine, j)
  }

  lemma {:induction false} HealAllAddsOnes(reg: Registry, hs: seq<Healing>, i: nat, j: nat, n: string)
    requires i < |reg.entries| && j < |reg.entries[i].1.profiles| && n !in reg.entries[i].1.profiles[j].extras
    ensures var after := HealAll(reg, hs);
            && OnlyAliasesGrew(reg, after)
            && (n in after.entries[i].1.profiles[j].extras ==> exists x :: 0 <= x < |hs| && IsSource(reg, hs[x], i, j, n))
  {
    if hs == [] {
      assert OnlyAliasesGrew(reg, reg);
    } else {
      var init, h := hs[..|hs| - 1], hs[|hs| - 1];
      var before := HealAll(reg, init);
      HealAllAddsOnes(reg, init, i, j, n);
      HealAddsOne(before, h);
      OnlyAliasesGrewComposes(reg, before, HealAll(reg, hs));
      if n in before.entries[i].1.profiles[j].extras {
        var x :| 0 <= x < |init| && IsSource(reg, init[x], i, j, n);
        assert hs[x] == init[x];
      } else if n in HealAll(reg, hs).entries[i].1.profiles[j].extras {
        assert GrownFrom(reg.entries[i].1, before.entries[i].1);
        assert IsSource(reg, h, i, j, n);
      }
    }
  }

  /** Item `x` is called `n`, its row was matched with the entry, and its runtime's engine is the profile's. */
  ghost predicate ExplainsAlias(reg: Registry, runtimes: seq<Runtime>, items: seq<Item>, x: int, i: nat, j: nat, n: string)
    requires i < |reg.entries|
  {
    && 0 <= x < |items| && items[x].name == n
    && exists k: nat, sha :: LandsOn(runtimes, items[x].runtime, k) && IsVerdict(reg, n, sha, Available, Some(reg.entries[i].0))
         && IsProfileFor(reg.entries[i].1, runtimes[k].engine, j)
  }

  /** Every alias the pass adds is the name of a reported artifact matched with that entry on that engine. */
  lemma NewAliasesAreReportedNames(reg: Registry, runtimes: seq<Runtime>, items: seq<Item>, i: nat, j: nat, n: string)
    requires i < |reg.entries| && j < |reg.entries[i].1.profiles| && n !in reg.entries[i].1.profiles[j].extras
    ensures var after := ApplyInventory(reg, runtimes, items).0;
            && OnlyAliasesGrew(reg, after)
            && (n in after.entries[i].1.profiles[j].extras ==> exists x :: ExplainsAlias(reg, runtimes, items, x, i, j, n))
  {
    if items == [] || runtimes == [] {
      assert OnlyAliasesGrew(reg, reg);
    } else {
      var hs := Healings(reg, runtimes, items);
      ItemsHeal(reg, runtimes, items);
      HealAllAddsOnes(reg, hs, i, j, n);
      if x :| 0 <= x < |hs| && IsSource(reg, hs[x], i, j, n) {
        var k := Target(runtimes, items[x].runtime);
        TargetMeans(runtimes, items[x].runtime, k);
        var sha := DigestAt(runtimes, items, x);
        ClassifyMeans(reg, n, sha);
        assert IsVerdict(reg, n, sha, Available, Some(reg.entries[i].0));
        assert ExplainsAlias(reg, runtimes, items, x, i, j, n);
      }
    }
  }
}
