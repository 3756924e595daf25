/** What the inventory pass guarantees: soundness row by row, framing, uniqueness, idempotence. */
module InventoryTheorems {
  import opened Options
  import opened KeyedRows
  import opened Catalogue
  import opened Reconciliation

  // ---- Aliases are not identity ----

  /** The same entry up to the aliases its profiles carry, which only grow. */
  ghost predicate GrownFrom(e: Entry, f: Entry) {
    && f == e.(profiles := f.profiles)
    && |f.profiles| == |e.profiles|
    && forall i | 0 <= i < |e.profiles| ::
         f.profiles[i] == e.profiles[i].(extras := f.profiles[i].extras) && e.profiles[i].extras <= f.profiles[i].extras
  }

  /** The same catalogue up to aliases. */
  ghost predicate OnlyAliasesGrew(a: Registry, b: Registry) {
    && a.files == b.files
    && |a.entries| == |b.entries|
    && forall i | 0 <= i < |a.entries| :: a.entries[i].0 == b.entries[i].0 && GrownFrom(a.entries[i].1, b.entries[i].1)
  }

  lemma OnlyAliasesGrewComposes(a: Registry, b: Registry, c: Registry)
    requires OnlyAliasesGrew(a, b) && OnlyAliasesGrew(b, c)
    ensures OnlyAliasesGrew(a, c)
  {
    forall i | 0 <= i < |a.entries| ensures GrownFrom(a.entries[i].1, c.entries[i].1) {
      assert GrownFrom(a.entries[i].1, b.entries[i].1) && GrownFrom(b.entries[i].1, c.entries[i].1);
    }
  }

  lemma {:induction false} WithAliasGrows(e: Entry, engine: string, name: string)
    ensures GrownFrom(e, e.(profiles := WithAlias(e.profiles, engine, name)))
    decreases |e.profiles|
  {
    if e.profiles != [] && e.profiles[0].runtime != engine {
      WithAliasGrows(e.(profiles := e.profiles[1..]), engine, name);
    }
  }

  lemma HealOnlyGrowsAliases(reg: Registry, entry: Option<string>, name: string, engine: string)
    ensures OnlyAliasesGrew(reg, Heal(reg, entry, name, engine))
  {
    if entry.Some? && Find(reg.entries, entry.value).Some? {
      var e := Find(reg.entries, entry.value).value;
      WithAliasGrows(e, engine, name);
      PutFirst(reg.entries, entry.value, HealEntry(e, name, engine));
    }
  }

  /** Putting under an existing key changes exactly the row that lookup sees. */
  lemma {:induction false} PutFirst<V>(rows: Rows<string, V>, k: string, v: V)
    requires Find(rows, k).Some?
    ensures |Put(rows, k, v)| == |rows|
    ensures forall i | 0 <= i < |rows| :: Put(rows, k, v)[i] == rows[i]
              || (rows[i] == (k, Find(rows, k).value) && Put(rows, k, v)[i] == (k, v))
  {
    if rows[0].0 != k {
      PutFirst(rows[1..], k, v);
    }
  }

  lemma {:induction false} SameFirstPinned(a: Rows<string, Entry>, b: Rows<string, Entry>, d: string)
    requires |a| == |b| && forall i | 0 <= i < |a| :: a[i].0 == b[i].0 && a[i].1.digest == b[i].1.digest
    ensures FirstPinned(a, d) == FirstPinned(b, d)
  {
    if a != [] {
      SameFirstPinned(a[1..], b[1..], d);
    }
  }

  lemma SameAnswers(e: Entry, f: Entry, name: string)
    requires GrownFrom(e, f)
    ensures AnswersTo(e, name) == AnswersTo(f, name)
  {
    forall p | p in e.profiles ensures exists q | q in f.profiles :: q.modelId == p.modelId {
      var i :| 0 <= i < |e.profiles| && e.profiles[i] == p;
      assert f.profiles[i] in f.profiles;
    }
    forall q | q in f.profiles ensures exists p | p in e.profiles :: q.modelId == p.modelId {
      var i :| 0 <= i < |f.profiles| && f.profiles[i] == q;
      assert e.profiles[i] in e.profiles;
    }
  }

  lemma NamesCarryOver(a: Rows<string, Entry>, b: Rows<string, Entry>, name: string)
    requires |a| == |b|
    requires forall i | 0 <= i < |a| :: AnswersTo(a[i].1, name) == AnswersTo(b[i].1, name) && a[i].1.digest == b[i].1.digest
    ensures IsUnknownName(a, name) ==> IsUnknownName(b, name)
    ensures IsPinnedName(a, name) ==> IsPinnedName(b, name)
  {
    forall f | f in b && AnswersTo(f.1, name)
      ensures !IsUnknownName(a, name) && (IsPinnedName(a, name) ==> Bare(f.1.digest) != "")
    {
      var i :| 0 <= i < |b| && b[i] == f;
      assert a[i] in a && AnswersTo(a[i].1, name);
    }
  }

  /** Growing aliases never changes a classification. */
  lemma AliasesDoNotClassify(a: Registry, b: Registry, name: string, sha: string)
    requires OnlyAliasesGrew(a, b)
    ensures Classify(a, name, sha) == Classify(b, name, sha)
  {
    SameFirstPinned(a.entries, b.entries, Bare(sha));
    forall i | 0 <= i < |a.entries| ensures AnswersTo(a.entries[i].1, name) == AnswersTo(b.entries[i].1, name) {
      SameAnswers(a.entries[i].1, b.entries[i].1, name);
    }
    NamesCarryOver(a.entries, b.entries, name);
    NamesCarryOver(b.entries, a.entries, name);
  }

  lemma {:induction false} ItemsOnlyGrowAliases(reg: Registry, runtimes: seq<Runtime>, items: seq<Item>)
    requires runtimes != []
    ensures OnlyAliasesGrew(reg, ApplyItems(reg, runtimes, items).0)
  {
    if items != [] {
      var (reg1, runtimes1) := ApplyItems(reg, runtimes, items[..|items| - 1]);
      ItemsOnlyGrowAliases(reg, runtimes, items[..|items| - 1]);
      var item := items[|items| - 1];
      var k := Target(runtimes1, item.runtime);
      HealOnlyGrowsAliases(reg1, Upsert(reg1, Find(runtimes1[k].models, item.name), item).catalogId, item.name, runtimes1[k].engine);
      OnlyAliasesGrewComposes(reg, reg1, ApplyItems(reg, runtimes, items).0);
    }
  }

  // ---- One row's history ----

  function MergeAll(e: Evidence, its: seq<Item>): Evidence {
    if its == [] then e else Merge(MergeAll(e, its[..|its| - 1]), EvidenceIn(its[|its| - 1]))
  }

  lemma {:induction false} MergeAllFactors(e: Evidence, its: seq<Item>)
    ensures MergeAll(e, its) == Merge(e, MergeAll(NO_EVIDENCE, its))
  {
    if its != [] {
      MergeAllFactors(e, its[..|its| - 1]);
    }
  }

  lemma MergeAllTwice(e: Evidence, its: seq<Item>)
    ensures MergeAll(MergeAll(e, its), its) == MergeAll(e, its)
  {
    MergeAllFactors(e, its);
    MergeAllFactors(MergeAll(e, its), its);
  }

  /** The row after the items that concern it: merged evidence, classified once. */
  function RowAfter(reg: Registry, name: string, prior: Option<ModelRow>, its: seq<Item>): Option<ModelRow> {
    if its == [] then prior
    else
      var base := if prior.Some? then prior.value else BLANK_ROW;
      Some(Judged(reg, name, MergeAll(EvidenceOf(base), its), its[|its| - 1].loaded))
  }

  lemma RowAfterItem(reg: Registry, runtimes: seq<Runtime>, item: Item, k: nat, name: string)
    requires runtimes != [] && k < |runtimes|
    ensures Find(ApplyItem(reg, runtimes, item).1[k].models, name)
            == if Target(runtimes, item.runtime) == k && item.name == name
               then Some(Upsert(reg, Find(runtimes[k].models, name), item))
               else Find(runtimes[k].models, name)
  {
    var t := Target(runtimes, item.runtime);
    FindPut(runtimes[t].models, item.name, Upsert(reg, Find(runtimes[t].models, item.name), item), name);
  }

  /** One more item folds into the row's history, whatever aliases grew in between. */
  lemma UpsertExtendsRow(reg: Registry, reg1: Registry, prior: Option<ModelRow>, its: seq<Item>, item: Item)
    requires OnlyAliasesGrew(reg, reg1)
    ensures Some(Upsert(reg1, RowAfter(reg, item.name, prior, its), item)) == RowAfter(reg, item.name, prior, its + [item])
  {
    var all := its + [item];
    assert all[..|all| - 1] == its && all[|all| - 1] == item;
    var base := EvidenceOf(if prior.Some? then prior.value else BLANK_ROW);
    var e := Merge(MergeAll(base, its), EvidenceIn(item));
    assert MergeAll(base, all) == e;
    AliasesDoNotClassify(reg, reg1, item.name, e.digest);
    assert RowAfter(reg, item.name, prior, all) == Some(Judged(reg, item.name, e, item.loaded));
  }

  lemma {:induction false} RowsAfterItems(reg: Registry, runtimes: seq<Runtime>, items: seq<Item>, k: nat, name: string)
    requires runtimes != [] && k < |runtimes|
    ensures Find(ApplyItems(reg, runtimes, items).1[k].models, name)
            == RowAfter(reg, name, Find(runtimes[k].models, name), ItemsFor(runtimes, items, k, name))
  {
    if items != [] {
      var init, item := items[..|items| - 1], items[|items| - 1];
      var (reg1, runtimes1) := ApplyItems(reg, runtimes, init);
      RowsAfterItems(reg, runtimes, init, k, name);
      SameTargets(runtimes, runtimes1, [], k);
      RowAfterItem(reg1, runtimes1, item, k, name);
      var its := ItemsFor(runtimes, init, k, name);
      if Target(runtimes, item.runtime) == k && item.name == name {
        ItemsOnlyGrowAliases(reg, runtimes, init);
        UpsertExtendsRow(reg, reg1, Find(runtimes[k].models, name), its, item);
      } else {
        assert its + [] == its;
      }
    }
  }

  lemma {:induction false} KeysAfterItems(reg: Registry, runtimes: seq<Runtime>, items: seq<Item>, k: nat)
    requires runtimes != [] && k < |runtimes|
    ensures KeysOf(ApplyItems(reg, runtimes, items).1[k].models) == AppendNew(KeysOf(runtimes[k].models), NamesFor(runtimes, items, k))
  {
    if items == [] {
      assert NamesFor(runtimes, items, k) == [];
    } else {
      var init, item := items[..|items| - 1], items[|items| - 1];
      var (reg1, runtimes1) := ApplyItems(reg, runtimes, init);
      KeysAfterItems(reg, runtimes, init, k);
      SameTargets(runtimes, runtimes1, [], k);
      var t := Target(runtimes1, item.runtime);
      KeysPut(runtimes1[t].models, item.name, Upsert(reg1, Find(runtimes1[t].models, item.name), item));
      var names := NamesFor(runtimes, init, k);
      if t == k {
        assert (names + [item.name])[..|names|] == names;
      } else {
        assert names + [] == names;
      }
    }
  }

  lemma ReportedSnoc(runtimes: seq<Runtime>, items: seq<Item>, item: Item, k: nat)
    requires runtimes != []
    ensures IsReported(runtimes, items + [item], k) <==> IsReported(runtimes, items, k) || Target(runtimes, item.runtime) == k
  {
    assert item in items + [item] && forall i :: i in items + [item] <==> i in items || i == item;
  }

  lemma {:induction false} NamesMeanItems(runtimes: seq<Runtime>, items: seq<Item>, k: nat, name: string)
    requires runtimes != []
    ensures name in NamesFor(runtimes, items, k) <==> ItemsFor(runtimes, items, k, name) != []
    ensures NamesFor(runtimes, items, k) != [] <==> IsReported(runtimes, items, k)
  {
    if items != [] {
      var init, item := items[..|items| - 1], items[|items| - 1];
      NamesMeanItems(runtimes, init, k, name);
      assert items == init + [item];
      ReportedSnoc(runtimes, init, item, k);
    }
  }

  lemma FindMarked(models: Rows<string, ModelRow>, seen: seq<string>, name: string)
    ensures KeysOf(MarkMissing(models, seen)) == KeysOf(models)
    ensures Find(MarkMissing(models, seen), name) ==
            match Find(models, name)
            case Some(row) => Some(if name in seen then row else Gone(row))
            case None => None
  {
    if models != [] {
      FindMarked(models[1..], seen, name);
      assert MarkMissing(models, seen)[1..] == MarkMissing(models[1..], seen);
    }
  }

  // ---- The guarantees ----

  /** Every row of a reported runtime is either exactly its classification, or missing. */
  lemma ReportedRowsAreJudged(reg: Registry, runtimes: seq<Runtime>, items: seq<Item>, k: nat, name: string)
    requires k < |runtimes| && IsReported(runtimes, items, k)
    ensures |ApplyInventory(reg, runtimes, items).1| == |runtimes|
    ensures var before, its := Find(runtimes[k].models, name), ItemsFor(runtimes, items, k, name);
            match Find(ApplyInventory(reg, runtimes, items).1[k].models, name)
            case Some(row) =>
              if its != [] then Some(row) == RowAfter(reg, name, before, its)
                                && (row.status, row.catalogId) == Classify(reg, name, row.digest)
              else before.Some? && row == Gone(before.value) && row.status == Missing
            case None => before.None? && its == []
  {
    assert items != [];
    var (reg1, runtimes1) := ApplyItems(reg, runtimes, items);
    RowsAfterItems(reg, runtimes, items, k, name);
    FindMarked(runtimes1[k].models, NamesFor(runtimes, items, k), name);
    NamesMeanItems(runtimes, items, k, name);
  }

  /** A runtime the report does not mention is left exactly as it was. */
  lemma {:induction false} UnreportedRuntimesAreUntouched(reg: Registry, runtimes: seq<Runtime>, items: seq<Item>, k: nat)
    requires k < |runtimes| && !IsReported(runtimes, items, k)
    ensures |ApplyInventory(reg, runtimes, items).1| == |runtimes|
    ensures ApplyInventory(reg, runtimes, items).1[k] == runtimes[k]
  {
    if items != [] {
      ItemsElsewhere(reg, runtimes, items, k);
    }
  }

  lemma {:induction false} ItemsElsewhere(reg: Registry, runtimes: seq<Runtime>, items: seq<Item>, k: nat)
    requires runtimes != [] && k < |runtimes| && !IsReported(runtimes, items, k)
    ensures ApplyItems(reg, runtimes, items).1[k] == runtimes[k]
  {
    if items != [] {
      var init, item := items[..|items| - 1], items[|items| - 1];
      assert item in items && forall i :: i in init ==> i in items;
      ItemsElsewhere(reg, runtimes, init, k);
      SameTargets(runtimes, ApplyItems(reg, runtimes, init).1, [], k);
    }
  }

  ghost predicate UniqueRows(runtimes: seq<Runtime>) {
    forall k | 0 <= k < |runtimes| :: Unique(runtimes[k].models)
  }

  lemma {:induction false} ItemsKeepUnique(reg: Registry, runtimes: seq<Runtime>, items: seq<Item>)
    requires runtimes != [] && UniqueRows(runtimes)
    ensures UniqueRows(ApplyItems(reg, runtimes, items).1)
  {
    if items != [] {
      var init, item := items[..|items| - 1], items[|items| - 1];
      ItemsKeepUnique(reg, runtimes, init);
      var (reg1, runtimes1) := ApplyItems(reg, runtimes, init);
      var t := Target(runtimes1, item.runtime);
      UniquePut(runtimes1[t].models, item.name, Upsert(reg1, Find(runtimes1[t].models, item.name), item));
    }
  }

  /** (runtime, name) stays a key. */
  lemma InventoryKeepsRowsUnique(reg: Registry, runtimes: seq<Runtime>, items: seq<Item>)
    requires UniqueRows(runtimes)
    ensures UniqueRows(ApplyInventory(reg, runtimes, items).1)
  {
    if items != [] && runtimes != [] {
      ItemsKeepUnique(reg, runtimes, items);
    }
  }

  /** The catalogue changes in one way only: aliases grow, and no classification moves. */
  lemma InventoryOnlyGrowsAliases(reg: Registry, runtimes: seq<Runtime>, items: seq<Item>, name: string, sha: string)
    ensures OnlyAliasesGrew(reg, ApplyInventory(reg, runtimes, items).0)
    ensures Classify(ApplyInventory(reg, runtimes, items).0, name, sha) == Classify(reg, name, sha)
  {
    if items != [] && runtimes != [] {
      ItemsOnlyGrowAliases(reg, runtimes, items);
      AliasesDoNotClassify(reg, ApplyInventory(reg, runtimes, items).0, name, sha);
    } else {
      assert OnlyAliasesGrew(reg, reg);
    }
  }

  // ---- Doing it twice ----

  /** Nothing is left to heal: the entry answers to the name, or has no profile to extend. */
  predicate Settled(e: Entry, name: string, engine: string) {
    name in ServingTargets(e) || !HasProfileFor(e.profiles, engine)
  }

  predicate SettledIn(reg: Registry, entry: Option<string>, name: string, engine: string) {
    entry.Some? && Find(reg.entries, entry.value).Some? ==> Settled(Find(reg.entries, entry.value).value, name, engine)
  }

  lemma {:induction false} WithAliasAnswers(profiles: seq<Profile>, engine: string, name: string)
    ensures HasProfileFor(profiles, engine) ==> name in ProfileTargets(WithAlias(profiles, engine, name))
    ensures !HasProfileFor(profiles, engine) ==> WithAlias(profiles, engine, name) == profiles
  {
    if profiles != [] {
      WithAliasAnswers(profiles[1..], engine, name);
      assert profiles == [profiles[0]] + profiles[1..];
      if profiles[0].runtime == engine {
        assert WithAlias(profiles, engine, name)[0].extras != [] && name in WithAlias(profiles, engine, name)[0].extras;
      }
    }
  }

  lemma {:induction false} TargetsGrow(a: seq<Profile>, b: seq<Profile>, name: string)
    requires |a| == |b| && forall i | 0 <= i < |a| :: b[i] == a[i].(extras := b[i].extras) && a[i].extras <= b[i].extras
    ensures name in ProfileTargets(a) ==> name in ProfileTargets(b)
  {
    if a != [] {
      TargetsGrow(a[1..], b[1..], name);
      assert b[0].extras[..|a[0].extras|] == a[0].extras;
    }
  }

  lemma SettledGrows(e: Entry, f: Entry, name: string, engine: string)
    requires GrownFrom(e, f) && Settled(e, name, engine)
    ensures Settled(f, name, engine)
  {
    TargetsGrow(e.profiles, f.profiles, name);
    if HasProfileFor(f.profiles, engine) {
      var i :| 0 <= i < |f.profiles| && f.profiles[i].runtime == engine;
      assert e.profiles[i] in e.profiles;
    }
  }

  lemma {:induction false} FindGrown(a: Rows<string, Entry>, b: Rows<string, Entry>, id: string)
    requires |a| == |b| && forall i | 0 <= i < |a| :: a[i].0 == b[i].0 && GrownFrom(a[i].1, b[i].1)
    ensures Find(a, id).Some? <==> Find(b, id).Some?
    ensures Find(a, id).Some? ==> GrownFrom(Find(a, id).value, Find(b, id).value)
  {
    if a != [] {
      FindGrown(a[1..], b[1..], id);
    }
  }

  lemma SettledInGrows(a: Registry, b: Registry, entry: Option<string>, name: string, engine: string)
    requires OnlyAliasesGrew(a, b) && SettledIn(a, entry, name, engine)
    ensures SettledIn(b, entry, name, engine)
  {
    if entry.Some? {
      FindGrown(a.entries, b.entries, entry.value);
      if Find(a.entries, entry.value).Some? {
        SettledGrows(Find(a.entries, entry.value).value, Find(b.entries, entry.value).value, name, engine);
      }
    }
  }

  lemma HealSettles(reg: Registry, entry: Option<string>, name: string, engine: string)
    ensures SettledIn(Heal(reg, entry, name, engine), entry, name, engine)
  {
    if entry.Some? && Find(reg.entries, entry.value).Some? {
      var e := Find(reg.entries, entry.value).value;
      FindPut(reg.entries, entry.value, HealEntry(e, name, engine), entry.value);
      WithAliasAnswers(e.profiles, engine, name);
      WithAliasGrows(e, engine, name);
    }
  }

  lemma SettledNeedsNoHealing(reg: Registry, entry: Option<string>, name: string, engine: string)
    requires SettledIn(reg, entry, name, engine)
    ensures Heal(reg, entry, name, engine) == reg
  {
    if entry.Some? && Find(reg.entries, entry.value).Some? {
      var e := Find(reg.entries, entry.value).value;
      WithAliasAnswers(e.profiles, engine, name);
      PutSame(reg.entries, entry.value, e);
    }
  }

  /** What row (k, name) rests on before the pass. */
  function BaseOf(runtimes: seq<Runtime>, k: nat, name: string): Evidence
    requires k < |runtimes|
  {
    var prior := Find(runtimes[k].models, name);
    EvidenceOf(if prior.Some? then prior.value else BLANK_ROW)
  }

  /** The hash of item `i`'s row just after item `i`. */
  function DigestAt(runtimes: seq<Runtime>, items: seq<Item>, i: nat): string
    requires runtimes != [] && i < |items|
  {
    var k := Target(runtimes, items[i].runtime);
    MergeAll(BaseOf(runtimes, k, items[i].name), ItemsFor(runtimes, items[..i + 1], k, items[i].name)).digest
  }

  /** An entry to heal, with the name and engine of the row that matched it. */
  datatype Healing = Healing(entry: Option<string>, name: string, engine: string)

  function HealAll(reg: Registry, hs: seq<Healing>): Registry {
    if hs == [] then reg
    else Heal(HealAll(reg, hs[..|hs| - 1]), hs[|hs| - 1].entry, hs[|hs| - 1].name, hs[|hs| - 1].engine)
  }

  predicate IsSettled(reg: Registry, h: Healing) {
    SettledIn(reg, h.entry, h.name, h.engine)
  }

  lemma {:induction false} HealAllSettles(reg: Registry, hs: seq<Healing>, i: nat)
    requires i < |hs|
    ensures IsSettled(HealAll(reg, hs), hs[i])
  {
    var init, last := hs[..|hs| - 1], hs[|hs| - 1];
    if i == |hs| - 1 {
      HealSettles(HealAll(reg, init), last.entry, last.name, last.engine);
    } else {
      HealAllSettles(reg, init, i);
      HealOnlyGrowsAliases(HealAll(reg, init), last.entry, last.name, last.engine);
      SettledInGrows(HealAll(reg, init), HealAll(reg, hs), hs[i].entry, hs[i].name, hs[i].engine);
    }
  }

  lemma {:induction false} NothingLeftToHeal(reg: Registry, hs: seq<Healing>)
    requires forall i | 0 <= i < |hs| :: IsSettled(reg, hs[i])
    ensures HealAll(reg, hs) == reg
  {
    if hs != [] {
      NothingLeftToHeal(reg, hs[..|hs| - 1]);
      SettledNeedsNoHealing(reg, hs[|hs| - 1].entry, hs[|hs| - 1].name, hs[|hs| - 1].engine);
    }
  }

  /** What item `i` heals: the entry it is matched with when it is processed. */
  function HealingAt(reg: Registry, runtimes: seq<Runtime>, items: seq<Item>, i: nat): Healing
    requires runtimes != [] && i < |items|
  {
    Healing(Classify(reg, items[i].name, DigestAt(runtimes, items, i)).1, items[i].name,
            runtimes[Target(runtimes, items[i].runtime)].engine)
  }

  function Healings(reg: Registry, runtimes: seq<Runtime>, items: seq<Item>): (hs: seq<Healing>)
    requires runtimes != []
    ensures |hs| == |items|
  {
    seq(|items|, i requires 0 <= i < |items| => HealingAt(reg, runtimes, items, i))
  }

  /** When item `i` is processed its row states all evidence so far, so it is matched as `HealingAt` says. */
  lemma MatchWhenProcessed(reg: Registry, runtimes: seq<Runtime>, items: seq<Item>, i: nat)
    requires runtimes != [] && i < |items|
    ensures var (reg1, runtimes1) := ApplyItems(reg, runtimes, items[..i]);
            var k, h := Target(runtimes1, items[i].runtime), HealingAt(reg, runtimes, items, i);
            runtimes1[k].engine == h.engine && Upsert(reg1, Find(runtimes1[k].models, h.name), items[i]).catalogId == h.entry
  {
    var item := items[i];
    var (reg1, runtimes1) := ApplyItems(reg, runtimes, items[..i]);
    var k := Target(runtimes, item.runtime);
    SameTargets(runtimes, runtimes1, [], k);
    RowsAfterItems(reg, runtimes, items[..i], k, item.name);
    ItemsOnlyGrowAliases(reg, runtimes, items[..i]);
    UpsertExtendsRow(reg, reg1, Find(runtimes[k].models, item.name), ItemsFor(runtimes, items[..i], k, item.name), item);
    assert items[..i + 1][..i] == items[..i];
    assert ItemsFor(runtimes, items[..i + 1], k, item.name) == ItemsFor(runtimes, items[..i], k, item.name) + [item];
  }

  lemma ItemHeals(reg: Registry, runtimes: seq<Runtime>, items: seq<Item>, i: nat)
    requires runtimes != [] && i < |items|
    ensures var h := HealingAt(reg, runtimes, items, i);
            ApplyItems(reg, runtimes, items[..i + 1]).0 == Heal(ApplyItems(reg, runtimes, items[..i]).0, h.entry, h.name, h.engine)
  {
    MatchWhenProcessed(reg, runtimes, items, i);
    assert items[..i + 1][..i] == items[..i] && items[..i + 1][i] == items[i];
  }

  lemma {:induction false} ChainHeals(rs: seq<Registry>, hs: seq<Healing>)
    requires |rs| == |hs| + 1
    requires forall i | 0 <= i < |hs| :: rs[i + 1] == Heal(rs[i], hs[i].entry, hs[i].name, hs[i].engine)
    ensures rs[|hs|] == HealAll(rs[0], hs)
  {
    if hs != [] {
      var n := |hs| - 1;
      ChainHeals(rs[..n + 1], hs[..n]);
      assert rs[n + 1] == Heal(rs[n], hs[n].entry, hs[n].name, hs[n].engine);
    }
  }

  /** All the pass does to the catalogue is heal each item's match in turn. */
  lemma ItemsHeal(reg: Registry, runtimes: seq<Runtime>, items: seq<Item>)
    requires runtimes != []
    ensures ApplyItems(reg, runtimes, items).0 == HealAll(reg, Healings(reg, runtimes, items))
  {
    var hs := Healings(reg, runtimes, items);
    var rs := seq(|items| + 1, i requires 0 <= i <= |items| => ApplyItems(reg, runtimes, items[..i]).0);
    forall i | 0 <= i < |hs| ensures rs[i + 1] == Heal(rs[i], hs[i].entry, hs[i].name, hs[i].engine) {
      ItemHeals(reg, runtimes, items, i);
    }
    ChainHeals(rs, hs);
    assert items[..|items|] == items && items[..0] == [];
  }

  /** After the pass every item's match, as it stood when the item was processed, is settled. */
  lemma EveryItemIsSettled(reg: Registry, runtimes: seq<Runtime>, items: seq<Item>, i: nat)
    requires runtimes != [] && i < |items|
    ensures IsSettled(ApplyItems(reg, runtimes, items).0, HealingAt(reg, runtimes, items, i))
  {
    var hs := Healings(reg, runtimes, items);
    ItemsHeal(reg, runtimes, items);
    HealAllSettles(reg, hs, i);
  }

  /** The last item that concerns a row sees all of them. */
  lemma {:induction false} LastItemFor(runtimes: seq<Runtime>, items: seq<Item>, k: nat, name: string) returns (i: nat)
    requires runtimes != [] && ItemsFor(runtimes, items, k, name) != []
    ensures i < |items| && Target(runtimes, items[i].runtime) == k && items[i].name == name
    ensures ItemsFor(runtimes, items[..i + 1], k, name) == ItemsFor(runtimes, items, k, name)
  {
    var n := |items| - 1;
    if Target(runtimes, items[n].runtime) == k && items[n].name == name {
      assert items[..n + 1] == items;
      return n;
    }
    assert ItemsFor(runtimes, items, k, name) == ItemsFor(runtimes, items[..n], k, name);
    i := LastItemFor(runtimes, items[..n], k, name);
    assert items[..n][..i + 1] == items[..i + 1];
  }

  /** A row that has been through the pass comes out of it unchanged. */
  lemma RowTwice(reg: Registry, reg1: Registry, name: string, prior: Option<ModelRow>, its: seq<Item>)
    requires OnlyAliasesGrew(reg, reg1)
    ensures RowAfter(reg1, name, RowAfter(reg, name, prior, its), its) == RowAfter(reg, name, prior, its)
  {
    if its != [] {
      var base := EvidenceOf(if prior.Some? then prior.value else BLANK_ROW);
      MergeAllTwice(base, its);
      var e := MergeAll(base, its);
      AliasesDoNotClassify(reg, reg1, name, e.digest);
      assert RowAfter(reg, name, prior, its) == Some(Judged(reg, name, e, its[|its| - 1].loaded));
      assert EvidenceOf(Judged(reg, name, e, its[|its| - 1].loaded)) == e;
    }
  }

  lemma ModelsTwice(reg: Registry, runtimes: seq<Runtime>, items: seq<Item>, k: nat)
    requires k < |runtimes| && UniqueRows(runtimes) && items != []
    ensures var (reg1, settled) := ApplyInventory(reg, runtimes, items);
            |settled| == |runtimes| && ApplyItems(reg1, settled, items).1[k] == settled[k]
  {
    var (reg1, merged) := ApplyItems(reg, runtimes, items);
    var settled := ApplyInventory(reg, runtimes, items).1;
    SameTargets(runtimes, settled, items, k);
    if !IsReported(runtimes, items, k) {
      ItemsElsewhere(reg1, settled, items, k);
    } else {
      var again := ApplyItems(reg1, settled, items).1;
      var seen := NamesFor(runtimes, items, k);
      InventoryKeepsRowsUnique(reg, runtimes, items);
      ItemsKeepUnique(reg1, settled, items);
      KeysAfterItems(reg, runtimes, items, k);
      KeysAfterItems(reg1, settled, items, k);
      FindMarked(merged[k].models, seen, "");
      forall n | n in seen ensures n in KeysOf(settled[k].models) {
        AppendNewMembers(KeysOf(runtimes[k].models), seen, n);
      }
      AppendNewKnown(KeysOf(settled[k].models), seen);
      forall n | n in KeysOf(again[k].models) ensures Find(again[k].models, n) == Find(settled[k].models, n) {
        RowsAfterItems(reg, runtimes, items, k, n);
        RowsAfterItems(reg1, settled, items, k, n);
        FindMarked(merged[k].models, seen, n);
        NamesMeanItems(runtimes, items, k, n);
        ItemsOnlyGrowAliases(reg, runtimes, items);
        RowTwice(reg, reg1, n, Find(runtimes[k].models, n), ItemsFor(runtimes, items, k, n));
      }
      SameTable(again[k].models, settled[k].models);
    }
  }

  /** After the pass a reported row rests on everything the report said about it. */
  lemma SettledBase(reg: Registry, runtimes: seq<Runtime>, items: seq<Item>, j: nat)
    requires runtimes != [] && j < |items|
    ensures var settled, k, name := ApplyInventory(reg, runtimes, items).1, Target(runtimes, items[j].runtime), items[j].name;
            |settled| == |runtimes| && ItemsFor(runtimes, items, k, name) != []
            && BaseOf(settled, k, name) == MergeAll(BaseOf(runtimes, k, name), ItemsFor(runtimes, items, k, name))
  {
    var k, name := Target(runtimes, items[j].runtime), items[j].name;
    ItemsForPrefix(runtimes, items, j, k, name);
    NamesMeanItems(runtimes, items, k, name);
    RowsAfterItems(reg, runtimes, items, k, name);
    FindMarked(ApplyItems(reg, runtimes, items).1[k].models, NamesFor(runtimes, items, k), name);
    assert items[j] in items && IsReported(runtimes, items, k);
  }

  lemma DigestAfterMerges(base: Evidence, all: seq<Item>, some: seq<Item>)
    ensures MergeAll(MergeAll(base, all), some).digest ==
            if MergeAll(NO_EVIDENCE, some).digest != "" then MergeAll(base, some).digest else MergeAll(base, all).digest
  {
    MergeAllFactors(MergeAll(base, all), some);
    MergeAllFactors(base, some);
  }

  /** The second pass matches each item as some item of the first pass was matched. */
  lemma DigestAgain(reg: Registry, runtimes: seq<Runtime>, items: seq<Item>, j: nat) returns (i: nat)
    requires runtimes != [] && j < |items|
    ensures var settled := ApplyInventory(reg, runtimes, items).1;
      && settled != []
      && i < |items| && items[i].name == items[j].name && Target(runtimes, items[i].runtime) == Target(runtimes, items[j].runtime)
      && DigestAt(settled, items, j) == DigestAt(runtimes, items, i)
  {
    var settled := ApplyInventory(reg, runtimes, items).1;
    var k, name := Target(runtimes, items[j].runtime), items[j].name;
    SameTargets(runtimes, settled, items[..j + 1], k);
    SettledBase(reg, runtimes, items, j);
    var some := ItemsFor(runtimes, items[..j + 1], k, name);
    DigestAfterMerges(BaseOf(runtimes, k, name), ItemsFor(runtimes, items, k, name), some);
    i := j;
    if MergeAll(NO_EVIDENCE, some).digest == "" {
      i := LastItemFor(runtimes, items, k, name);
    }
  }

  lemma {:induction false} ItemsForPrefix(runtimes: seq<Runtime>, items: seq<Item>, j: nat, k: nat, name: string)
    requires runtimes != [] && j < |items| && Target(runtimes, items[j].runtime) == k && items[j].name == name
    ensures ItemsFor(runtimes, items, k, name) != []
  {
    if j < |items| - 1 {
      ItemsForPrefix(runtimes, items[..|items| - 1], j, k, name);
    }
  }

  /** On the second pass every match is already settled. */
  lemma SecondPassIsSettled(reg: Registry, runtimes: seq<Runtime>, items: seq<Item>, j: nat)
    requires runtimes != [] && j < |items|
    ensures var (reg1, settled) := ApplyInventory(reg, runtimes, items);
            settled != [] && IsSettled(reg1, HealingAt(reg1, settled, items, j))
  {
    var (reg1, settled) := ApplyInventory(reg, runtimes, items);
    var i := DigestAgain(reg, runtimes, items, j);
    SameTargets(runtimes, settled, [], 0);
    InventoryOnlyGrowsAliases(reg, runtimes, items, items[i].name, DigestAt(runtimes, items, i));
    assert HealingAt(reg1, settled, items, j) == HealingAt(reg, runtimes, items, i);
    EveryItemIsSettled(reg, runtimes, items, i);
  }

  lemma RegistryTwice(reg: Registry, runtimes: seq<Runtime>, items: seq<Item>)
    requires runtimes != [] && items != []
    ensures var (reg1, settled) := ApplyInventory(reg, runtimes, items);
            settled != [] && ApplyItems(reg1, settled, items).0 == reg1
  {
    var (reg1, settled) := ApplyInventory(reg, runtimes, items);
    var hs := Healings(reg1, settled, items);
    forall j | 0 <= j < |hs| ensures IsSettled(reg1, hs[j]) {
      SecondPassIsSettled(reg, runtimes, items, j);
    }
    NothingLeftToHeal(reg1, hs);
    ItemsHeal(reg1, settled, items);
  }

  lemma MarkTwice(models: Rows<string, ModelRow>, seen: seq<string>)
    ensures MarkMissing(MarkMissing(models, seen), seen) == MarkMissing(models, seen)
  {
  }

  /** Reporting the same inventory twice is reporting it once, duplicates and conflicting hashes included. */
  lemma InventoryIsIdempotent(reg: Registry, runtimes: seq<Runtime>, items: seq<Item>)
    requires UniqueRows(runtimes)
    ensures var (reg1, settled) := ApplyInventory(reg, runtimes, items);
            ApplyInventory(reg1, settled, items) == (reg1, settled)
  {
    if items != [] && runtimes != [] {
      var (reg1, settled) := ApplyInventory(reg, runtimes, items);
      RegistryTwice(reg, runtimes, items);
      var again := ApplyInventory(reg1, settled, items).1;
      forall k | 0 <= k < |settled| ensures again[k] == settled[k] {
        ModelsTwice(reg, runtimes, items, k);
        SameTargets(runtimes, settled, items, k);
        MarkTwice(ApplyItems(reg, runtimes, items).1[k].models, NamesFor(runtimes, items, k));
      }
      assert again == settled;
    }
  }
}
