/**
 Turning a quarantined worker hash into a catalogue entry
 (backend/catalog_service.py, backend/reconciliation.py). `fleet` holds the
 runtimes of every worker, in table order.
 */
module Adoption {
  import opened Options
  import opened KeyedRows
  import opened Catalogue
  import opened Scheduler
  import opened Reconciliation
  import opened InventoryTheorems
  import opened Slugs
  import SlugWords
  import ReportedRows

  // ---- Re-classifying a hash ----

  function ReclassifyRows(reg: Registry, engine: string, models: Rows<string, ModelRow>, d: string): (Registry, Rows<string, ModelRow>)
    decreases |models|
  {
    if models == [] then (reg, [])
    else
      var (name, row) := models[0];
      if InPinForms(row.digest, d) then
        var (status, entry) := Classify(reg, name, row.digest);
        var (reg1, rest) := ReclassifyRows(Heal(reg, entry, name, engine), engine, models[1..], d);
        (reg1, [(name, row.(status := status, catalogId := entry))] + rest)
      else
        var (reg1, rest) := ReclassifyRows(reg, engine, models[1..], d);
        (reg1, [models[0]] + rest)
  }

  function Reclassify(reg: Registry, fleet: seq<Runtime>, d: string): (Registry, seq<Runtime>)
    decreases |fleet|
  {
    if fleet == [] then (reg, [])
    else
      var (reg1, models) := ReclassifyRows(reg, fleet[0].engine, fleet[0].models, d);
      var (reg2, rest) := Reclassify(reg1, fleet[1..], d);
      (reg2, [fleet[0].(models := models)] + rest)
  }

  method ReclassifyModels(reg: Registry, engine: string, models: Rows<string, ModelRow>, d: string)
    returns (registry: Registry, done: Rows<string, ModelRow>)
    ensures (registry, done) == ReclassifyRows(reg, engine, models, d)
  {
    registry, done := reg, [];
    assert models[0..] == models;
    for i := 0 to |models|
      invariant ReclassifyRows(reg, engine, models, d).0 == ReclassifyRows(registry, engine, models[i..], d).0
      invariant ReclassifyRows(reg, engine, models, d).1 == done + ReclassifyRows(registry, engine, models[i..], d).1
    {
      var (name, row) := models[i];
      assert models[i..][1..] == models[i + 1..];
      if InPinForms(row.digest, d) {
        var (status, entry) := Classify(registry, name, row.digest);
        registry := Heal(registry, entry, name, engine);
        row := row.(status := status, catalogId := entry);
      }
      done := done + [(name, row)];
    }
    assert models[|models|..] == [] && done + [] == done;
  }

  /** The loop as written: every row carrying the hash, healed and re-stated in place. */
  method ReclassifyHash(reg: Registry, fleet: seq<Runtime>, d: string) returns (registry: Registry, runtimes: seq<Runtime>)
    ensures (registry, runtimes) == Reclassify(reg, fleet, d)
  {
    registry, runtimes := reg, [];
    assert fleet[0..] == fleet;
    for k := 0 to |fleet|
      invariant Reclassify(reg, fleet, d).0 == Reclassify(registry, fleet[k..], d).0
      invariant Reclassify(reg, fleet, d).1 == runtimes + Reclassify(registry, fleet[k..], d).1
    {
      assert fleet[k..][1..] == fleet[k + 1..];
      var reg1, models := ReclassifyModels(registry, fleet[k].engine, fleet[k].models, d);
      registry := reg1;
      runtimes := runtimes + [fleet[k].(models := models)];
    }
    assert fleet[|fleet|..] == [] && runtimes + [] == runtimes;
  }

  /** The row after re-classification, in terms of the catalogue before it. */
  function RowReclassified(reg: Registry, name: string, row: ModelRow, d: string): ModelRow {
    if InPinForms(row.digest, d)
    then row.(status := Classify(reg, name, row.digest).0, catalogId := Classify(reg, name, row.digest).1)
    else row
  }

  lemma RowsReclassifyAlike(reg: Registry, next: Registry, models: Rows<string, ModelRow>, d: string)
    requires OnlyAliasesGrew(reg, next)
    ensures forall i | 0 <= i < |models| :: RowReclassified(next, models[i].0, models[i].1, d) == RowReclassified(reg, models[i].0, models[i].1, d)
  {
    forall i | 0 <= i < |models|
      ensures RowReclassified(next, models[i].0, models[i].1, d) == RowReclassified(reg, models[i].0, models[i].1, d)
    {
      AliasesDoNotClassify(reg, next, models[i].0, models[i].1.digest);
    }
  }

  lemma {:induction false} ReclassifiedRows(reg: Registry, engine: string, models: Rows<string, ModelRow>, d: string)
    ensures var (reg1, r) := ReclassifyRows(reg, engine, models, d);
      && OnlyAliasesGrew(reg, reg1) && |r| == |models|
      && forall i | 0 <= i < |models| :: r[i] == (models[i].0, RowReclassified(reg, models[i].0, models[i].1, d))
    decreases |models|
  {
    if models != [] {
      var (name, row) := models[0];
      var next := if InPinForms(row.digest, d) then Heal(reg, Classify(reg, name, row.digest).1, name, engine) else reg;
      HealOnlyGrowsAliases(reg, Classify(reg, name, row.digest).1, name, engine);
      assert OnlyAliasesGrew(reg, reg);
      ReclassifiedRows(next, engine, models[1..], d);
      OnlyAliasesGrewComposes(reg, next, ReclassifyRows(reg, engine, models, d).0);
      RowsReclassifyAlike(reg, next, models[1..], d);
    }
  }

  lemma {:induction false} ReclassifiedFleet(reg: Registry, fleet: seq<Runtime>, d: string)
    ensures var (reg1, fleet1) := Reclassify(reg, fleet, d);
      && OnlyAliasesGrew(reg, reg1) && |fleet1| == |fleet|
      && forall k | 0 <= k < |fleet| ::
           fleet1[k] == fleet[k].(models := fleet1[k].models) && |fleet1[k].models| == |fleet[k].models|
           && forall i | 0 <= i < |fleet[k].models| ::
                fleet1[k].models[i] == (fleet[k].models[i].0, RowReclassified(reg, fleet[k].models[i].0, fleet[k].models[i].1, d))
    decreases |fleet|
  {
    if fleet == [] {
      assert OnlyAliasesGrew(reg, reg);
    } else {
      var (reg1, models) := ReclassifyRows(reg, fleet[0].engine, fleet[0].models, d);
      ReclassifiedRows(reg, fleet[0].engine, fleet[0].models, d);
      ReclassifiedFleet(reg1, fleet[1..], d);
      OnlyAliasesGrewComposes(reg, reg1, Reclassify(reg, fleet, d).0);
      var fleet1 := Reclassify(reg, fleet, d).1;
      forall k, i | 1 <= k < |fleet| && 0 <= i < |fleet[k].models|
        ensures fleet1[k].models[i] == (fleet[k].models[i].0, RowReclassified(reg, fleet[k].models[i].0, fleet[k].models[i].1, d))
      {
        AliasesDoNotClassify(reg, reg1, fleet[k].models[i].0, fleet[k].models[i].1.digest);
        assert fleet[1..][k - 1] == fleet[k] && fleet1[k] == Reclassify(reg1, fleet[1..], d).1[k - 1];
      }
    }
  }

  // ---- Adopting one hash ----

  datatype AdoptRequest = AdoptRequest(
    sha: string, id: string, runtime: string, modelId: string, extras: seq<string>,
    vramGb: Option<real>, quant: string, enabled: bool, orgKnown: bool)

  datatype AdoptError = BadId(errors: seq<NamingError>) | IdTaken | AlreadyPinned(owner: string) | NotAReportedName | UnknownOrg

  datatype Outcome = Adopted(registry: Registry, fleet: seq<Runtime>) | Rejected(error: AdoptError)

  /** Every name workers report for this hash. */
  function LocalNames(fleet: seq<Runtime>, sha: string): set<string> {
    if Bare(sha) == "" then {}
    else set k, i | 0 <= k < |fleet| && 0 <= i < |fleet[k].models| && InPinForms(fleet[k].models[i].1.digest, Bare(sha)) ::
           fleet[k].models[i].0
  }

  function Without(names: seq<string>, name: string): seq<string> {
    if names == [] then []
    else if names[0] == name then Without(names[1..], name)
    else [names[0]] + Without(names[1..], name)
  }

  predicate NamesAreReported(fleet: seq<Runtime>, req: AdoptRequest) {
    var names := LocalNames(fleet, req.sha);
    names != {} ==> req.modelId in names && forall n | n in req.extras :: n in names
  }

  function NewEntry(req: AdoptRequest): Entry {
    Entry(req.runtime, req.modelId, Bare(req.sha),
          [Profile(req.runtime, req.modelId, Without(req.extras, req.modelId))], req.vramGb, req.enabled, Unverified)
  }

  function WithEntry(reg: Registry, req: AdoptRequest): Registry {
    reg.(entries := reg.entries + [(req.id, NewEntry(req))])
  }

  function Adopt(reg: Registry, fleet: seq<Runtime>, req: AdoptRequest): Outcome {
    if ValidateEntryId(req.id, req.quant) != [] then Rejected(BadId(ValidateEntryId(req.id, req.quant)))
    else if Find(reg.entries, req.id).Some? then Rejected(IdTaken)
    else if FindByHash(reg, req.sha).Some? then Rejected(AlreadyPinned(FindByHash(reg, req.sha).value))
    else if !NamesAreReported(fleet, req) then Rejected(NotAReportedName)
    else if !req.orgKnown then Rejected(UnknownOrg)
    else if Bare(req.sha) == "" then Adopted(WithEntry(reg, req), fleet)
    else
      var (reg1, fleet1) := Reclassify(WithEntry(reg, req), fleet, Bare(req.sha));
      Adopted(reg1, fleet1)
  }

  /** Some worker reports the hash under this name. */
  ghost predicate IsReportedAs(fleet: seq<Runtime>, sha: string, name: string) {
    exists rt, m :: rt in fleet && m in rt.models && m.0 == name && ReportedRows.IsHashOf(m.1.digest, sha)
  }

  ghost predicate IsGoodIdFor(id: string, quant: string) {
    exists words :: SlugWords.IsGoodId(id, quant, words) || SlugWords.IsGoodButForANewline(id, quant, words)
  }

  /** A hash some worker reports may be served only under names it is reported under. */
  ghost predicate UsesReportedNames(fleet: seq<Runtime>, req: AdoptRequest) {
    (exists name :: IsReportedAs(fleet, req.sha, name)) ==>
      IsReportedAs(fleet, req.sha, req.modelId) && forall n | n in req.extras :: IsReportedAs(fleet, req.sha, n)
  }

  ghost predicate IsKnownHash(reg: Registry, sha: string, owner: string) {
    ReportedRows.Pins(reg, owner, sha) || ReportedRows.Owns(reg, owner, sha)
  }

  /** Each refusal has its reason. */
  ghost predicate IsJustified(reg: Registry, fleet: seq<Runtime>, req: AdoptRequest, error: AdoptError) {
    match error
    case BadId(_) => !IsGoodIdFor(req.id, req.quant)
    case IdTaken => exists e :: e in reg.entries && e.0 == req.id
    case AlreadyPinned(owner) => IsKnownHash(reg, req.sha, owner)
    case NotAReportedName => !UsesReportedNames(fleet, req)
    case UnknownOrg => !req.orgKnown
  }

  lemma LocalNamesMean(fleet: seq<Runtime>, sha: string, name: string)
    ensures name in LocalNames(fleet, sha) <==> IsReportedAs(fleet, sha, name)
  {
    if name in LocalNames(fleet, sha) {
      var k, i :| 0 <= k < |fleet| && 0 <= i < |fleet[k].models| && InPinForms(fleet[k].models[i].1.digest, Bare(sha)) && fleet[k].models[i].0 == name;
      assert fleet[k] in fleet && fleet[k].models[i] in fleet[k].models;
    }
    if rt, m :| rt in fleet && m in rt.models && m.0 == name && ReportedRows.IsHashOf(m.1.digest, sha) {
      var k :| 0 <= k < |fleet| && fleet[k] == rt;
      var i :| 0 <= i < |rt.models| && rt.models[i] == m;
      assert InPinForms(fleet[k].models[i].1.digest, Bare(sha));
    }
  }

  lemma NamesMean(fleet: seq<Runtime>, req: AdoptRequest)
    ensures NamesAreReported(fleet, req) <==> UsesReportedNames(fleet, req)
  {
    forall name ensures name in LocalNames(fleet, req.sha) <==> IsReportedAs(fleet, req.sha, name) {
      LocalNamesMean(fleet, req.sha, name);
    }
  }

  lemma HashLookupMeans(reg: Registry, sha: string)
    ensures FindByHash(reg, sha).None? <==> forall owner :: !IsKnownHash(reg, sha, owner)
    ensures FindByHash(reg, sha).Some? ==> IsKnownHash(reg, sha, FindByHash(reg, sha).value)
  {
    FirstPinnedIsPinned(reg.entries, Bare(sha));
    ReportedRows.FirstOwnerOwns(reg.files, Bare(sha));
    if Bare(sha) != "" {
      match FirstPinned(reg.entries, Bare(sha))
      case Some(id) => assert IsKnownHash(reg, sha, id);
      case None =>
        match FirstOwner(reg.files, Bare(sha))
        case Some(id) => assert IsKnownHash(reg, sha, id);
        case None =>
    }
  }

  /** An adoption goes through exactly when nothing speaks against it, and a refusal says what does. */
  lemma AdoptionsAreGrantedExactly(reg: Registry, fleet: seq<Runtime>, req: AdoptRequest)
    ensures Adopt(reg, fleet, req).Adopted? <==>
            && IsGoodIdFor(req.id, req.quant)
            && (forall e | e in reg.entries :: e.0 != req.id)
            && (forall owner :: !IsKnownHash(reg, req.sha, owner))
            && UsesReportedNames(fleet, req) && req.orgKnown
    ensures Adopt(reg, fleet, req).Rejected? ==> IsJustified(reg, fleet, req, Adopt(reg, fleet, req).error)
  {
    SlugWords.IdsAreAcceptedExactly(req.id, req.quant);
    EntryIdsMean(reg.entries, req.id);
    HashLookupMeans(reg, req.sha);
    NamesMean(fleet, req);
  }

  lemma {:induction false} EntryIdsMean(entries: Rows<string, Entry>, id: string)
    ensures Find(entries, id).Some? <==> exists e :: e in entries && e.0 == id
  {
    if entries != [] {
      EntryIdsMean(entries[1..], id);
      assert entries == [entries[0]] + entries[1..];
    }
  }

  /** No two entries pin the same bytes. */
  ghost predicate PinsAreUnique(entries: Rows<string, Entry>) {
    forall i, j | 0 <= i < j < |entries| :: Bare(entries[i].1.digest) == "" || Bare(entries[i].1.digest) != Bare(entries[j].1.digest)
  }

  ghost predicate PinsAreStored(entries: Rows<string, Entry>) {
    forall e | e in entries :: StoredForm(e.1.digest)
  }

  lemma PinsSurviveAliases(a: Registry, b: Registry)
    requires OnlyAliasesGrew(a, b)
    ensures PinsAreUnique(a.entries) ==> PinsAreUnique(b.entries)
    ensures PinsAreStored(a.entries) ==> PinsAreStored(b.entries)
    ensures KeysOf(a.entries) == KeysOf(b.entries)
  {
    forall e | e in b.entries && PinsAreStored(a.entries) ensures StoredForm(e.1.digest) {
      var i :| 0 <= i < |b.entries| && b.entries[i] == e;
      assert a.entries[i] in a.entries;
    }
  }

  lemma {:induction false} FirstPinnedInConcat(a: Rows<string, Entry>, b: Rows<string, Entry>, d: string)
    ensures FirstPinned(a + b, d) == if FirstPinned(a, d).Some? then FirstPinned(a, d) else FirstPinned(b, d)
  {
    if a == [] {
      assert a + b == b;
    } else {
      FirstPinnedInConcat(a[1..], b, d);
      assert (a + b)[1..] == a[1..] + b;
    }
  }

  /** A hash known to no entry and no file is pinned, after adoption, by the new entry alone. */
  lemma AdoptedHashIsFound(reg: Registry, req: AdoptRequest, name: string, digest: string)
    requires FindByHash(reg, req.sha).None? && StoredForm(req.sha) && Bare(req.sha) != ""
    requires InPinForms(digest, Bare(req.sha))
    ensures Classify(WithEntry(reg, req), name, digest) == (Available, Some(req.id))
  {
    BareOfPrefixed(Bare(req.sha));
    FirstPinnedInConcat(reg.entries, [(req.id, NewEntry(req))], Bare(req.sha));
  }

  lemma NewEntryKeepsPinsUnique(reg: Registry, req: AdoptRequest)
    requires PinsAreUnique(reg.entries) && PinsAreStored(reg.entries) && StoredForm(req.sha)
    requires FindByHash(reg, req.sha).None?
    ensures PinsAreUnique(WithEntry(reg, req).entries) && PinsAreStored(WithEntry(reg, req).entries)
  {
    var d := Bare(req.sha);
    FirstPinnedIsPinned(reg.entries, d);
    assert ':' !in d && Bare(d) == d;
    forall e | e in reg.entries && d != "" ensures Bare(e.1.digest) != d {
      PinFormsMeanEqualBare(e.1.digest, d);
    }
    assert forall i | 0 <= i < |reg.entries| :: reg.entries[i] in reg.entries;
  }

  lemma NewKeyKeepsUnique(entries: Rows<string, Entry>, id: string, e: Entry)
    requires Unique(entries) && Find(entries, id).None?
    ensures Unique(entries + [(id, e)]) && KeysOf(entries + [(id, e)]) == KeysOf(entries) + [id]
  {
    FindMeansMember(entries, id);
    forall i | 0 <= i < |entries| ensures entries[i].0 != id {
      assert KeysOf(entries)[i] == entries[i].0;
    }
  }

  lemma SameKeysUnique(a: Rows<string, Entry>, b: Rows<string, Entry>)
    requires Unique(a) && KeysOf(a) == KeysOf(b)
    ensures Unique(b)
  {
    forall i, j | 0 <= i < j < |b| ensures b[i].0 != b[j].0 {
      assert KeysOf(b)[i] == b[i].0 && KeysOf(b)[j] == b[j].0 && KeysOf(a)[i] == a[i].0 && KeysOf(a)[j] == a[j].0;
      assert |KeysOf(a)| == |a|;
    }
  }

  lemma AdoptedRegistry(reg: Registry, fleet: seq<Runtime>, req: AdoptRequest)
    requires Adopt(reg, fleet, req).Adopted?
    ensures OnlyAliasesGrew(WithEntry(reg, req), Adopt(reg, fleet, req).registry)
    ensures Find(reg.entries, req.id).None? && FindByHash(reg, req.sha).None?
  {
    assert OnlyAliasesGrew(WithEntry(reg, req), WithEntry(reg, req));
    ReclassifiedFleet(WithEntry(reg, req), fleet, Bare(req.sha));
  }

  /** One hash, one entry: adoption keeps weights digests unique. */
  lemma AdoptKeepsPinsUnique(reg: Registry, fleet: seq<Runtime>, req: AdoptRequest)
    requires PinsAreUnique(reg.entries) && PinsAreStored(reg.entries) && Unique(reg.entries) && StoredForm(req.sha)
    requires Adopt(reg, fleet, req).Adopted?
    ensures var after := Adopt(reg, fleet, req).registry.entries;
            PinsAreUnique(after) && PinsAreStored(after) && Unique(after) && KeysOf(after) == KeysOf(reg.entries) + [req.id]
  {
    AdoptedRegistry(reg, fleet, req);
    NewEntryKeepsPinsUnique(reg, req);
    NewKeyKeepsUnique(reg.entries, req.id, NewEntry(req));
    PinsSurviveAliases(WithEntry(reg, req), Adopt(reg, fleet, req).registry);
    SameKeysUnique(WithEntry(reg, req).entries, Adopt(reg, fleet, req).registry.entries);
  }

  /**
   After an adoption every worker row carrying the hash is available, linked to
   the new entry, and an artifact of it whatever the worker calls it; every other
   row is as it was.
   */
  lemma AdoptedRowsAreServable(reg: Registry, fleet: seq<Runtime>, req: AdoptRequest, k: nat, i: nat)
    requires StoredForm(req.sha) && Bare(req.sha) != "" && Adopt(reg, fleet, req).Adopted?
    requires k < |fleet| && i < |fleet[k].models|
    ensures var out := Adopt(reg, fleet, req);
      && |out.fleet| == |fleet| && |out.fleet[k].models| == |fleet[k].models|
      && Find(out.registry.entries, req.id).Some?
      && var (name, row) := out.fleet[k].models[i];
         var e := Find(out.registry.entries, req.id).value;
         if InPinForms(fleet[k].models[i].1.digest, Bare(req.sha))
         then row.status == Available && row.catalogId == Some(req.id) && IsArtifactOf((name, row.digest), e)
              && (fleet[k].Schedulable() ==> HostsOn(out.fleet[k], e))
         else (name, row) == fleet[k].models[i]
  {
    var d, with, out := Bare(req.sha), WithEntry(reg, req), Adopt(reg, fleet, req);
    var (name0, row0) := fleet[k].models[i];
    ReclassifiedFleet(with, fleet, d);
    FindAppended(reg.entries, req.id, NewEntry(req));
    FindGrown(with.entries, out.registry.entries, req.id);
    var e := Find(out.registry.entries, req.id).value;
    assert Bare(d) == d;
    if InPinForms(row0.digest, d) {
      AdoptedHashIsFound(reg, req, name0, row0.digest);
      BareOfPrefixed(d);
      var (name, row) := out.fleet[k].models[i];
      assert SameBytes(e.digest, row.digest);
      RuntimeArtifactsAreSchedulable(out.fleet[k].models, (name, row.digest));
      HostsMeansSomeArtifact(RuntimeArtifacts(out.fleet[k].models, false), e);
      assert out.fleet[k].models[i] in out.fleet[k].models;
    }
  }

  lemma {:induction false} FindAppended(entries: Rows<string, Entry>, id: string, e: Entry)
    requires Find(entries, id).None?
    ensures Find(entries + [(id, e)], id) == Some(e)
  {
    if entries != [] {
      FindAppended(entries[1..], id, e);
      assert (entries + [(id, e)])[1..] == entries[1..] + [(id, e)];
    }
  }

  /** The entry says what was asked, answers to every name given, and is offered if it was to be enabled. */
  ghost predicate IsAsRequested(e: Entry, req: AdoptRequest) {
    && e.runtime == req.runtime && e.runtimeModelId == req.modelId && e.digest == Bare(req.sha) && e.vramGb == req.vramGb
    && e.enabled == req.enabled && e.status == Unverified
    && |e.profiles| == 1 && e.profiles[0].runtime == req.runtime && e.profiles[0].modelId == req.modelId
    && forall n | n in req.extras :: n == req.modelId || n in e.profiles[0].extras
  }

  lemma {:induction false} WithoutKeepsOthers(names: seq<string>, name: string, n: string)
    ensures n in Without(names, name) <==> n in names && n != name
  {
    if names != [] {
      WithoutKeepsOthers(names[1..], name, n);
    }
  }

  lemma AdoptedEntryIsAsRequested(reg: Registry, fleet: seq<Runtime>, req: AdoptRequest)
    requires Adopt(reg, fleet, req).Adopted?
    ensures var after := Adopt(reg, fleet, req).registry;
            Find(after.entries, req.id).Some? && IsAsRequested(Find(after.entries, req.id).value, req)
    ensures forall id | Find(reg.entries, id).Some? ::
              Find(Adopt(reg, fleet, req).registry.entries, id).Some?
              && GrownFrom(Find(reg.entries, id).value, Find(Adopt(reg, fleet, req).registry.entries, id).value)
  {
    var with, after := WithEntry(reg, req), Adopt(reg, fleet, req).registry;
    AdoptedRegistry(reg, fleet, req);
    FindAppended(reg.entries, req.id, NewEntry(req));
    FindGrown(with.entries, after.entries, req.id);
    forall n | n in req.extras ensures n == req.modelId || n in NewEntry(req).profiles[0].extras {
      WithoutKeepsOthers(req.extras, req.modelId, n);
    }
    forall id | Find(reg.entries, id).Some?
      ensures Find(after.entries, id).Some? && GrownFrom(Find(reg.entries, id).value, Find(after.entries, id).value)
    {
      FindKept(reg.entries, req.id, NewEntry(req), id);
      FindGrown(with.entries, after.entries, id);
    }
  }

  lemma {:induction false} FindKept(entries: Rows<string, Entry>, id: string, e: Entry, other: string)
    requires Find(entries, other).Some?
    ensures Find(entries + [(id, e)], other) == Find(entries, other)
  {
    if entries[0].0 != other {
      FindKept(entries[1..], id, e, other);
      assert (entries + [(id, e)])[1..] == entries[1..] + [(id, e)];
    }
  }

  // ---- The auto-adopt pass ----

  /** What the resolver and the row facts say about one quarantined hash. */
  datatype Proposal =
    | LeaveQuarantined
    | Propose(served: string, extras: seq<string>, slugBase: string, quant: string, runtime: string,
              vramGb: Option<real>, files: seq<string>)

  function Ids(reg: Registry): set<string> {
    set id | id in KeysOf(reg.entries)
  }

  function RequestFor(reg: Registry, digest: string, p: Proposal, enabled: bool): AdoptRequest
    requires p.Propose?
  {
    AdoptRequest(digest, UniqueSlug(Ids(reg), DraftSlug(p.slugBase, p.quant), p.quant), p.runtime, p.served, p.extras,
                 p.vramGb, p.quant, enabled, true)
  }

  function FileRows(owner: string, shas: seq<string>): seq<ArtifactFile> {
    seq(|shas|, i requires 0 <= i < |shas| => ArtifactFile(owner, shas[i]))
  }

  datatype Pass = Pass(registry: Registry, fleet: seq<Runtime>, adopted: nat)

  /** One candidate: adopted and counted, or left with nothing changed. */
  function TryCandidate(p: Pass, digest: string, proposal: Proposal, enabled: bool): Pass {
    if proposal.LeaveQuarantined? then p
    else
      var req := RequestFor(p.registry, digest, proposal, enabled);
      match Adopt(p.registry, p.fleet, req)
      case Adopted(reg, fleet) =>
        Pass(reg.(files := reg.files + FileRows(req.id, proposal.files)), fleet, p.adopted + 1)
      case Rejected(_) => p
  }

  /** The entry says what was proposed. */
  ghost predicate IsEntered(e: Entry, digest: string, p: Proposal, enabled: bool)
    requires p.Propose?
  {
    && e.runtime == p.runtime && e.runtimeModelId == p.served && e.digest == Bare(digest) && e.vramGb == p.vramGb
    && e.enabled == enabled && e.status == Unverified
    && |e.profiles| == 1 && e.profiles[0].runtime == p.runtime && e.profiles[0].modelId == p.served
    && forall n | n in p.extras :: n == p.served || n in e.profiles[0].extras
  }

  ghost predicate FilesAdded(before: seq<ArtifactFile>, after: seq<ArtifactFile>, owner: string, shas: seq<string>) {
    && |after| == |before| + |shas| && before <= after
    && forall i | 0 <= i < |shas| :: after[|before| + i] == ArtifactFile(owner, shas[i])
  }

  lemma RequestsSayWhatIsProposed(reg: Registry, e: Entry, digest: string, p: Proposal, enabled: bool)
    requires p.Propose? && IsAsRequested(e, RequestFor(reg, digest, p, enabled))
    ensures IsEntered(e, digest, p, enabled)
  {
  }

  lemma FilesAreAdded(before: seq<ArtifactFile>, owner: string, shas: seq<string>)
    ensures FilesAdded(before, before + FileRows(owner, shas), owner, shas)
  {
  }

  /** An adopted candidate is entered under one id, with the names, the memory and the files proposed. */
  lemma AdoptedCandidateIsEntered(p: Pass, digest: string, proposal: Proposal, enabled: bool)
    requires TryCandidate(p, digest, proposal, enabled).adopted != p.adopted
    ensures proposal.Propose?
    ensures var q, id := TryCandidate(p, digest, proposal, enabled), RequestFor(p.registry, digest, proposal, enabled).id;
            && q.adopted == p.adopted + 1
            && Find(q.registry.entries, id).Some? && IsEntered(Find(q.registry.entries, id).value, digest, proposal, enabled)
            && FilesAdded(p.registry.files, q.registry.files, id, proposal.files)
  {
    if proposal.Propose? {
      var req := RequestFor(p.registry, digest, proposal, enabled);
      var out := Adopt(p.registry, p.fleet, req);
      if out.Adopted? {
        AdoptedEntryIsAsRequested(p.registry, p.fleet, req);
        RequestsSayWhatIsProposed(p.registry, Find(out.registry.entries, req.id).value, digest, proposal, enabled);
        AdoptedRegistry(p.registry, p.fleet, req);
        assert out.registry.files == p.registry.files;
        FilesAreAdded(p.registry.files, req.id, proposal.files);
      }
    }
  }

  function AutoAdopt(p: Pass, candidates: Rows<string, Proposal>, enabled: bool): Pass {
    if candidates == [] then p
    else
      var last := candidates[|candidates| - 1];
      TryCandidate(AutoAdopt(p, candidates[..|candidates| - 1], enabled), last.0, last.1, enabled)
  }

  method TakeCandidate(reg: Registry, fleet: seq<Runtime>, adopted: nat, digest: string, proposal: Proposal, enabled: bool)
    returns (registry: Registry, runtimes: seq<Runtime>, count: nat)
    ensures Pass(registry, runtimes, count) == TryCandidate(Pass(reg, fleet, adopted), digest, proposal, enabled)
  {
    registry, runtimes, count := reg, fleet, adopted;
    if proposal.Propose? {
      var req := RequestFor(registry, digest, proposal, enabled);
      match Adopt(registry, runtimes, req) {
        case Adopted(reg1, fleet1) =>
          registry, runtimes := reg1.(files := reg1.files + FileRows(req.id, proposal.files)), fleet1;
          count := count + 1;
        case Rejected(_) =>
      }
    }
  }

  method AutoAdoptPass(reg: Registry, fleet: seq<Runtime>, candidates: Rows<string, Proposal>, enabled: bool)
    returns (registry: Registry, runtimes: seq<Runtime>, adopted: nat)
    ensures Pass(registry, runtimes, adopted) == AutoAdopt(Pass(reg, fleet, 0), candidates, enabled)
  {
    registry, runtimes, adopted := reg, fleet, 0;
    for i := 0 to |candidates|
      invariant Pass(registry, runtimes, adopted) == AutoAdopt(Pass(reg, fleet, 0), candidates[..i], enabled)
    {
      assert candidates[..i + 1][..i] == candidates[..i];
      registry, runtimes, adopted := TakeCandidate(registry, runtimes, adopted, candidates[i].0, candidates[i].1, enabled);
    }
    assert candidates[..|candidates|] == candidates;
  }

  ghost predicate IsOrderly(reg: Registry) {
    PinsAreUnique(reg.entries) && PinsAreStored(reg.entries) && Unique(reg.entries)
  }

  /** One candidate adds one entry or nothing. */
  lemma TryCountsItsEntry(p: Pass, digest: string, proposal: Proposal, enabled: bool)
    requires IsOrderly(p.registry) && StoredForm(digest)
    ensures var q := TryCandidate(p, digest, proposal, enabled);
      IsOrderly(q.registry) && q.adopted >= p.adopted
      && |q.registry.entries| - |p.registry.entries| == q.adopted - p.adopted && KeysOf(p.registry.entries) <= KeysOf(q.registry.entries)
  {
    if proposal.Propose? {
      var req := RequestFor(p.registry, digest, proposal, enabled);
      if Adopt(p.registry, p.fleet, req).Adopted? {
        AdoptKeepsPinsUnique(p.registry, p.fleet, req);
        var after := Adopt(p.registry, p.fleet, req).registry.entries;
        assert |KeysOf(after)| == |after|;
      }
    }
  }

  /** The ids grow by one per adoption, in order, and pins stay unique throughout. */
  lemma {:induction false} PassCountsItsEntries(p: Pass, candidates: Rows<string, Proposal>, enabled: bool)
    requires IsOrderly(p.registry)
    requires forall c | c in candidates :: StoredForm(c.0)
    ensures var q := AutoAdopt(p, candidates, enabled);
      && IsOrderly(q.registry) && q.adopted >= p.adopted
      && |q.registry.entries| - |p.registry.entries| == q.adopted - p.adopted
      && KeysOf(p.registry.entries) <= KeysOf(q.registry.entries)
  {
    if candidates != [] {
      var init, last := candidates[..|candidates| - 1], candidates[|candidates| - 1];
      assert last in candidates && forall c :: c in init ==> c in candidates;
      PassCountsItsEntries(p, init, enabled);
      TryCountsItsEntry(AutoAdopt(p, init, enabled), last.0, last.1, enabled);
    }
  }

  /** Some entry pins these bytes, and every row that carries them is available and linked to it. */
  ghost predicate HashIsServed(p: Pass, d: string) {
    && FirstPinned(p.registry.entries, d).Some?
    && forall k, i | 0 <= k < |p.fleet| && 0 <= i < |p.fleet[k].models| && InPinForms(p.fleet[k].models[i].1.digest, d) ::
         p.fleet[k].models[i].1.status == Available && p.fleet[k].models[i].1.catalogId == FirstPinned(p.registry.entries, d)
  }

  /** The first entry that pins `d` after an adoption: the one before, else the new one. */
  lemma PinnedAfterAdoption(reg: Registry, fleet: seq<Runtime>, req: AdoptRequest, d: string)
    requires Adopt(reg, fleet, req).Adopted?
    ensures FirstPinned(Adopt(reg, fleet, req).registry.entries, d)
            == if FirstPinned(reg.entries, d).Some? then FirstPinned(reg.entries, d)
               else if InPinForms(Bare(req.sha), d) then Some(req.id) else None
  {
    AdoptedRegistry(reg, fleet, req);
    SameFirstPinned(WithEntry(reg, req).entries, Adopt(reg, fleet, req).registry.entries, d);
    FirstPinnedInConcat(reg.entries, [(req.id, NewEntry(req))], d);
  }

  lemma AdoptionServesItsHash(p: Pass, req: AdoptRequest, files: seq<ArtifactFile>, adopted: nat)
    requires StoredForm(req.sha) && Bare(req.sha) != "" && Adopt(p.registry, p.fleet, req).Adopted?
    ensures var out := Adopt(p.registry, p.fleet, req);
            HashIsServed(Pass(out.registry.(files := files), out.fleet, adopted), Bare(req.sha))
  {
    var d, out := Bare(req.sha), Adopt(p.registry, p.fleet, req);
    PinnedAfterAdoption(p.registry, p.fleet, req, d);
    ReclassifiedFleet(WithEntry(p.registry, req), p.fleet, d);
    forall k, i | 0 <= k < |out.fleet| && 0 <= i < |out.fleet[k].models| && InPinForms(out.fleet[k].models[i].1.digest, d)
      ensures out.fleet[k].models[i].1.status == Available && out.fleet[k].models[i].1.catalogId == FirstPinned(out.registry.entries, d)
    {
      AdoptedRowsAreServable(p.registry, p.fleet, req, k, i);
    }
  }

  lemma FormsTellHashesApart(stored: string, d: string, other: string)
    requires ':' !in d && ':' !in other && d != other
    ensures !(InPinForms(stored, d) && InPinForms(stored, other))
  {
    BareOfPrefixed(d);
    BareOfPrefixed(other);
  }

  lemma AdoptionKeepsServed(p: Pass, req: AdoptRequest, files: seq<ArtifactFile>, adopted: nat, d: string)
    requires HashIsServed(p, d) && ':' !in d && d != ""
    requires StoredForm(req.sha) && Bare(req.sha) != "" && Adopt(p.registry, p.fleet, req).Adopted?
    ensures var out := Adopt(p.registry, p.fleet, req);
            HashIsServed(Pass(out.registry.(files := files), out.fleet, adopted), d)
  {
    var out := Adopt(p.registry, p.fleet, req);
    PinnedAfterAdoption(p.registry, p.fleet, req, d);
    ReclassifiedFleet(WithEntry(p.registry, req), p.fleet, Bare(req.sha));
    assert d != Bare(req.sha);
    forall k, i | 0 <= k < |out.fleet| && 0 <= i < |out.fleet[k].models| && InPinForms(out.fleet[k].models[i].1.digest, d)
      ensures out.fleet[k].models[i].1.status == Available && out.fleet[k].models[i].1.catalogId == FirstPinned(out.registry.entries, d)
    {
      AdoptedRowsAreServable(p.registry, p.fleet, req, k, i);
      FormsTellHashesApart(p.fleet[k].models[i].1.digest, d, Bare(req.sha));
    }
  }

  lemma CandidateKeepsServed(p: Pass, digest: string, proposal: Proposal, enabled: bool, d: string)
    requires StoredForm(digest) && Bare(digest) != "" && ':' !in d && d != ""
    ensures HashIsServed(p, d) ==> HashIsServed(TryCandidate(p, digest, proposal, enabled), d)
    ensures TryCandidate(p, digest, proposal, enabled).adopted != p.adopted ==>
              HashIsServed(TryCandidate(p, digest, proposal, enabled), Bare(digest))
    ensures TryCandidate(p, digest, proposal, enabled).adopted == p.adopted ==> TryCandidate(p, digest, proposal, enabled) == p
  {
    if proposal.Propose? {
      var req := RequestFor(p.registry, digest, proposal, enabled);
      var out := Adopt(p.registry, p.fleet, req);
      if out.Adopted? {
        var files := out.registry.files + FileRows(req.id, proposal.files);
        AdoptionServesItsHash(p, req, files, p.adopted + 1);
        if HashIsServed(p, d) {
          AdoptionKeepsServed(p, req, files, p.adopted + 1, d);
        }
      }
    }
  }

  /** The pass after each prefix of the candidates. */
  function Passes(p: Pass, candidates: Rows<string, Proposal>, enabled: bool): (ps: seq<Pass>)
    ensures |ps| == |candidates| + 1
  {
    seq(|candidates| + 1, i requires 0 <= i <= |candidates| => AutoAdopt(p, candidates[..i], enabled))
  }

  lemma PassesStep(p: Pass, candidates: Rows<string, Proposal>, enabled: bool, n: nat)
    requires n < |candidates|
    ensures Passes(p, candidates, enabled)[n + 1]
            == TryCandidate(Passes(p, candidates, enabled)[n], candidates[n].0, candidates[n].1, enabled)
  {
    assert candidates[..n + 1][..n] == candidates[..n];
  }

  lemma {:induction false} ServedHashesStayServed(ps: seq<Pass>, candidates: Rows<string, Proposal>, enabled: bool, m: nat, n: nat, d: string)
    requires |ps| == |candidates| + 1 && m <= n <= |candidates| && ':' !in d && d != ""
    requires forall i | 0 <= i < |candidates| ::
               StoredForm(candidates[i].0) && Bare(candidates[i].0) != ""
               && ps[i + 1] == TryCandidate(ps[i], candidates[i].0, candidates[i].1, enabled)
    requires HashIsServed(ps[m], d)
    ensures HashIsServed(ps[n], d)
  {
    if m < n {
      ServedHashesStayServed(ps, candidates, enabled, m, n - 1, d);
      CandidateKeepsServed(ps[n - 1], candidates[n - 1].0, candidates[n - 1].1, enabled, d);
    }
  }

  /** Whatever the rest of the pass does, a hash it adopted is served at the end. */
  lemma PassServesWhatItAdopts(p: Pass, candidates: Rows<string, Proposal>, enabled: bool, j: nat)
    requires forall c | c in candidates :: StoredForm(c.0) && Bare(c.0) != ""
    requires j < |candidates|
    requires AutoAdopt(p, candidates[..j + 1], enabled).adopted != AutoAdopt(p, candidates[..j], enabled).adopted
    ensures HashIsServed(AutoAdopt(p, candidates, enabled), Bare(candidates[j].0))
  {
    var d := Bare(candidates[j].0);
    assert candidates[j] in candidates && ':' !in d;
    var ps := Passes(p, candidates, enabled);
    forall i | 0 <= i < |candidates|
      ensures StoredForm(candidates[i].0) && Bare(candidates[i].0) != ""
              && ps[i + 1] == TryCandidate(ps[i], candidates[i].0, candidates[i].1, enabled)
    {
      assert candidates[i] in candidates;
      PassesStep(p, candidates, enabled, i);
    }
    CandidateKeepsServed(ps[j], candidates[j].0, candidates[j].1, enabled, d);
    ServedHashesStayServed(ps, candidates, enabled, j + 1, |candidates|, d);
    assert candidates[..|candidates|] == candidates;
  }

  /** The names under which quarantined rows carry the hash: what a candidate is drawn from. */
  function CandidateNames(fleet: seq<Runtime>, d: string): set<string> {
    set k, i | 0 <= k < |fleet| && 0 <= i < |fleet[k].models|
               && fleet[k].models[i].1.status == Unregistered && fleet[k].models[i].1.digest != "" && Bare(fleet[k].models[i].1.digest) == d ::
      fleet[k].models[i].0
  }

  /** The served name and every extra one were reported for the hash when the candidates were drawn. */
  predicate IsDrawn(fleet: seq<Runtime>, digest: string, p: Proposal) {
    p.Propose? ==> p.served in CandidateNames(fleet, digest) && forall n | n in p.extras :: n in CandidateNames(fleet, digest)
  }

  ghost predicate RowsAreStored(fleet: seq<Runtime>) {
    forall k, i | 0 <= k < |fleet| && 0 <= i < |fleet[k].models| :: StoredForm(fleet[k].models[i].1.digest)
  }

  /** The same rows, by name and hash. */
  ghost predicate SameReports(a: seq<Runtime>, b: seq<Runtime>) {
    && |a| == |b|
    && forall k | 0 <= k < |a| ::
         |a[k].models| == |b[k].models|
         && forall i | 0 <= i < |a[k].models| ::
              a[k].models[i].0 == b[k].models[i].0 && a[k].models[i].1.digest == b[k].models[i].1.digest
  }

  lemma AdoptKeepsReports(reg: Registry, fleet: seq<Runtime>, req: AdoptRequest)
    requires Adopt(reg, fleet, req).Adopted?
    ensures SameReports(fleet, Adopt(reg, fleet, req).fleet)
  {
    ReclassifiedFleet(WithEntry(reg, req), fleet, Bare(req.sha));
  }

  lemma TryKeepsReports(p: Pass, digest: string, proposal: Proposal, enabled: bool)
    ensures SameReports(p.fleet, TryCandidate(p, digest, proposal, enabled).fleet)
  {
    if proposal.Propose? {
      var req := RequestFor(p.registry, digest, proposal, enabled);
      if Adopt(p.registry, p.fleet, req).Adopted? {
        AdoptKeepsReports(p.registry, p.fleet, req);
      }
    }
  }

  /** A pass states rows anew and never renames or rehashes them. */
  lemma {:induction false} PassKeepsReports(p: Pass, candidates: Rows<string, Proposal>, enabled: bool)
    ensures SameReports(p.fleet, AutoAdopt(p, candidates, enabled).fleet)
  {
    if candidates != [] {
      var init, last := candidates[..|candidates| - 1], candidates[|candidates| - 1];
      PassKeepsReports(p, init, enabled);
      TryKeepsReports(AutoAdopt(p, init, enabled), last.0, last.1, enabled);
    }
  }

  lemma DrawnNamesAreReported(fleet: seq<Runtime>, later: seq<Runtime>, d: string)
    requires RowsAreStored(fleet) && SameReports(fleet, later) && d != "" && ':' !in d
    ensures CandidateNames(fleet, d) <= LocalNames(later, d)
  {
    forall k, i | 0 <= k < |fleet| && 0 <= i < |fleet[k].models| && Bare(fleet[k].models[i].1.digest) == d
      ensures InPinForms(later[k].models[i].1.digest, d)
    {
      PinFormsMeanEqualBare(fleet[k].models[i].1.digest, d);
    }
  }

  lemma DraftedIdsAreNew(reg: Registry, slugBase: string, quant: string)
    requires HasStem(slugBase, quant) && (quant == "" || QuantSlug(quant) != "")
    ensures var id := UniqueSlug(Ids(reg), DraftSlug(slugBase, quant), quant);
            Find(reg.entries, id).None? && forall e | e in ValidateEntryId(id, quant) :: e == RuntimeName
  {
    UniqueDraftsFollowTheRules(Ids(reg), slugBase, quant);
    FindMeansMember(reg.entries, UniqueSlug(Ids(reg), DraftSlug(slugBase, quant), quant));
  }

  lemma DraftsFailOnlyForTwoReasons(reg: Registry, fleet: seq<Runtime>, digest: string, p: Proposal, enabled: bool)
    requires p.Propose? && HasStem(p.slugBase, p.quant) && (p.quant == "" || QuantSlug(p.quant) != "")
    requires p.served in LocalNames(fleet, digest) && forall n | n in p.extras :: n in LocalNames(fleet, digest)
    ensures FailsOnlyForTwoReasons(Adopt(reg, fleet, RequestFor(reg, digest, p, enabled)))
  {
    var req := RequestFor(reg, digest, p, enabled);
    DraftedIdsAreNew(reg, p.slugBase, p.quant);
    assert NamesAreReported(fleet, req) && req.orgKnown;
    OtherReasonsAreExcluded(reg, fleet, req);
  }

  lemma OtherReasonsAreExcluded(reg: Registry, fleet: seq<Runtime>, req: AdoptRequest)
    requires Find(reg.entries, req.id).None? && NamesAreReported(fleet, req) && req.orgKnown
    requires forall e | e in ValidateEntryId(req.id, req.quant) :: e == RuntimeName
    ensures FailsOnlyForTwoReasons(Adopt(reg, fleet, req))
  {
  }

  ghost predicate FailsOnlyForTwoReasons(outcome: Outcome) {
    match outcome
    case Rejected(BadId(errors)) => forall e | e in errors :: e == RuntimeName
    case Rejected(AlreadyPinned(_)) => true
    case Rejected(_) => false
    case Adopted(_, _) => true
  }

  /**
   Wherever in the pass a candidate comes up, it is refused for two reasons only: the drafted id
   names a runtime, or the bytes are pinned already. A taken id or an unreported name cannot
   happen, because its names were drawn from rows that the pass never renames.
   */
  lemma AutoAdoptFailsOnlyForTwoReasons(start: Pass, candidates: Rows<string, Proposal>, enabled: bool, j: nat)
    requires RowsAreStored(start.fleet) && j < |candidates| && candidates[j].1.Propose?
    requires candidates[j].0 != "" && ':' !in candidates[j].0 && IsDrawn(start.fleet, candidates[j].0, candidates[j].1)
    requires HasStem(candidates[j].1.slugBase, candidates[j].1.quant)
    requires candidates[j].1.quant == "" || QuantSlug(candidates[j].1.quant) != ""
    ensures var q := AutoAdopt(start, candidates[..j], enabled);
            FailsOnlyForTwoReasons(Adopt(q.registry, q.fleet, RequestFor(q.registry, candidates[j].0, candidates[j].1, enabled)))
  {
    var q := AutoAdopt(start, candidates[..j], enabled);
    var (digest, p) := candidates[j];
    PassKeepsReports(start, candidates[..j], enabled);
    DrawnNamesAreReported(start.fleet, q.fleet, digest);
    DraftsFailOnlyForTwoReasons(q.registry, q.fleet, digest, p, enabled);
  }

  // ---- Inventory and dispatch agree ----

  lemma PinnerIsFound(entries: Rows<string, Entry>, d: string)
    requires Unique(entries) && PinsAreStored(entries) && d != "" && ':' !in d && FirstPinned(entries, d).Some?
    ensures var id := FirstPinned(entries, d).value; Find(entries, id).Some? && Bare(Find(entries, id).value.digest) == d
  {
    FirstPinnedIsPinned(entries, d);
    var e :| e in entries && e.0 == FirstPinned(entries, d).value && InPinForms(e.1.digest, d);
    var i :| 0 <= i < |entries| && entries[i] == e;
    FindAt(entries, i);
    PinFormsMeanEqualBare(e.1.digest, d);
  }

  /**
   A row verified for an entry can be dispatched for it exactly when its bytes are some entry's
   weights, or the entry pins nothing and answers to the row's name. A row verified through
   another file of a pinned entry is available, linked to the entry, and never served for it.
   */
  lemma VerifiedRowIsDispatchable(reg: Registry, name: string, digest: string, id: string)
    requires Unique(reg.entries) && PinsAreStored(reg.entries) && StoredForm(digest)
    requires Classify(reg, name, digest) == (Available, Some(id)) && Find(reg.entries, id).Some?
    ensures var e := Find(reg.entries, id).value;
            IsArtifactOf((name, digest), e) <==>
              FirstPinned(reg.entries, Bare(digest)).Some? || (Bare(e.digest) == "" && name in ServingTargets(e))
  {
    var d, e := Bare(digest), Find(reg.entries, id).value;
    assert FindByHash(reg, digest) == Some(id) && d != "" && ':' !in d;
    if FirstPinned(reg.entries, d).Some? {
      PinnerIsFound(reg.entries, d);
    } else {
      FirstPinnedIsPinned(reg.entries, d);
      FindMeansMember(reg.entries, id);
      assert (id, e) in reg.entries;
      PinFormsMeanEqualBare(e.digest, d);
    }
  }

  // ---- A verified row that is never served for its own entry ----

  const ENGINE := "vllm"

  function Named(name: string, digest: string): Entry {
    Entry(ENGINE, name, digest, [Profile(ENGINE, name, [])], None, true, Active)
  }

  /** `a` pins `d1` and owns the file `d2`; `b` pins nothing; both answer to the name. */
  function TwoEntries(a: string, b: string, name: string, d1: string, d2: string): Registry {
    Registry([(a, Named(name, d1)), (b, Named(name, ""))], [ArtifactFile(a, d2)])
  }

  const EMPTY_RUNTIME := Runtime(ENGINE, Ready, [], {}, 0)

  lemma TheFileIsFound(a: string, b: string, name: string, d1: string, d2: string)
    requires StoredForm(d1) && d2 != "" && ':' !in d2 && d1 != "" && Bare(d1) != d2
    ensures Classify(TwoEntries(a, b, name, d1, d2), name, d2) == (Available, Some(a))
  {
    var reg := TwoEntries(a, b, name, d1, d2);
    PinFormsMeanEqualBare(d1, d2);
    PinFormsMeanEqualBare("", d2);
    FirstPinnedInConcat([(a, Named(name, d1))], [(b, Named(name, ""))], d2);
    assert reg.entries == [(a, Named(name, d1))] + [(b, Named(name, ""))];
  }

  lemma OneItemReported(reg: Registry, item: Item, id: string)
    requires item.runtime == ENGINE && Classify(reg, item.name, item.sha) == (Available, Some(id))
    requires Find(reg.entries, id).Some? && item.name in ServingTargets(Find(reg.entries, id).value)
    ensures ApplyInventory(reg, [EMPTY_RUNTIME], [item])
            == (reg, [EMPTY_RUNTIME.(models := [(item.name, ModelRow(item.sha, Available, Some(id), item.loaded, item.facts))])])
  {
    var rts := [EMPTY_RUNTIME];
    assert [item][..0] == [] && Target(rts, item.runtime) == 0;
    PutSame(reg.entries, id, Find(reg.entries, id).value);
    var row := Upsert(reg, None, item);
    assert row == ModelRow(item.sha, Available, Some(id), item.loaded, item.facts);
    var rt := EMPTY_RUNTIME.(models := [(item.name, row)]);
    assert ApplyItems(reg, rts, []) == (reg, rts);
    assert Heal(reg, Some(id), item.name, ENGINE) == reg;
    assert Find(rts[0].models, item.name) == None && Put(rts[0].models, item.name, row) == rt.models;
    assert rts[0 := rt] == [rt];
    assert ApplyItems(reg, rts, [item]) == ApplyItem(reg, rts, item) == (reg, [rt]);
    assert NamesFor(rts, [item], 0) == [item.name];
    assert FinishRuntime(rts, rt, [item], 0) == rt;
    assert ApplyInventory(reg, rts, [item]).1 == [rt];
  }

  lemma OneRowHosts(row: ModelRow, name: string, e: Entry)
    requires row.status == Available
    ensures HostingRuntime([EMPTY_RUNTIME.(models := [(name, row)])], e) == if IsArtifactOf((name, row.digest), e) then Some(0) else None
  {
    assert RuntimeArtifacts([], false) == [];
    assert RuntimeArtifacts([(name, row)], false) == [(name, row.digest)];
    assert [(name, row.digest)][1..] == [] && !Hosts([], e);
    assert HostsOn(EMPTY_RUNTIME.(models := [(name, row)]), e) <==> IsArtifactOf((name, row.digest), e);
  }

  /** With that row alone, a host runs batches of the entry that pins nothing and of no other. */
  lemma OneRowServes(row: ModelRow, name: string, d1: string)
    requires row.status == Available && Bare(d1) != "" && Bare(row.digest) != "" && Bare(d1) != Bare(row.digest)
    ensures var runtimes := [EMPTY_RUNTIME.(models := [(name, row)])];
            && (forall h: Host, needs, prompts, open | h.runtimes == runtimes :: !CanServe(Named(name, d1), h, needs, prompts, open))
            && CanServe(Named(name, ""), Host(runtimes, [8.0], None, None, None, None), [], None, true)
  {
    OneRowHosts(row, name, Named(name, d1));
    OneRowHosts(row, name, Named(name, ""));
    assert LargestGpu([8.0]) == Some(8.0);
  }

  /**
   The row that shows it, whatever the hashes and names: reported from an empty runtime, it
   becomes available and linked to `a`; no host with that runtime is given a batch of `a`, and
   yet it runs batches of the unpinned `b`.
   */
  lemma AFileMatchIsServedForAnotherEntry(a: string, b: string, name: string, d1: string, d2: string)
    requires a != b && StoredForm(d1) && d1 != "" && d2 != "" && ':' !in d2 && Bare(d1) != d2
    ensures var reg := TwoEntries(a, b, name, d1, d2);
            var (after, runtimes) := ApplyInventory(reg, [EMPTY_RUNTIME], [Item(name, d2, true, ENGINE, NO_FACTS)]);
            && after == reg && |runtimes| == 1
            && runtimes[0].models == [(name, ModelRow(d2, Available, Some(a), true, NO_FACTS))]
            && (forall h: Host, needs, prompts, open | h.runtimes == runtimes :: !CanServe(Named(name, d1), h, needs, prompts, open))
            && CanServe(Named(name, ""), Host(runtimes, [8.0], None, None, None, None), [], None, true)
  {
    var reg, item := TwoEntries(a, b, name, d1, d2), Item(name, d2, true, ENGINE, NO_FACTS);
    TheFileIsFound(a, b, name, d1, d2);
    OneItemReported(reg, item, a);
    OneRowServes(ModelRow(d2, Available, Some(a), true, NO_FACTS), name, d1);
  }

  /**
   After an inventory report, a hashed row linked to an unpinned entry is dispatchable
   whenever the entry has a profile for the row's engine, whatever the worker calls the row.
   */
  lemma InventoryMakesUnpinnedRowsDispatchable(reg: Registry, runtimes: seq<Runtime>, items: seq<Item>, i: nat)
    requires runtimes != [] && i < |items|
    requires var entry := Classify(reg, items[i].name, DigestAt(runtimes, items, i)).1;
             entry.Some? && Find(reg.entries, entry.value).Some? && Bare(Find(reg.entries, entry.value).value.digest) == ""
             && Bare(DigestAt(runtimes, items, i)) != ""
    ensures var name, digest := items[i].name, DigestAt(runtimes, items, i);
      var id := Classify(reg, name, digest).1.value;
      var found := Find(ApplyInventory(reg, runtimes, items).0.entries, id);
      found.Some? &&
      (HasProfileFor(found.value.profiles, runtimes[Target(runtimes, items[i].runtime)].engine) ==> IsArtifactOf((name, digest), found.value))
  {
    var name, digest := items[i].name, DigestAt(runtimes, items, i);
    var id := Classify(reg, name, digest).1.value;
    EveryItemIsSettled(reg, runtimes, items, i);
    assert items[..|items|] == items;
    ItemsOnlyGrowAliases(reg, runtimes, items);
    FindGrown(reg.entries, ApplyInventory(reg, runtimes, items).0.entries, id);
  }
}
