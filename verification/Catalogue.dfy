/**
 The model catalogue, the rows a worker reports, and the classification of a
 reported artifact against the catalogue (backend/models.py,
 backend/reconciliation.py).

 A nullable string column holds "" when it is NULL: the code only ever tests
 such columns for truth. Digests are stored in lower case.
 */
module Catalogue {
  import opened Options
  import opened KeyedRows

  datatype Profile = Profile(runtime: string, modelId: string, extras: seq<string>)

  datatype EntryStatus = Active | Requested | Deprecated | Unverified

  datatype Entry = Entry(
    runtime: string, runtimeModelId: string, digest: string, profiles: seq<Profile>,
    vramGb: Option<real>, enabled: bool, status: EntryStatus)

  /** One `catalog_artifact_files` row: a file of the entry `owner`. */
  datatype ArtifactFile = ArtifactFile(owner: string, sha256: string)

  /** `model_catalog` keyed by id, and `catalog_artifact_files` in table order. */
  datatype Registry = Registry(entries: Rows<string, Entry>, files: seq<ArtifactFile>)

  datatype RowStatus = Available | Unregistered | Drift | Missing

  /** What a runtime says about an artifact besides its identity; "" and [] are absent. */
  datatype Facts = Facts(details: string, sizeBytes: nat, shards: seq<string>)

  /** One `runtime_models` row. Its name is the key of the runtime's table. */
  datatype ModelRow = ModelRow(
    digest: string, status: RowStatus, catalogId: Option<string>, loaded: bool, facts: Facts)
  {
    predicate Schedulable() {
      status == Available
    }
  }

  datatype RuntimeStatus = Ready | DrainingRuntime | Unavailable

  datatype Runtime = Runtime(
    engine: string, status: RuntimeStatus, models: Rows<string, ModelRow>,
    capabilities: set<string>, emptyBeats: nat)
  {
    predicate Schedulable() {
      status == Ready
    }
  }

  // ---- Digests ----

  function AfterColon(d: string): string
    requires ':' in d
  {
    if d[0] == ':' then d[1..] else AfterColon(d[1..])
  }

  /** Bare hex, without an algorithm prefix; "" when there is no digest. */
  function Bare(d: string): string {
    if ':' in d then AfterColon(d) else d
  }

  /** What is left is after the first ':', or everything. */
  lemma {:induction false} BareMeans(prefix: string, hex: string)
    requires ':' !in prefix
    ensures Bare(prefix) == prefix && Bare(prefix + ":" + hex) == hex
  {
    AfterTheFirstColon(prefix, hex);
  }

  lemma {:induction false} AfterTheFirstColon(prefix: string, hex: string)
    requires ':' !in prefix
    ensures ':' in prefix + ":" + hex && AfterColon(prefix + ":" + hex) == hex
  {
    var d := prefix + ":" + hex;
    if prefix == "" {
      assert d[0] == ':' && d[1..] == hex;
    } else {
      assert prefix[0] in prefix && ':' !in prefix[1..];
      AfterTheFirstColon(prefix[1..], hex);
      assert d[1..] == prefix[1..] + ":" + hex;
    }
    assert d[|prefix|] == ':';
  }

  /** How digests are stored: bare, or with the `sha256:` prefix. */
  predicate StoredForm(d: string) {
    ':' !in d || (Bare(d) != "" && ':' !in Bare(d) && d == "sha256:" + Bare(d))
  }

  /** The SQL filter `column IN (d, 'sha256:' + d)`. */
  predicate InPinForms(stored: string, d: string) {
    stored == d || stored == "sha256:" + d
  }

  lemma BareOfPrefixed(d: string)
    ensures Bare("sha256:" + d) == d
  {
    var s := "sha256:" + d;
    assert s[0] == 's' && s[1] == 'h' && s[2] == 'a' && s[3] == '2' && s[4] == '5' && s[5] == '6' && s[6] == ':';
    assert s[1..][1..][1..][1..][1..][1..] == ":" + d;
    assert AfterColon(":" + d) == d;
    assert AfterColon(s[1..][1..][1..][1..][1..]) == d;
    assert AfterColon(s[1..][1..][1..][1..]) == d;
    assert AfterColon(s[1..][1..][1..]) == d;
    assert AfterColon(s[1..][1..]) == d;
    assert AfterColon(s[1..]) == d;
  }

  /** On stored forms the SQL filter is equality of bare digests. */
  lemma PinFormsMeanEqualBare(stored: string, d: string)
    requires StoredForm(stored) && d != "" && ':' !in d
    ensures InPinForms(stored, d) <==> Bare(stored) == d
  {
    BareOfPrefixed(d);
  }

  // ---- Serving targets ----

  function ProfileTargets(profiles: seq<Profile>): seq<string> {
    if profiles == [] then []
    else [profiles[0].modelId] + profiles[0].extras + ProfileTargets(profiles[1..])
  }

  /** Every runtime id the entry answers to; the legacy column when it has no profile. */
  function ServingTargets(e: Entry): seq<string> {
    if e.profiles == [] then [e.runtimeModelId] else ProfileTargets(e.profiles)
  }

  /** The entry a batch may use: it exists, is enabled and has a selectable status. */
  function SelectableEntry(reg: Registry, model: string): Option<Entry> {
    if model == "" then None
    else
      match Find(reg.entries, model)
      case Some(e) => if e.enabled && e.status in {Active, Unverified} then Some(e) else None
      case None => None
  }

  // ---- Classification ----

  function FirstPinned(entries: Rows<string, Entry>, d: string): Option<string> {
    if entries == [] then None
    else if InPinForms(entries[0].1.digest, d) then Some(entries[0].0)
    else FirstPinned(entries[1..], d)
  }

  function FirstOwner(files: seq<ArtifactFile>, d: string): Option<string> {
    if files == [] then None
    else if InPinForms(files[0].sha256, d) then Some(files[0].owner)
    else FirstOwner(files[1..], d)
  }

  /** The entry these bytes belong to: a weights digest first, then any artifact file. */
  function FindByHash(reg: Registry, sha: string): Option<string> {
    var d := Bare(sha);
    if d == "" then None
    else if FirstPinned(reg.entries, d).Some? then FirstPinned(reg.entries, d)
    else FirstOwner(reg.files, d)
  }

  /** Does the entry answer to this name, by a profile's own id or the legacy column? */
  predicate AnswersTo(e: Entry, name: string) {
    e.runtimeModelId == name || exists p | p in e.profiles :: p.modelId == name
  }

  predicate IsUnknownName(entries: Rows<string, Entry>, name: string) {
    forall e | e in entries :: !AnswersTo(e.1, name)
  }

  /** Every entry that answers to the name pins its bytes. */
  predicate IsPinnedName(entries: Rows<string, Entry>, name: string) {
    forall e | e in entries && AnswersTo(e.1, name) :: Bare(e.1.digest) != ""
  }

  function Classify(reg: Registry, name: string, sha: string): (RowStatus, Option<string>) {
    if sha == "" then (Available, None)
    else if FindByHash(reg, sha).Some? then (Available, FindByHash(reg, sha))
    else if IsUnknownName(reg.entries, name) then (Unregistered, None)
    else if IsPinnedName(reg.entries, name) then (Drift, None)
    else (Available, None)
  }

  lemma {:induction false} FirstPinnedIsPinned(entries: Rows<string, Entry>, d: string)
    ensures match FirstPinned(entries, d)
            case Some(id) => exists e :: e in entries && e.0 == id && InPinForms(e.1.digest, d)
            case None => forall e | e in entries :: !InPinForms(e.1.digest, d)
  {
    if entries != [] {
      FirstPinnedIsPinned(entries[1..], d);
      assert entries[0] in entries;
      assert forall e :: e in entries[1..] ==> e in entries;
    }
  }
}
