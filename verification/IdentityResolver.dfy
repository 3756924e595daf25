/**
 Confirming a hash against a public repository (backend/identity_resolver.py): the
 paginated file listing with its early stop, and the two answer caches.
 The registry is the sequence of its answers to the requests for one page after the other.
 */
module IdentityResolver {
  import opened Options
  import opened KeyedRows

  const MAX_PAGES: nat := 100
  const ADAPTER_CONFIG := "adapter_config.json"

  /** One listed item: not an object, or a path with the hash it carries ("" for none). */
  datatype Entry = Odd | File(path: string, oid: string)

  datatype Page = Failed(reason: string) | NotAList | Listing(entries: seq<Entry>, more: bool)

  /** What each of the requests the walk can make would return. */
  type Answers = pages: seq<Page> | |pages| == MAX_PAGES witness seq(MAX_PAGES, i => NotAList)

  datatype Resolution = Confirmed(file: string) | Unconfirmed(reason: string)

  predicate IsAdapter(e: Entry) {
    e.File? && e.path == ADAPTER_CONFIG
  }

  predicate HasAdapter(entries: seq<Entry>) {
    exists e :: e in entries && IsAdapter(e)
  }

  /** `paths_by_oid.setdefault` over a run of entries. */
  function PathsByOid(entries: seq<Entry>): Rows<string, string> {
    if entries == [] then []
    else
      var before, e := PathsByOid(entries[..|entries| - 1]), entries[|entries| - 1];
      if e.File? && e.oid != "" && Find(before, e.oid).None? then before + [(e.oid, e.path)] else before
  }

  predicate Covers(required: set<string>, entries: seq<Entry>) {
    forall d :: d in required ==> Find(PathsByOid(entries), d).Some?
  }

  /** The answer for what was listed. */
  function Judge(required: set<string>, digest: string, entries: seq<Entry>): Resolution
    requires digest in required
  {
    if Covers(required, entries) then Confirmed(Find(PathsByOid(entries), digest).value) else Unconfirmed("digest-mismatch")
  }

  /** The entries of the first `n` pages. */
  function Entries(pages: Answers, n: nat): seq<Entry>
    requires n <= MAX_PAGES
  {
    if n == 0 then []
    else Entries(pages, n - 1) + if pages[n - 1].Listing? then pages[n - 1].entries else []
  }

  /** The walk from page `k` on, with the pages before it read. */
  function Walk(pages: Answers, required: set<string>, digest: string, k: nat): Resolution
    requires digest in required && k <= MAX_PAGES
    decreases MAX_PAGES - k
  {
    if k == MAX_PAGES then Judge(required, digest, Entries(pages, k))
    else
      match pages[k]
      case Failed(reason) => Unconfirmed(reason)
      case NotAList => Unconfirmed("bad-json")
      case Listing(entries, more) =>
        if HasAdapter(entries) then Unconfirmed("lora-adapter")
        else if Covers(required, Entries(pages, k + 1)) || !more then Judge(required, digest, Entries(pages, k + 1))
        else Walk(pages, required, digest, k + 1)
  }

  /** One page: nothing when it names an adapter. */
  method TakePage(entries: seq<Entry>, paths: Rows<string, string>, ghost before: seq<Entry>) returns (all: Option<Rows<string, string>>)
    requires paths == PathsByOid(before)
    ensures all.None? <==> HasAdapter(entries)
    ensures all.Some? ==> all.value == PathsByOid(before + entries)
  {
    var now := paths;
    assert before + entries[..0] == before;
    for i := 0 to |entries|
      invariant now == PathsByOid(before + entries[..i]) && !HasAdapter(entries[..i])
    {
      var e := entries[i];
      if IsAdapter(e) {
        return None;
      }
      assert entries[..i + 1] == entries[..i] + [e];
      assert (before + entries[..i + 1])[..|before| + i] == before + entries[..i];
      if e.File? && e.oid != "" && Find(now, e.oid).None? {
        now := now + [(e.oid, e.path)];
      }
    }
    assert entries[..|entries|] == entries;
    return Some(now);
  }

  datatype Progress = Answer(r: Resolution) | Ended | GoOn

  /** One request of the walk: an answer, or the paths seen so far and whether to read on. */
  method ReadPage(pages: Answers, required: set<string>, ghost digest: string, k: nat, paths: Rows<string, string>)
    returns (progress: Progress, all: Rows<string, string>)
    requires digest in required && k < MAX_PAGES && paths == PathsByOid(Entries(pages, k))
    ensures !progress.Answer? ==> all == PathsByOid(Entries(pages, k + 1))
    ensures match progress
            case Answer(r) => Walk(pages, required, digest, k) == r
            case Ended => Walk(pages, required, digest, k) == Judge(required, digest, Entries(pages, k + 1))
            case GoOn => Walk(pages, required, digest, k) == Walk(pages, required, digest, k + 1)
  {
    all := paths;
    match pages[k] {
      case Failed(reason) => return Answer(Unconfirmed(reason)), all;
      case NotAList => return Answer(Unconfirmed("bad-json")), all;
      case Listing(entries, more) =>
        var seen := TakePage(entries, paths, Entries(pages, k));
        if seen.None? {
          return Answer(Unconfirmed("lora-adapter")), all;
        }
        all := seen.value;
        var covered := forall d :: d in required ==> Find(all, d).Some?;
        return if covered || !more then Ended else GoOn, all;
    }
  }

  /** `_resolve_hf`, once the revision is known. */
  method ResolveTree(pages: Answers, required: set<string>, digest: string) returns (r: Resolution)
    requires digest in required
    ensures r == Walk(pages, required, digest, 0)
  {
    var paths: Rows<string, string> := [];
    var k, progress := 0, GoOn;
    while k < MAX_PAGES && progress.GoOn?
      invariant k <= MAX_PAGES && paths == PathsByOid(Entries(pages, k)) && !progress.Answer?
      invariant progress.GoOn? ==> Walk(pages, required, digest, 0) == Walk(pages, required, digest, k)
      invariant progress.Ended? ==> Walk(pages, required, digest, 0) == Judge(required, digest, Entries(pages, k))
      decreases MAX_PAGES - k
    {
      progress, paths := ReadPage(pages, required, digest, k, paths);
      if progress.Answer? {
        return progress.r;
      }
      k := k + 1;
    }
    if forall d :: d in required ==> Find(paths, d).Some? {
      return Confirmed(Find(paths, digest).value);
    }
    return Unconfirmed("digest-mismatch");
  }

  // ---- Early stop against a full scan ----

  /** A listing without errors: `n` pages, or the first hundred of a longer one. */
  ghost predicate IsTree(pages: Answers, n: nat) {
    && 1 <= n <= MAX_PAGES
    && (forall i :: 0 <= i < n ==> pages[i].Listing? && (i < n - 1 ==> pages[i].more))
    && (n == MAX_PAGES || !pages[n - 1].more)
  }

  /** Reading every page before deciding. */
  function FullScan(pages: Answers, required: set<string>, digest: string, n: nat): Resolution
    requires digest in required && n <= MAX_PAGES
  {
    if HasAdapter(Entries(pages, n)) then Unconfirmed("lora-adapter") else Judge(required, digest, Entries(pages, n))
  }

  lemma {:induction false} PathsGrow(a: seq<Entry>, b: seq<Entry>, oid: string)
    ensures Find(PathsByOid(a), oid).Some? ==> Find(PathsByOid(a + b), oid) == Find(PathsByOid(a), oid)
  {
    if b == [] {
      assert a + b == a;
    } else {
      PathsGrow(a, b[..|b| - 1], oid);
      assert (a + b)[..|a + b| - 1] == a + b[..|b| - 1];
      var before, e := PathsByOid(a + b[..|b| - 1]), b[|b| - 1];
      if e.File? {
        FindAppend(before, e.oid, e.path, oid);
      }
    }
  }

  lemma {:induction false} FindAppend(rows: Rows<string, string>, k: string, v: string, q: string)
    ensures Find(rows + [(k, v)], q) == if Find(rows, q).Some? then Find(rows, q) else if q == k then Some(v) else None
  {
    if rows != [] {
      FindAppend(rows[1..], k, v, q);
      assert (rows + [(k, v)])[1..] == rows[1..] + [(k, v)];
    }
  }

  /** The path kept for a hash is that of the first listed file carrying it. */
  lemma {:induction false} KeptPathIsFirst(entries: seq<Entry>, i: nat)
    requires i < |entries| && entries[i].File? && entries[i].oid != ""
    requires forall j :: 0 <= j < i && entries[j].File? ==> entries[j].oid != entries[i].oid
    ensures Find(PathsByOid(entries), entries[i].oid) == Some(entries[i].path)
  {
    var oid := entries[i].oid;
    var front := entries[..i + 1];
    UnseenHash(entries[..i], oid);
    assert front[..|front| - 1] == entries[..i];
    FindAppend(PathsByOid(entries[..i]), oid, entries[i].path, oid);
    PathsGrow(front, entries[i + 1..], oid);
    assert front + entries[i + 1..] == entries;
  }

  lemma {:induction false} UnseenHash(entries: seq<Entry>, oid: string)
    requires forall j :: 0 <= j < |entries| && entries[j].File? ==> entries[j].oid != oid
    ensures Find(PathsByOid(entries), oid).None?
  {
    if entries != [] {
      var before, e := PathsByOid(entries[..|entries| - 1]), entries[|entries| - 1];
      UnseenHash(entries[..|entries| - 1], oid);
      if e.File? {
        FindAppend(before, e.oid, e.path, oid);
      }
    }
  }

  lemma {:induction false} EntriesGrow(pages: Answers, k: nat, n: nat)
    requires k <= n <= MAX_PAGES
    ensures Entries(pages, k) <= Entries(pages, n)
    decreases n - k
  {
    if k < n {
      EntriesGrow(pages, k, n - 1);
    }
  }

  /** Once covered, reading on changes neither the verdict nor the path. */
  lemma CoveredStays(required: set<string>, digest: string, a: seq<Entry>, b: seq<Entry>)
    requires digest in required && a <= b && Covers(required, a)
    ensures Covers(required, b) && Judge(required, digest, a) == Judge(required, digest, b)
  {
    assert b == a + b[|a|..];
    forall d | d in required ensures Find(PathsByOid(b), d) == Find(PathsByOid(a), d) {
      PathsGrow(a, b[|a|..], d);
    }
  }

  ghost predicate NoAdapterFrom(pages: Answers, k: nat, n: nat)
    requires n <= MAX_PAGES
  {
    forall i :: k <= i < n && pages[i].Listing? ==> !HasAdapter(pages[i].entries)
  }

  lemma {:induction false} AdapterInSomePage(pages: Answers, n: nat)
    requires n <= MAX_PAGES
    ensures HasAdapter(Entries(pages, n)) <==> !NoAdapterFrom(pages, 0, n)
  {
    if n > 0 {
      AdapterInSomePage(pages, n - 1);
      var before, last := Entries(pages, n - 1), if pages[n - 1].Listing? then pages[n - 1].entries else [];
      assert forall e :: e in before + last <==> e in before || e in last;
    }
  }

  lemma WalkGoesOn(pages: Answers, required: set<string>, digest: string, k: nat, n: nat)
    requires digest in required && IsTree(pages, n) && k + 1 < n
    requires !HasAdapter(pages[k].entries) && !Covers(required, Entries(pages, k + 1))
    ensures Walk(pages, required, digest, k) == Walk(pages, required, digest, k + 1)
  {
  }

  lemma WalkEnds(pages: Answers, required: set<string>, digest: string, k: nat, n: nat)
    requires digest in required && IsTree(pages, n) && k < n && !HasAdapter(pages[k].entries)
    requires k + 1 == n || Covers(required, Entries(pages, k + 1))
    ensures Walk(pages, required, digest, k) == Judge(required, digest, Entries(pages, k + 1))
  {
  }

  lemma {:induction false} WalkWithoutAdapter(pages: Answers, required: set<string>, digest: string, k: nat, n: nat)
    requires digest in required && IsTree(pages, n) && k < n && NoAdapterFrom(pages, k, n)
    ensures Walk(pages, required, digest, k) == Judge(required, digest, Entries(pages, n))
    decreases n - k
  {
    if Covers(required, Entries(pages, k + 1)) {
      WalkEnds(pages, required, digest, k, n);
      EntriesGrow(pages, k + 1, n);
      CoveredStays(required, digest, Entries(pages, k + 1), Entries(pages, n));
    } else if k + 1 == n {
      WalkEnds(pages, required, digest, k, n);
    } else {
      WalkGoesOn(pages, required, digest, k, n);
      WalkWithoutAdapter(pages, required, digest, k + 1, n);
    }
  }

  /**
   With no adapter file the early stop answers as the full scan would, on every error-free
   listing: confirmed exactly when every required hash is listed somewhere, under the same path.
   */
  lemma EarlyStopIsFullScan(pages: Answers, required: set<string>, digest: string, n: nat)
    requires digest in required && IsTree(pages, n) && !HasAdapter(Entries(pages, n))
    ensures Walk(pages, required, digest, 0) == FullScan(pages, required, digest, n)
    ensures Walk(pages, required, digest, 0).Confirmed? <==> Covers(required, Entries(pages, n))
  {
    AdapterInSomePage(pages, n);
    WalkWithoutAdapter(pages, required, digest, 0, n);
  }

  /** The walk reaches page `k`: nothing before it stopped the walk. */
  ghost predicate Reaches(pages: Answers, required: set<string>, k: nat)
    requires k <= MAX_PAGES
  {
    NoAdapterFrom(pages, 0, k) && (k > 0 ==> !Covers(required, Entries(pages, k)))
  }

  lemma {:induction false} WalkReaches(pages: Answers, required: set<string>, digest: string, k: nat, n: nat)
    requires digest in required && IsTree(pages, n) && k < n && Reaches(pages, required, k)
    ensures Walk(pages, required, digest, 0) == Walk(pages, required, digest, k)
  {
    if k > 0 {
      EntriesGrow(pages, k - 1, k);
      if Covers(required, Entries(pages, k - 1)) {
        CoveredStays(required, digest, Entries(pages, k - 1), Entries(pages, k));
      }
      WalkReaches(pages, required, digest, k - 1, n);
      WalkGoesOn(pages, required, digest, k - 1, n);
    }
  }

  lemma FirstAdapterPage(pages: Answers, n: nat) returns (k: nat)
    requires n <= MAX_PAGES && !NoAdapterFrom(pages, 0, n)
    ensures k < n && NoAdapterFrom(pages, 0, k) && pages[k].Listing? && HasAdapter(pages[k].entries)
  {
    k := 0;
    while !(pages[k].Listing? && HasAdapter(pages[k].entries))
      invariant k < n && NoAdapterFrom(pages, 0, k) && !NoAdapterFrom(pages, k, n)
      decreases n - k
    {
      k := k + 1;
    }
  }

  /**
   With an adapter file the two differ exactly when every required hash was seen on pages
   before the one that lists it: the repository is then confirmed although it is an adapter.
   */
  lemma EarlyStopMissesAdaptersExactly(pages: Answers, required: set<string>, digest: string, n: nat)
    requires digest in required && IsTree(pages, n) && HasAdapter(Entries(pages, n))
    ensures exists k :: 0 <= k < n && NoAdapterFrom(pages, 0, k) && HasAdapter(pages[k].entries)
                        && (Walk(pages, required, digest, 0) == FullScan(pages, required, digest, n)
                            <==> k == 0 || !Covers(required, Entries(pages, k)))
                        && (Walk(pages, required, digest, 0).Confirmed? <==> k > 0 && Covers(required, Entries(pages, k)))
  {
    AdapterInSomePage(pages, n);
    var k := FirstAdapterPage(pages, n);
    if k == 0 || !Covers(required, Entries(pages, k)) {
      WalkReaches(pages, required, digest, k, n);
    } else {
      StopsBefore(pages, required, digest, k, n);
    }
  }

  /** Covered by the first `k` pages, none of them an adapter's: the walk stops there. */
  lemma {:induction false} StopsBefore(pages: Answers, required: set<string>, digest: string, k: nat, n: nat)
    requires digest in required && IsTree(pages, n) && 0 < k < n && NoAdapterFrom(pages, 0, k) && Covers(required, Entries(pages, k))
    ensures Walk(pages, required, digest, 0) == Judge(required, digest, Entries(pages, k))
  {
    EntriesGrow(pages, k - 1, k);
    if k - 1 > 0 && Covers(required, Entries(pages, k - 1)) {
      StopsBefore(pages, required, digest, k - 1, n);
      CoveredStays(required, digest, Entries(pages, k - 1), Entries(pages, k));
    } else {
      WalkReaches(pages, required, digest, k - 1, n);
      WalkEnds(pages, required, digest, k - 1, n);
    }
  }
}
