/**
 How a walk through a repository's file listing ends (backend/identity_resolver.py), errors and
 odd pages included, from the pages alone.
 */
module ListingWalks {
  import opened Options
  import opened KeyedRows
  import opened IdentityResolver

  /** A file with this hash is listed on one of the first `n` pages. */
  ghost predicate IsListed(pages: Answers, n: nat, hash: string) {
    exists k, e :: 0 <= k < n && k < |pages| && pages[k].Listing? && e in pages[k].entries && e.File? && e.oid == hash && hash != ""
  }

  ghost predicate AllListed(pages: Answers, n: nat, required: set<string>) {
    forall hash :: hash in required ==> IsListed(pages, n, hash)
  }

  ghost predicate NamesAdapter(page: Page) {
    page.Listing? && exists e :: e in page.entries && e.File? && e.path == "adapter_config.json"
  }

  /** The walk reads page `n`: every page before was a listing without an adapter, with more to come and something missing. */
  ghost predicate GetsTo(pages: Answers, required: set<string>, n: nat) {
    n <= 100 && forall k | 0 <= k < n :: pages[k].Listing? && !NamesAdapter(pages[k]) && pages[k].more && !AllListed(pages, k + 1, required)
  }

  /** The path the first listed file with this hash has. */
  ghost predicate IsFirstPath(pages: Answers, n: nat, hash: string, path: string)
    requires n <= 100
  {
    var all := Entries(pages, n);
    exists i :: 0 <= i < |all| && all[i] == IdentityResolver.File(path, hash)
                && forall j | 0 <= j < i && all[j].File? :: all[j].oid != hash
  }

  /** The answer at page `n`. */
  ghost predicate IsAnswerAt(pages: Answers, required: set<string>, digest: string, n: nat, r: Resolution)
    requires n <= 100
  {
    if n == 100 then r == Unconfirmed("digest-mismatch")
    else
      match pages[n]
      case Failed(reason) => r == Unconfirmed(reason)
      case NotAList => r == Unconfirmed("bad-json")
      case Listing(_, more) =>
        if NamesAdapter(pages[n]) then r == Unconfirmed("lora-adapter")
        else if AllListed(pages, n + 1, required) then r.Confirmed? && IsFirstPath(pages, n + 1, digest, r.file)
        else !more && r == Unconfirmed("digest-mismatch")
  }

  lemma {:induction false} EntriesAreListed(pages: Answers, n: nat, e: IdentityResolver.Entry)
    requires n <= 100
    ensures e in Entries(pages, n) <==> exists k :: 0 <= k < n && pages[k].Listing? && e in pages[k].entries
  {
    if n > 0 {
      EntriesAreListed(pages, n - 1, e);
    }
  }

  /** The first entry of the list with this hash, if any. */
  lemma {:induction false} FirstWithHash(entries: seq<IdentityResolver.Entry>, hash: string) returns (i: nat)
    requires exists e :: e in entries && e.File? && e.oid == hash
    ensures i < |entries| && entries[i].File? && entries[i].oid == hash
    ensures forall j | 0 <= j < i && entries[j].File? :: entries[j].oid != hash
  {
    if entries[0].File? && entries[0].oid == hash {
      i := 0;
    } else {
      i := FirstWithHash(entries[1..], hash);
      i := i + 1;
    }
  }

  lemma KeptMeans(entries: seq<IdentityResolver.Entry>, hash: string)
    ensures Find(PathsByOid(entries), hash).Some? <==> hash != "" && exists e :: e in entries && e.File? && e.oid == hash
    ensures Find(PathsByOid(entries), hash).Some? ==>
              exists i :: 0 <= i < |entries| && entries[i] == IdentityResolver.File(Find(PathsByOid(entries), hash).value, hash)
                          && forall j | 0 <= j < i && entries[j].File? :: entries[j].oid != hash
  {
    if hash != "" && exists e :: e in entries && e.File? && e.oid == hash {
      var i := FirstWithHash(entries, hash);
      KeptPathIsFirst(entries, i);
    } else if hash == "" {
      EmptyHashesAreNotKept(entries);
    } else {
      forall j | 0 <= j < |entries| && entries[j].File? ensures entries[j].oid != hash {
        assert entries[j] in entries;
      }
      UnseenHash(entries, hash);
    }
  }

  lemma {:induction false} EmptyHashesAreNotKept(entries: seq<IdentityResolver.Entry>)
    ensures Find(PathsByOid(entries), "").None?
  {
    if entries != [] {
      var before, e := PathsByOid(entries[..|entries| - 1]), entries[|entries| - 1];
      EmptyHashesAreNotKept(entries[..|entries| - 1]);
      if e.File? {
        FindAppend(before, e.oid, e.path, "");
      }
    }
  }

  lemma CoversMeans(pages: Answers, n: nat, required: set<string>)
    requires n <= 100
    ensures Covers(required, Entries(pages, n)) <==> AllListed(pages, n, required)
  {
    forall hash ensures Find(PathsByOid(Entries(pages, n)), hash).Some? <==> IsListed(pages, n, hash) {
      KeptMeans(Entries(pages, n), hash);
      forall e ensures e in Entries(pages, n) <==> exists k :: 0 <= k < n && pages[k].Listing? && e in pages[k].entries {
        EntriesAreListed(pages, n, e);
      }
    }
  }

  lemma AdapterMeans(page: Page)
    ensures page.Listing? ==> (HasAdapter(page.entries) <==> NamesAdapter(page))
  {
  }

  lemma JudgedMeans(pages: Answers, n: nat, required: set<string>, digest: string)
    requires n <= 100 && digest in required
    ensures var r := Judge(required, digest, Entries(pages, n));
            if AllListed(pages, n, required) then r.Confirmed? && IsFirstPath(pages, n, digest, r.file)
            else r == Unconfirmed("digest-mismatch")
  {
    CoversMeans(pages, n, required);
    KeptMeans(Entries(pages, n), digest);
  }

  lemma {:induction false} WalkFrom(pages: Answers, required: set<string>, digest: string, k: nat) returns (n: nat)
    requires digest in required && GetsTo(pages, required, k)
    ensures n <= 100 && GetsTo(pages, required, n) && IsAnswerAt(pages, required, digest, n, Walk(pages, required, digest, k))
    decreases 100 - k
  {
    n := k;
    JudgedMeans(pages, k, required, digest);
    if k < 100 {
      AdapterMeans(pages[k]);
      JudgedMeans(pages, k + 1, required, digest);
      CoversMeans(pages, k + 1, required);
      if pages[k].Listing? && !NamesAdapter(pages[k]) && pages[k].more && !AllListed(pages, k + 1, required) {
        n := WalkFrom(pages, required, digest, k + 1);
      }
    }
  }

  /**
   Whatever the pages are, the walk ends at the first one that is no list, names an adapter, completes the
   required hashes or is the last, at most the hundredth, with the answer that page gives.
   */
  lemma WalksEndAtOnePage(pages: Answers, required: set<string>, digest: string) returns (n: nat)
    requires digest in required
    ensures n <= 100 && GetsTo(pages, required, n) && IsAnswerAt(pages, required, digest, n, Walk(pages, required, digest, 0))
  {
    n := WalkFrom(pages, required, digest, 0);
  }
}
