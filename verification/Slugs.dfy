/**
 Platform slugs: drafting one from a runtime name, the naming rules, and
 disambiguation against the catalogue (backend/catalog_service.py,
 backend/catalog_seed.py). Letters outside ASCII count as separators.
 */
module Slugs {

  predicate IsAlnum(c: char) {
    'a' <= c <= 'z' || '0' <= c <= '9'
  }

  function Lower(c: char): char {
    if 'A' <= c <= 'Z' then (c as int + 32) as char else c
  }

  predicate HasAlnum(s: string) {
    exists c | c in s :: IsAlnum(Lower(c))
  }

  /** `Q4_K_M` becomes `q4km`: lower case, separators dropped. */
  function QuantSlug(s: string): string {
    if s == "" then ""
    else (if IsAlnum(Lower(s[0])) then [Lower(s[0])] else "") + QuantSlug(s[1..])
  }

  /** Lower case, with every run of other characters replaced by one dash. */
  function Dashed(s: string, inRun: bool): string {
    if s == "" then ""
    else if IsAlnum(Lower(s[0])) then [Lower(s[0])] + Dashed(s[1..], false)
    else if inRun then Dashed(s[1..], true)
    else "-" + Dashed(s[1..], true)
  }

  function StripFront(s: string): string {
    if s != "" && s[0] == '-' then StripFront(s[1..]) else s
  }

  function StripBack(s: string): string {
    if s != "" && s[|s| - 1] == '-' then StripBack(s[..|s| - 1]) else s
  }

  function Slugify(s: string): string {
    StripBack(StripFront(Dashed(s, false)))
  }

  /** The part before the first ':'. */
  function Repo(name: string): string {
    if name == "" || name[0] == ':' then "" else [name[0]] + Repo(name[1..])
  }

  /** The part after the first ':'. */
  function Tag(name: string): string {
    if name == "" then "" else if name[0] == ':' then name[1..] else Tag(name[1..])
  }

  /** The tag part of a draft; a tag that is the quantization is not repeated. */
  function TagPart(name: string, quant: string): string {
    var tag, q := Tag(name), QuantSlug(quant);
    if tag != "" && !(q != "" && QuantSlug(tag) == q) then Slugify(tag) else ""
  }

  function JoinDash(a: string, b: string): string {
    if a == "" then b else if b == "" then a else a + "-" + b
  }

  function DraftSlug(name: string, quant: string): string {
    JoinDash(JoinDash(Slugify(Repo(name)), TagPart(name, quant)), QuantSlug(quant))
  }

  // ---- The naming rules ----

  predicate IsWord(s: string) {
    forall c | c in s :: IsAlnum(c)
  }

  predicate SlugChars(s: string) {
    forall c | c in s :: IsAlnum(c) || c == '-'
  }

  predicate SingleDashes(s: string) {
    forall i | 0 < i < |s| :: s[i - 1] != '-' || s[i] != '-'
  }

  /** Lower-case alphanumeric segments joined by single dashes. */
  predicate IsSlug(s: string) {
    s != "" && s[0] != '-' && s[|s| - 1] != '-' && SlugChars(s) && SingleDashes(s)
  }

  predicate EndsWith(s: string, suffix: string) {
    |suffix| <= |s| && s[|s| - |suffix|..] == suffix
  }

  function Segments(s: string): seq<string> {
    if s == "" then [""]
    else if s[0] == '-' then [""] + Segments(s[1..])
    else
      var rest := Segments(s[1..]);
      if rest == [] then [[s[0]]] else [[s[0]] + rest[0]] + rest[1..]
  }

  const RUNTIME_SEGMENTS := {"ollama", "vllm", "llamacpp", "tgi"}

  datatype NamingError = BadShape | RuntimeName | MissingQuant

  /** `$` in the pattern also accepts one newline at the very end. */
  predicate MatchesIdPattern(id: string) {
    IsSlug(id) || (id != "" && id[|id| - 1] == '\n' && IsSlug(id[..|id| - 1]))
  }

  function ValidateEntryId(id: string, quant: string): seq<NamingError> {
    (if MatchesIdPattern(id) then [] else [BadShape])
    + (if exists w | w in Segments(id) :: w in RUNTIME_SEGMENTS then [RuntimeName] else [])
    + (if quant != "" && !EndsWith(id, "-" + QuantSlug(quant)) then [MissingQuant] else [])
  }

  /** No rule is broken but possibly the one about runtime names. */
  predicate FollowsNamingRules(id: string, quant: string) {
    BadShape !in ValidateEntryId(id, quant) && MissingQuant !in ValidateEntryId(id, quant)
  }

  lemma RulesMean(id: string, quant: string)
    ensures FollowsNamingRules(id, quant) <==> MatchesIdPattern(id) && (quant != "" ==> EndsWith(id, "-" + QuantSlug(quant)))
  {
  }

  lemma PatternEndsInNoDash(id: string)
    requires MatchesIdPattern(id)
    ensures !EndsWith(id, "-")
  {
    assert id[|id| - 1..][0] == id[|id| - 1];
  }

  // ---- Drafts ----

  lemma WordsAreSlugs(s: string)
    requires s != "" && IsWord(s)
    ensures IsSlug(s)
  {
    assert s[0] in s && s[|s| - 1] in s;
    assert forall i | 0 <= i < |s| :: s[i] in s;
  }

  lemma {:induction false} QuantSlugIsAWord(s: string)
    ensures IsWord(QuantSlug(s))
    ensures QuantSlug(s) != "" ==> IsSlug(QuantSlug(s))
  {
    if s != "" {
      QuantSlugIsAWord(s[1..]);
    }
    if QuantSlug(s) != "" {
      WordsAreSlugs(QuantSlug(s));
    }
  }

  lemma {:induction false} DashedChars(s: string, inRun: bool)
    ensures SlugChars(Dashed(s, inRun))
    ensures inRun && Dashed(s, inRun) != "" ==> Dashed(s, inRun)[0] != '-'
  {
    if s != "" {
      DashedChars(s[1..], !IsAlnum(Lower(s[0])));
    }
  }

  lemma {:induction false} DashedDashes(s: string, inRun: bool)
    ensures SingleDashes(Dashed(s, inRun))
  {
    if s != "" {
      var next := !IsAlnum(Lower(s[0]));
      DashedDashes(s[1..], next);
      DashedChars(s[1..], next);
      var d, rest := Dashed(s, inRun), Dashed(s[1..], next);
      if d != rest {
        assert d[1..] == rest;
        forall i | 0 < i < |d| ensures d[i - 1] != '-' || d[i] != '-' {
          if i > 1 {
            assert rest[i - 2] == d[i - 1] && rest[i - 1] == d[i];
          }
        }
      }
    }
  }

  /** A character other than a dash. */
  predicate HasLetter(s: string) {
    exists c | c in s :: c != '-'
  }

  lemma DashAddsNoLetter(d: string, rest: string)
    requires d == "-" + rest
    ensures HasLetter(d) <==> HasLetter(rest)
  {
    if c :| c in rest && c != '-' {
      assert c in d;
    }
  }

  lemma {:induction false} DashedLetters(s: string, inRun: bool)
    ensures HasLetter(Dashed(s, inRun)) <==> HasAlnum(s)
  {
    if s != "" {
      var next := !IsAlnum(Lower(s[0]));
      DashedLetters(s[1..], next);
      var d, rest := Dashed(s, inRun), Dashed(s[1..], next);
      assert s == [s[0]] + s[1..];
      assert d == rest || d == [d[0]] + rest;
      if !next {
        assert d[0] == Lower(s[0]) && d[0] in d && s[0] in s;
      } else {
        assert HasAlnum(s) <==> HasAlnum(s[1..]);
        if d != rest {
          DashAddsNoLetter(d, rest);
        }
      }
    }
  }

  lemma {:induction false} StripFrontShape(s: string)
    ensures |StripFront(s)| <= |s| && StripFront(s) == s[|s| - |StripFront(s)|..]
    ensures StripFront(s) != "" ==> StripFront(s)[0] != '-'
    ensures StripFront(s) != "" <==> HasLetter(s)
  {
    if s != "" {
      assert s == [s[0]] + s[1..];
      if s[0] == '-' {
        StripFrontShape(s[1..]);
        DashAddsNoLetter(s, s[1..]);
      } else {
        assert s[0] in s;
      }
    }
  }

  lemma {:induction false} StripBackShape(s: string)
    requires s != "" ==> s[0] != '-'
    ensures StripBack(s) <= s
    ensures s != "" ==> StripBack(s) != "" && StripBack(s)[0] == s[0] && StripBack(s)[|StripBack(s)| - 1] != '-'
  {
    if s != "" && s[|s| - 1] == '-' {
      StripBackShape(s[..|s| - 1]);
    }
  }

  /** Any stretch of a single-dashed string that starts and ends with a letter is a slug. */
  lemma StretchIsASlug(d: string, t: string, k: nat)
    requires SlugChars(d) && SingleDashes(d) && k + |t| <= |d| && forall i | 0 <= i < |t| :: t[i] == d[k + i]
    requires t != "" && t[0] != '-' && t[|t| - 1] != '-'
    ensures IsSlug(t)
  {
    forall i | 0 < i < |t| ensures t[i - 1] != '-' || t[i] != '-' {
      assert t[i - 1] == d[k + i - 1] && t[i] == d[k + i];
    }
    forall c | c in t ensures c in d {
      var i :| 0 <= i < |t| && t[i] == c;
      assert d[k + i] == c;
    }
  }

  lemma PrefixOfSuffix(d: string, f: string, t: string)
    requires |f| <= |d| && f == d[|d| - |f|..] && t <= f
    ensures forall i | 0 <= i < |t| :: t[i] == d[|d| - |f| + i]
  {
    forall i | 0 <= i < |t| ensures t[i] == d[|d| - |f| + i] {
      assert t[i] == f[i];
    }
  }

  lemma SlugifyMakesASlug(s: string)
    ensures Slugify(s) == "" || IsSlug(Slugify(s))
    ensures Slugify(s) != "" <==> HasAlnum(s)
  {
    var d := Dashed(s, false);
    DashedChars(s, false);
    DashedDashes(s, false);
    DashedLetters(s, false);
    StripFrontShape(d);
    var f := StripFront(d);
    StripBackShape(f);
    if f != "" {
      PrefixOfSuffix(d, f, StripBack(f));
      StretchIsASlug(d, StripBack(f), |d| - |f|);
    }
  }

  lemma SlugsConcatenate(a: string, b: string)
    requires IsSlug(a) && IsSlug(b)
    ensures IsSlug(a + "-" + b) && EndsWith(a + "-" + b, "-" + b)
  {
    var s := a + "-" + b;
    forall i | 0 < i < |s| ensures s[i - 1] != '-' || s[i] != '-' {
      if i < |a| {
        assert s[i - 1] == a[i - 1] && s[i] == a[i];
      } else if i > |a| + 1 {
        assert s[i - 1] == b[i - |a| - 2] && s[i] == b[i - |a| - 1];
      }
    }
    assert s[|s| - |"-" + b|..] == "-" + b;
  }

  lemma JoinedSlugs(a: string, b: string)
    requires (a == "" || IsSlug(a)) && (b == "" || IsSlug(b))
    ensures JoinDash(a, b) == "" || IsSlug(JoinDash(a, b))
    ensures a != "" && b != "" ==> EndsWith(JoinDash(a, b), "-" + b)
  {
    if a != "" && b != "" {
      SlugsConcatenate(a, b);
    }
  }

  /** Something of the name is left once the quantization is set aside. */
  predicate HasStem(name: string, quant: string) {
    HasAlnum(Repo(name)) || TagPart(name, quant) != ""
  }

  /** A draft obeys the rules exactly when the quantization has a slug (or is absent) and the name leaves a stem. */
  lemma DraftFollowsTheRules(name: string, quant: string)
    ensures FollowsNamingRules(DraftSlug(name, quant), quant)
            <==> (quant == "" || QuantSlug(quant) != "") && HasStem(name, quant)
    ensures HasStem(name, quant) ==> IsSlug(DraftSlug(name, quant))
  {
    var r, t, q := Slugify(Repo(name)), TagPart(name, quant), QuantSlug(quant);
    SlugifyMakesASlug(Repo(name));
    SlugifyMakesASlug(Tag(name));
    QuantSlugIsAWord(quant);
    JoinedSlugs(r, t);
    var stem := JoinDash(r, t);
    assert stem != "" <==> HasStem(name, quant);
    JoinedSlugs(stem, q);
    var id := DraftSlug(name, quant);
    RulesMean(id, quant);
    if MatchesIdPattern(id) {
      PatternEndsInNoDash(id);
    }
  }

  // ---- Disambiguation ----

  function Digit(d: nat): char
    requires d < 10
  {
    ('0' as int + d) as char
  }

  function Decimal(n: nat): string {
    if n < 10 then [Digit(n)] else Decimal(n / 10) + [Digit(n % 10)]
  }

  lemma {:induction false} DecimalIsAWord(n: nat)
    ensures Decimal(n) != "" && IsWord(Decimal(n)) && IsSlug(Decimal(n))
  {
    if n >= 10 {
      DecimalIsAWord(n / 10);
    }
    WordsAreSlugs(Decimal(n));
  }

  lemma {:induction false} DecimalIsInjective(a: nat, b: nat)
    requires Decimal(a) == Decimal(b)
    ensures a == b
  {
    DecimalIsAWord(a / 10);
    DecimalIsAWord(b / 10);
    var s := Decimal(a);
    assert s[|s| - 1] == Digit(a % 10) == Digit(b % 10);
    if a >= 10 && b >= 10 {
      assert s[..|s| - 1] == Decimal(a / 10) == Decimal(b / 10);
      DecimalIsInjective(a / 10, b / 10);
    }
  }

  /** The slug without its quantization suffix, if it has one. */
  function Stem(slug: string, quant: string): string {
    var q := QuantSlug(quant);
    if q != "" && EndsWith(slug, "-" + q) then slug[..|slug| - |q| - 1] else slug
  }

  /** The n-th id tried: the slug itself, then `<stem>-2-<quant>`, `<stem>-3-<quant>`, and so on. */
  function Candidate(slug: string, quant: string, n: nat): string {
    var q := QuantSlug(quant);
    if n <= 1 then slug
    else if q != "" then Stem(slug, quant) + "-" + Decimal(n) + "-" + q
    else Stem(slug, quant) + "-" + Decimal(n)
  }

  lemma CandidatesDiffer(slug: string, quant: string, a: nat, b: nat)
    requires 1 <= a < b
    ensures Candidate(slug, quant, a) != Candidate(slug, quant, b)
  {
    var q, stem := QuantSlug(quant), Stem(slug, quant);
    DecimalIsAWord(b);
    if a == 1 {
      assert |Candidate(slug, quant, b)| > |slug|;
    } else if Candidate(slug, quant, a) == Candidate(slug, quant, b) {
      var s, k, tail := Candidate(slug, quant, a), |stem| + 1, if q != "" then |q| + 1 else 0;
      assert s[k..|s| - tail] == Decimal(a);
      assert s[k..|s| - tail] == Decimal(b);
      DecimalIsInjective(a, b);
    }
  }

  /** The first n ids tried. */
  function Tried(slug: string, quant: string, n: nat): set<string> {
    if n == 0 then {} else Tried(slug, quant, n - 1) + {Candidate(slug, quant, n)}
  }

  lemma {:induction false} TriedMeans(slug: string, quant: string, n: nat, id: string)
    ensures id in Tried(slug, quant, n) <==> exists m: nat | 1 <= m <= n :: Candidate(slug, quant, m) == id
  {
    if n > 0 {
      TriedMeans(slug, quant, n - 1, id);
    }
  }

  /** Pigeonhole: n taken candidates are n different catalogue ids. */
  lemma {:induction false} TriedAreDistinct(slug: string, quant: string, n: nat)
    ensures |Tried(slug, quant, n)| == n
  {
    if n > 0 {
      TriedAreDistinct(slug, quant, n - 1);
      TriedMeans(slug, quant, n - 1, Candidate(slug, quant, n));
      forall m: nat | 1 <= m <= n - 1 ensures Candidate(slug, quant, m) != Candidate(slug, quant, n) {
        CandidatesDiffer(slug, quant, m, n);
      }
    }
  }

  lemma TakenCandidatesAreFew(ids: set<string>, slug: string, quant: string, n: nat)
    requires Tried(slug, quant, n) <= ids
    ensures n <= |ids|
  {
    TriedAreDistinct(slug, quant, n);
    assert ids == Tried(slug, quant, n) + (ids - Tried(slug, quant, n));
  }

  /** The number of the first unused candidate at or after n. */
  function FirstUnused(ids: set<string>, slug: string, quant: string, n: nat): (m: nat)
    requires 1 <= n && Tried(slug, quant, n - 1) <= ids
    ensures n <= m <= |ids| + 1 && Candidate(slug, quant, m) !in ids
    ensures Tried(slug, quant, m - 1) <= ids
    decreases |ids| + 1 - n
  {
    TakenCandidatesAreFew(ids, slug, quant, n - 1);
    if Candidate(slug, quant, n) !in ids then n
    else
      TakenCandidatesAreFew(ids, slug, quant, n);
      FirstUnused(ids, slug, quant, n + 1)
  }

  function UniqueSlug(ids: set<string>, slug: string, quant: string): string {
    Candidate(slug, quant, FirstUnused(ids, slug, quant, 1))
  }

  /** The loop as written stops within one probe more than the catalogue has ids. */
  method FindUniqueSlug(ids: set<string>, slug: string, quant: string) returns (candidate: string, probes: nat)
    ensures candidate == UniqueSlug(ids, slug, quant) && candidate !in ids
    ensures probes <= |ids| + 1
  {
    var q, stem := QuantSlug(quant), slug;
    if q != "" && EndsWith(slug, "-" + q) {
      stem := slug[..|slug| - |q| - 1];
    }
    var n := 1;
    candidate := slug;
    TakenCandidatesAreFew(ids, slug, quant, 0);
    while candidate in ids
      invariant 1 <= n <= |ids| + 1 && candidate == Candidate(slug, quant, n)
      invariant Tried(slug, quant, n - 1) <= ids
      invariant FirstUnused(ids, slug, quant, 1) == FirstUnused(ids, slug, quant, n)
      decreases |ids| + 1 - n
    {
      TakenCandidatesAreFew(ids, slug, quant, n);
      n := n + 1;
      candidate := if q != "" then stem + "-" + Decimal(n) + "-" + q else stem + "-" + Decimal(n);
    }
    probes := n;
  }

  lemma StemIsASlug(slug: string, quant: string)
    requires IsSlug(slug)
    ensures IsSlug(Stem(slug, quant))
  {
    var q, stem := QuantSlug(quant), Stem(slug, quant);
    if q != "" && EndsWith(slug, "-" + q) {
      var k := |slug| - |q| - 1;
      assert slug[k] == slug[k..][0] == '-';
      assert slug[k - 1] != '-' by {
        assert k > 0;
      }
      StretchIsASlug(slug, stem, 0);
    }
  }

  /** Disambiguation never breaks a rule the slug obeyed. */
  lemma CandidatesFollowTheRules(slug: string, quant: string, n: nat)
    requires IsSlug(slug) && FollowsNamingRules(slug, quant)
    ensures FollowsNamingRules(Candidate(slug, quant, n), quant)
  {
    RulesMean(slug, quant);
    RulesMean(Candidate(slug, quant, n), quant);
    if n > 1 {
      var q, stem := QuantSlug(quant), Stem(slug, quant);
      StemIsASlug(slug, quant);
      QuantSlugIsAWord(quant);
      DecimalIsAWord(n);
      SlugsConcatenate(stem, Decimal(n));
      if q != "" {
        SlugsConcatenate(stem + "-" + Decimal(n), q);
      } else {
        PatternEndsInNoDash(slug);
      }
    }
  }

  /**
   Whatever the catalogue already holds, a name with a stem and a quantization
   that is absent or has a slug gets an unused id that obeys every rule but
   possibly the one about runtime names.
   */
  lemma UniqueDraftsFollowTheRules(ids: set<string>, name: string, quant: string)
    requires quant == "" || QuantSlug(quant) != ""
    requires HasStem(name, quant)
    ensures var id := UniqueSlug(ids, DraftSlug(name, quant), quant);
            id !in ids && FollowsNamingRules(id, quant)
  {
    DraftFollowsTheRules(name, quant);
    CandidatesFollowTheRules(DraftSlug(name, quant), quant, FirstUnused(ids, DraftSlug(name, quant), quant, 1));
  }
}
