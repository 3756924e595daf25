/**
 What a drafted slug keeps of a name (backend/catalog_service.py): its words, in order, one dash
 between each two, and nothing else.
 */
module SlugWords {
  import opened Slugs

  predicate IsLetter(c: char): (letter: bool)
    ensures letter == IsAlnum(Lower(c))
  {
    'a' <= c <= 'z' || 'A' <= c <= 'Z' || '0' <= c <= '9'
  }

  function Small(c: char): (small: char)
    ensures small == Lower(c)
  {
    if 'A' <= c <= 'Z' then ('a' as int + (c as int - 'A' as int)) as char else c
  }

  /** The maximal runs of letters and digits, in lower case. */
  function Words(s: string): (words: seq<string>)
    ensures s != "" && IsLetter(s[0]) ==> words != [] && words[0] != ""
  {
    if s == "" then []
    else if !IsLetter(s[0]) then Words(s[1..])
    else if |s| == 1 || !IsLetter(s[1]) then [[Small(s[0])]] + Words(s[1..])
    else Longer(Small(s[0]), Words(s[1..]))
  }

  /** The first word with a letter in front. */
  function Longer(c: char, words: seq<string>): (longer: seq<string>)
    requires words != []
    ensures longer != [] && longer[0] != ""
  {
    [[c] + words[0]] + words[1..]
  }

  function Spelled(words: seq<string>): string {
    if words == [] then "" else words[0] + Spelled(words[1..])
  }

  function Dashes(words: seq<string>): string {
    if words == [] then "" else if |words| == 1 then words[0] else words[0] + "-" + Dashes(words[1..])
  }

  ghost predicate AreWords(words: seq<string>) {
    forall i | 0 <= i < |words| :: words[i] != "" && IsWord(words[i])
  }

  lemma {:induction false} WordsAreWords(s: string)
    ensures AreWords(Words(s))
  {
    if s != "" {
      WordsAreWords(s[1..]);
    }
  }

  // ---- One part ----

  /** A dash for a leading run of separators, unless it was written already. */
  function Lead(s: string, inRun: bool): string {
    if s != "" && !IsLetter(s[0]) && !inRun then "-" else ""
  }

  /** A dash for a trailing run after a word. */
  function Trail(s: string): string {
    if s != "" && !IsLetter(s[|s| - 1]) && Words(s) != [] then "-" else ""
  }

  lemma LongerWord(c: char, words: seq<string>)
    requires words != []
    ensures Dashes(Longer(c, words)) == [c] + Dashes(words)
  {
    var longer := Longer(c, words);
    assert longer[1..] == words[1..];
    if |words| > 1 {
      assert [c] + words[0] + "-" + Dashes(words[1..]) == [c] + (words[0] + "-" + Dashes(words[1..]));
    }
  }

  lemma OneMoreWord(word: string, words: seq<string>)
    ensures Dashes([word] + words) == if words == [] then word else word + "-" + Dashes(words)
  {
    assert ([word] + words)[1..] == words;
  }

  lemma {:induction false} WordlessText(s: string)
    requires Words(s) == []
    ensures forall i | 0 <= i < |s| :: !IsLetter(s[i])
  {
    if s != "" {
      WordlessText(s[1..]);
    }
  }

  lemma Associates(a: string, b: string, c: string, d: string)
    ensures a + (b + c + d) == a + b + c + d
  {
  }

  lemma LastOf(c: char, rest: string)
    requires rest != ""
    ensures ([c] + rest)[|[c] + rest| - 1] == rest[|rest| - 1]
  {
  }

  /** What comes before the text after a word's first letter. */
  function Next(c: char, rest: string): seq<string> {
    if rest == "" || !IsLetter(rest[0]) then [[Lower(c)]] + Words(rest) else Longer(Lower(c), Words(rest))
  }

  /** A word that ends at once, or goes on, and the text after it. */
  lemma WordsGoOn(c: char, rest: string)
    requires IsLetter(c)
    ensures Words([c] + rest) == Next(c, rest)
    ensures Trail([c] + rest) == if rest != "" && !IsLetter(rest[|rest| - 1]) then "-" else ""
  {
    assert ([c] + rest)[1..] == rest;
    if rest != "" {
      LastOf(c, rest);
    }
  }

  lemma AfterAShortWord(l: string, rest: string)
    requires rest == "" || !IsLetter(rest[0])
    ensures l + Lead(rest, false) + Dashes(Words(rest)) + Trail(rest)
            == Dashes([l] + Words(rest)) + if rest != "" && !IsLetter(rest[|rest| - 1]) then "-" else ""
  {
    OneMoreWord(l, Words(rest));
    if Words(rest) == [] {
      WordlessText(rest);
      assert Dashes(Words(rest)) == "" && Trail(rest) == "";
    }
  }

  lemma AfterALongWord(c: char, rest: string)
    requires IsLetter(c) && rest != "" && IsLetter(rest[0])
    ensures [Lower(c)] + (Dashes(Words(rest)) + Trail(rest))
            == Dashes(Longer(Lower(c), Words(rest))) + Trail(rest)
  {
    LongerWord(Lower(c), Words(rest));
    AssociatesTwo([Lower(c)], Dashes(Words(rest)), Trail(rest));
  }

  lemma AssociatesTwo(a: string, b: string, c: string)
    ensures a + (b + c) == a + b + c
  {
  }

  lemma AfterALetter(c: char, rest: string)
    requires IsLetter(c)
    ensures [Lower(c)] + (Lead(rest, false) + Dashes(Words(rest)) + Trail(rest)) == Dashes(Next(c, rest)) + Trail([c] + rest)
  {
    WordsGoOn(c, rest);
    if rest != "" && IsLetter(rest[0]) {
      AfterALongWord(c, rest);
      assert Lead(rest, false) + Dashes(Words(rest)) == Dashes(Words(rest));
    } else {
      AfterAShortWord([Lower(c)], rest);
      Associates([Lower(c)], Lead(rest, false), Dashes(Words(rest)), Trail(rest));
    }
  }

  lemma {:induction false} DashedWords(s: string, inRun: bool)
    ensures Dashed(s, inRun) == Lead(s, inRun) + Dashes(Words(s)) + Trail(s)
  {
    if s != "" {
      var c, rest := s[0], s[1..];
      assert s == [c] + rest;
      DashedWords(rest, !IsLetter(c));
      if IsLetter(c) {
        AfterALetter(c, rest);
        WordsGoOn(c, rest);
      } else {
        AfterASeparator(c, rest);
      }
    }
  }

  lemma AfterASeparator(c: char, rest: string)
    requires !IsLetter(c)
    ensures Words([c] + rest) == Words(rest) && Trail([c] + rest) == Trail(rest)
  {
    assert ([c] + rest)[1..] == rest;
    if rest != "" {
      LastOf(c, rest);
    }
  }

  lemma {:induction false} DashesEnds(words: seq<string>)
    requires AreWords(words) && words != []
    ensures var d := Dashes(words); d != "" && d[0] != '-' && d[|d| - 1] != '-'
  {
    var w := words[0];
    assert w[0] in w && w[|w| - 1] in w;
    if |words| > 1 {
      DashesEnds(words[1..]);
    }
  }

  lemma StripEnds(d: string, front: string, back: string)
    requires front in {"", "-"} && back in {"", "-"} && d != "" && d[0] != '-' && d[|d| - 1] != '-'
    ensures StripBack(StripFront(front + d + back)) == d
  {
    var all := front + d + back;
    if front == "-" {
      assert all[1..] == d + back;
    } else {
      assert all == d + back;
    }
    assert StripFront(d + back) == d + back;
    if back == "-" {
      assert (d + back)[..|d|] == d;
    } else {
      assert d + back == d;
    }
  }

  /** A slug is the text's words, joined by single dashes. */
  lemma SlugifyJoinsWords(s: string)
    ensures Slugify(s) == Dashes(Words(s))
  {
    DashedWords(s, false);
    WordsAreWords(s);
    if Words(s) != [] {
      DashesEnds(Words(s));
      StripEnds(Dashes(Words(s)), Lead(s, false), Trail(s));
    } else {
      assert Dashed(s, false) == Lead(s, false);
      assert StripFront("-") == "" by { assert "-"[1..] == ""; }
    }
  }

  lemma SpelledLonger(c: char, words: seq<string>)
    requires words != []
    ensures Spelled(Longer(c, words)) == [c] + Spelled(words)
  {
    assert Longer(c, words)[1..] == words[1..];
    AssociatesTwo([c], words[0], Spelled(words[1..]));
  }

  lemma SpelledOneMore(word: string, words: seq<string>)
    ensures Spelled([word] + words) == word + Spelled(words)
  {
    assert ([word] + words)[1..] == words;
  }

  /** A quantization slug is its words, written together. */
  lemma {:induction false} QuantSlugSpellsWords(s: string)
    ensures QuantSlug(s) == Spelled(Words(s))
  {
    if s != "" {
      var rest := Words(s[1..]);
      QuantSlugSpellsWords(s[1..]);
      if IsLetter(s[0]) {
        if |s| == 1 || !IsLetter(s[1]) {
          SpelledOneMore([Lower(s[0])], rest);
        } else {
          SpelledLonger(Lower(s[0]), rest);
        }
      }
    }
  }

  // ---- The draft ----

  lemma {:induction false} DashesConcat(a: seq<string>, b: seq<string>)
    requires AreWords(a) && AreWords(b)
    ensures AreWords(a + b) && Dashes(a + b) == JoinDash(Dashes(a), Dashes(b))
  {
    if a == [] {
      assert a + b == b;
    } else {
      DashesEnds(a);
      if b == [] {
        assert a + b == a;
      } else {
        DashesConcat(a[1..], b);
        FirstWordJoins(a[0], a[1..], b);
        assert a + b == [a[0]] + (a[1..] + b) && a == [a[0]] + a[1..];
      }
    }
  }

  lemma FirstWordJoins(word: string, a: seq<string>, b: seq<string>)
    requires word != "" && AreWords(a) && AreWords(b) && b != [] && Dashes(a + b) == JoinDash(Dashes(a), Dashes(b))
    ensures Dashes([word] + (a + b)) == JoinDash(Dashes([word] + a), Dashes(b))
  {
    DashesEnds(b);
    OneMoreWord(word, a + b);
    OneMoreWord(word, a);
    if a != [] {
      DashesEnds(a);
      assert word + "-" + (Dashes(a) + "-" + Dashes(b)) == word + "-" + Dashes(a) + "-" + Dashes(b);
    }
  }

  lemma {:induction false} RepoAndTag(name: string)
    ensures ':' !in Repo(name)
    ensures if ':' in name then name == Repo(name) + ":" + Tag(name) else Repo(name) == name && Tag(name) == ""
  {
    if name != "" && name[0] != ':' {
      RepoAndTag(name[1..]);
      assert name == [name[0]] + name[1..];
      if ':' in name {
        assert [name[0]] + (Repo(name[1..]) + ":" + Tag(name[1..])) == [name[0]] + Repo(name[1..]) + ":" + Tag(name[1..]);
      }
    }
  }

  /** The words of a draft: the repository's, the tag's unless it spells the quantization, and the quantization as one. */
  function DraftWords(repo: string, tag: string, quant: string): seq<string> {
    var q := Spelled(Words(quant));
    Words(repo)
    + (if q != "" && Spelled(Words(tag)) == q then [] else Words(tag))
    + (if q == "" then [] else [q])
  }

  lemma {:induction false} SpelledIsAWord(words: seq<string>)
    requires AreWords(words)
    ensures IsWord(Spelled(words))
  {
    if words != [] {
      SpelledIsAWord(words[1..]);
    }
  }

  /** A draft is exactly those words, one dash between each two; the first ':' divides the name. */
  lemma DraftsKeepTheWords(name: string, quant: string, repo: string, tag: string)
    requires ':' !in repo && (name == repo + ":" + tag || (name == repo && tag == ""))
    ensures DraftSlug(name, quant) == Dashes(DraftWords(repo, tag, quant))
  {
    OneSplit(name, repo, tag);
    var q := Spelled(Words(quant));
    var tags := if q != "" && Spelled(Words(tag)) == q then [] else Words(tag);
    SlugifyJoinsWords(repo);
    SlugifyJoinsWords(tag);
    QuantSlugSpellsWords(quant);
    QuantSlugSpellsWords(tag);
    WordsAreWords(repo);
    WordsAreWords(tag);
    WordsAreWords(quant);
    SpelledIsAWord(Words(quant));
    assert TagPart(name, quant) == Dashes(tags);
    DashesConcat(Words(repo), tags);
    DashesConcat(Words(repo) + tags, if q == "" then [] else [q]);
  }

  lemma {:induction false} OneSplit(name: string, repo: string, tag: string)
    requires ':' !in repo && (name == repo + ":" + tag || (name == repo && tag == ""))
    ensures Repo(name) == repo && Tag(name) == tag
  {
    if repo == "" {
      if name != "" {
        assert name[1..] == tag;
      }
    } else {
      assert repo == [repo[0]] + repo[1..];
      assert repo[0] in repo;
      if name == repo + ":" + tag {
        assert name[1..] == repo[1..] + ":" + tag;
      }
      OneSplit(name[1..], repo[1..], tag);
    }
  }

  // ---- The naming rules ----

  lemma {:induction false} SlugTextStays(s: string, inRun: bool)
    requires SlugChars(s) && SingleDashes(s) && (inRun && s != "" ==> s[0] != '-')
    ensures Dashed(s, inRun) == s
  {
    if s != "" {
      var rest := s[1..];
      assert s[0] in s && forall c | c in rest :: c in s;
      forall i | 0 < i < |rest| ensures rest[i - 1] != '-' || rest[i] != '-' {
        assert rest[i - 1] == s[i] && rest[i] == s[i + 1];
      }
      if rest != "" {
        assert s[1] == rest[0];
      }
      SlugTextStays(rest, s[0] == '-');
      assert s == [s[0]] + rest;
    }
  }

  lemma {:induction false} JoinedWordsAreASlug(words: seq<string>)
    requires AreWords(words) && words != []
    ensures IsSlug(Dashes(words))
  {
    assert words[0] != "" && IsWord(words[0]);
    WordsAreSlugs(words[0]);
    if |words| > 1 {
      JoinedWordsAreASlug(words[1..]);
      SlugsConcatenate(words[0], Dashes(words[1..]));
    }
  }

  /** A slug is one or more words joined by single dashes. */
  lemma SlugsAreJoinedWords(s: string)
    ensures IsSlug(s) <==> exists words :: AreWords(words) && words != [] && s == Dashes(words)
  {
    if IsSlug(s) {
      SlugTextStays(s, false);
      assert Slugify(s) == s;
      SlugifyJoinsWords(s);
      WordsAreWords(s);
      assert Words(s) != [];
    }
    if words :| AreWords(words) && words != [] && s == Dashes(words) {
      JoinedWordsAreASlug(words);
    }
  }

  lemma {:induction false} OneSegment(w: string)
    requires '-' !in w
    ensures Segments(w) == [w]
  {
    if w != "" {
      assert w[0] in w && forall c | c in w[1..] :: c in w;
      OneSegment(w[1..]);
      assert w == [w[0]] + w[1..];
    }
  }

  lemma {:induction false} SegmentThenRest(w: string, rest: string)
    requires '-' !in w
    ensures Segments(w + "-" + rest) == [w] + Segments(rest)
  {
    var s := w + "-" + rest;
    if w == "" {
      assert s[1..] == rest;
    } else {
      assert w[0] in w && forall c | c in w[1..] :: c in w;
      SegmentThenRest(w[1..], rest);
      assert s[1..] == w[1..] + "-" + rest;
      assert ([w[1..]] + Segments(rest))[1..] == Segments(rest);
      assert [w[0]] + w[1..] == w;
    }
  }

  lemma WordsHaveNoDash(words: seq<string>)
    requires AreWords(words)
    ensures forall i | 0 <= i < |words| :: '-' !in words[i]
  {
  }

  /** The segments of joined words are the words; text after the last one belongs to it. */
  lemma {:induction false} SegmentsOfWords(words: seq<string>, tail: string)
    requires AreWords(words) && words != [] && '-' !in tail
    ensures Segments(Dashes(words) + tail) == words[..|words| - 1] + [words[|words| - 1] + tail]
  {
    WordsHaveNoDash(words);
    if |words| == 1 {
      OneSegment(words[0] + tail);
    } else {
      var rest := words[1..];
      SegmentsOfWords(rest, tail);
      SegmentThenRest(words[0], Dashes(rest) + tail);
      assert Dashes(words) + tail == words[0] + "-" + (Dashes(rest) + tail);
      assert words[..|words| - 1] == [words[0]] + rest[..|rest| - 1];
    }
  }

  predicate IsRuntime(w: string) {
    w == "ollama" || w == "vllm" || w == "llamacpp" || w == "tgi"
  }

  /** Words joined by dashes, none a runtime's name, ending in the quantization when there is one. */
  ghost predicate IsGoodId(id: string, quant: string, words: seq<string>) {
    && AreWords(words) && words != [] && id == Dashes(words)
    && (forall w | w in words :: !IsRuntime(w))
    && (quant != "" ==> EndsWith(id, "-" + Spelled(Words(quant))))
  }

  /** What the pattern lets through beside: the same with a newline at the end, and no quantization. */
  ghost predicate IsGoodButForANewline(id: string, quant: string, words: seq<string>) {
    && AreWords(words) && words != [] && id == Dashes(words) + "\n"
    && (forall w | w in words[..|words| - 1] :: !IsRuntime(w))
    && quant == ""
  }

  lemma RuntimesAreKnown(id: string, quant: string)
    ensures RuntimeName in ValidateEntryId(id, quant) <==> exists w | w in Segments(id) :: IsRuntime(w)
  {
    forall w ensures w in RUNTIME_SEGMENTS <==> IsRuntime(w) {
    }
  }

  lemma AcceptanceOfWords(words: seq<string>, quant: string)
    requires AreWords(words) && words != []
    ensures ValidateEntryId(Dashes(words), quant) == [] <==> IsGoodId(Dashes(words), quant, words)
  {
    var id := Dashes(words);
    JoinedWordsAreASlug(words);
    SegmentsOfWords(words, "");
    assert id + "" == id && words[|words| - 1] + "" == words[|words| - 1];
    assert words[..|words| - 1] + [words[|words| - 1]] == words;
    QuantSlugSpellsWords(quant);
    RuntimesAreKnown(id, quant);
    RulesMean(id, quant);
  }

  lemma NewlineIsNoSlug(id: string)
    requires id != "" && id[|id| - 1] == '\n'
    ensures !IsSlug(id)
  {
    assert id[|id| - 1] in id;
  }

  lemma SuffixesEndAlike(id: string, suffix: string)
    requires suffix != "" && EndsWith(id, suffix)
    ensures id != "" && id[|id| - 1] == suffix[|suffix| - 1]
  {
    assert id[|id| - |suffix|..][|suffix| - 1] == id[|id| - 1];
  }

  lemma NoQuantBeforeANewline(id: string, quant: string)
    requires id != "" && id[|id| - 1] == '\n'
    ensures !EndsWith(id, "-" + QuantSlug(quant))
  {
    var q := QuantSlug(quant);
    var suffix := "-" + q;
    QuantSlugIsAWord(quant);
    assert suffix[|suffix| - 1] != '\n' by {
      if q != "" { assert q[|q| - 1] in q; }
    }
    if EndsWith(id, suffix) {
      SuffixesEndAlike(id, suffix);
    }
  }

  lemma AcceptanceWithANewline(words: seq<string>, quant: string)
    requires AreWords(words) && words != []
    ensures ValidateEntryId(Dashes(words) + "\n", quant) == [] <==> IsGoodButForANewline(Dashes(words) + "\n", quant, words)
  {
    var id := Dashes(words) + "\n";
    JoinedWordsAreASlug(words);
    assert id[..|id| - 1] == Dashes(words);
    RuntimesBeforeANewline(words);
    RuntimesAreKnown(id, quant);
    NoQuantBeforeANewline(id, quant);
    AcceptedMeans(id, quant);
  }

  lemma RuntimesBeforeANewline(words: seq<string>)
    requires AreWords(words) && words != []
    ensures (exists w | w in Segments(Dashes(words) + "\n") :: IsRuntime(w)) <==> exists w | w in words[..|words| - 1] :: IsRuntime(w)
  {
    var init, last := words[..|words| - 1], words[|words| - 1];
    SegmentsOfWords(words, "\n");
    NewlineIsNoRuntime(last);
    assert forall w :: w in init + [last + "\n"] <==> w in init || w == last + "\n";
  }

  lemma AcceptedMeans(id: string, quant: string)
    ensures ValidateEntryId(id, quant) == [] <==>
            && MatchesIdPattern(id) && (quant != "" ==> EndsWith(id, "-" + QuantSlug(quant)))
            && RuntimeName !in ValidateEntryId(id, quant)
  {
  }

  lemma NewlineIsNoRuntime(w: string)
    ensures !IsRuntime(w + "\n")
  {
    assert (w + "\n")[|w|] == '\n';
  }

  /** An id is accepted exactly when it is good, or good but for a newline at its end. */
  lemma IdsAreAcceptedExactly(id: string, quant: string)
    ensures ValidateEntryId(id, quant) == [] <==>
            exists words :: IsGoodId(id, quant, words) || IsGoodButForANewline(id, quant, words)
  {
    RulesMean(id, quant);
    if ValidateEntryId(id, quant) == [] {
      assert MatchesIdPattern(id);
      if IsSlug(id) {
        SlugsAreJoinedWords(id);
        var words :| AreWords(words) && words != [] && id == Dashes(words);
        AcceptanceOfWords(words, quant);
      } else {
        SlugsAreJoinedWords(id[..|id| - 1]);
        var words :| AreWords(words) && words != [] && id[..|id| - 1] == Dashes(words);
        assert id == Dashes(words) + "\n";
        AcceptanceWithANewline(words, quant);
      }
    }
    if words :| IsGoodId(id, quant, words) {
      AcceptanceOfWords(words, quant);
    }
    if words :| IsGoodButForANewline(id, quant, words) {
      AcceptanceWithANewline(words, quant);
    }
  }

  // ---- Numbered ids ----

  function DigitOf(c: char): int {
    c as int - '0' as int
  }

  function Value(s: string): int {
    if s == "" then 0 else 10 * Value(s[..|s| - 1]) + DigitOf(s[|s| - 1])
  }

  /** The number in decimal, without leading zeros. */
  predicate IsNumeral(s: string, n: nat) {
    s != "" && (forall c | c in s :: '0' <= c <= '9') && (|s| > 1 ==> s[0] != '0') && Value(s) == n
  }

  lemma {:induction false} DecimalIsTheNumeral(n: nat)
    ensures IsNumeral(Decimal(n), n) && (n > 0 ==> Decimal(n)[0] != '0')
  {
    var s := Decimal(n);
    if n >= 10 {
      DecimalIsTheNumeral(n / 10);
      assert s[..|s| - 1] == Decimal(n / 10);
    } else {
      assert s[..0] == "";
    }
  }

  /** The slug without `-` and the quantization at its end. */
  ghost predicate IsStem(slug: string, q: string, stem: string) {
    if q != "" && exists x :: slug == x + "-" + q then slug == stem + "-" + q else stem == slug
  }

  /** The slug itself, or its stem, a number from two on, and the quantization again. */
  ghost predicate IsNumbered(slug: string, quant: string, n: nat, id: string) {
    var q := Spelled(Words(quant));
    if n <= 1 then id == slug
    else exists stem, digits :: IsStem(slug, q, stem) && IsNumeral(digits, n) && id == stem + "-" + digits + if q == "" then "" else "-" + q
  }

  lemma StemMeans(slug: string, quant: string)
    ensures IsStem(slug, QuantSlug(quant), Stem(slug, quant))
  {
    var q := QuantSlug(quant);
    if q != "" && EndsWith(slug, "-" + q) {
      assert slug == slug[..|slug| - |q| - 1] + ("-" + q);
      assert slug == slug[..|slug| - |q| - 1] + "-" + q;
    }
    if q != "" && exists x :: slug == x + "-" + q {
      var x :| slug == x + "-" + q;
      assert slug[|slug| - |"-" + q|..] == "-" + q;
    }
  }

  lemma CandidateMeans(slug: string, quant: string, n: nat)
    ensures IsNumbered(slug, quant, n, Candidate(slug, quant, n))
  {
    QuantSlugSpellsWords(quant);
    if n > 1 {
      StemMeans(slug, quant);
      DecimalIsTheNumeral(n);
      var stem, digits, q := Stem(slug, quant), Decimal(n), QuantSlug(quant);
      assert stem + "-" + digits + "-" + q == stem + "-" + digits + ("-" + q);
      assert stem + "-" + digits + "" == stem + "-" + digits;
    }
  }

  ghost predicate IsTaken(ids: set<string>, slug: string, quant: string, n: nat) {
    exists id :: id in ids && IsNumbered(slug, quant, n, id)
  }

  lemma TriedIsTaken(ids: set<string>, slug: string, quant: string, n: nat, m: nat)
    requires Tried(slug, quant, n) <= ids && 1 <= m <= n
    ensures IsTaken(ids, slug, quant, m)
  {
    CandidateMeans(slug, quant, m);
    TriedMeans(slug, quant, n, Candidate(slug, quant, m));
  }

  /** The id chosen is the first unused one: every lower number's is taken. */
  lemma UniqueSlugIsTheFirstUnused(ids: set<string>, slug: string, quant: string) returns (n: nat)
    ensures n >= 1 && UniqueSlug(ids, slug, quant) !in ids && IsNumbered(slug, quant, n, UniqueSlug(ids, slug, quant))
    ensures forall m: nat | 1 <= m < n :: IsTaken(ids, slug, quant, m)
  {
    n := FirstUnused(ids, slug, quant, 1);
    CandidateMeans(slug, quant, n);
    forall m: nat | 1 <= m < n ensures IsTaken(ids, slug, quant, m) {
      TriedIsTaken(ids, slug, quant, n - 1, m);
    }
  }
}
