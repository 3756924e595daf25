/**
 What the validator's single pass decides (backend/services/batch_validator.py):
 exactly which files pass, exactly which files make it raise, that the startup
 backfill repeats its capability list, and the verdict the gates then leave.
 */
module AcceptedFiles {
  import opened Options
  import opened KeyedRows
  import opened Catalogue
  import opened Scheduler
  import opened Lifecycle
  import opened SubmissionGates
  import opened SmallRuns
  import opened FileValidator
  import opened AcceptedLines
  import opened Eligibility
  import opened PolledJobs

  // ---- The file, read without order ----

  /** The non-blank lines. */
  function Requests(lines: seq<Line>): seq<Line> {
    if lines == [] then []
    else
      var before := Requests(lines[..|lines| - 1]);
      if lines[|lines| - 1].Blank? then before else before + [lines[|lines| - 1]]
  }

  predicate Sound(line: Line) {
    line.Object? && LineFaults(line.o) == []
  }

  function IdIn(line: Line): string {
    if line.Object? then CustomIdOf(line.o) else ""
  }

  function ModelIn(line: Line): string {
    if line.Object? then ModelOf(line.o) else ""
  }

  predicate AllSound(rs: seq<Line>) {
    forall r :: r in rs ==> Sound(r)
  }

  ghost predicate DistinctIds(rs: seq<Line>) {
    forall i, j :: 0 <= i < j < |rs| ==> IdIn(rs[i]) != IdIn(rs[j])
  }

  ghost predicate OneModel(rs: seq<Line>) {
    forall a, b :: a in rs && b in rs && ModelIn(a) != "" && ModelIn(b) != "" ==> ModelIn(a) == ModelIn(b)
  }

  predicate AsksIn(line: Line) {
    line.Object? && AsksForSeveral(line.o)
  }

  ghost predicate Acceptable(rs: seq<Line>) {
    |rs| <= MAX_LINES && AllSound(rs) && DistinctIds(rs) && OneModel(rs)
  }

  /** The pass has seen exactly these requests and found nothing wrong. */
  ghost predicate Clean(s: Scan, rs: seq<Line>) {
    && s.faults == [] && !s.stopped && !s.crashed && s.total == |rs|
    && (forall id :: id in s.ids <==> id != "" && exists r :: r in rs && IdIn(r) == id)
    && (s.model != "" ==> exists r :: r in rs && ModelIn(r) == s.model)
    && (forall r :: r in rs && ModelIn(r) != "" ==> ModelIn(r) == s.model)
  }

  lemma SoundLinesHaveParts(o: Fields)
    requires LineFaults(o) == []
    ensures CustomIdOf(o) != "" && HasRequest(o) && o != map[]
  {
    assert SchemaFaults(o) == [];
  }

  lemma FaultsStay(s: Scan, n: nat, line: Line)
    requires s.faults != []
    ensures ScanLine(s, n, line).faults != []
  {
  }

  lemma UnsoundLinesAreFaults(s: Scan, n: nat, line: Line)
    requires !s.stopped && !s.crashed && !line.Blank? && !Sound(line)
    ensures ScanLine(s, n, line).faults != []
  {
  }

  ghost predicate IsNewId(rs: seq<Line>, line: Line) {
    forall r :: r in rs ==> IdIn(r) != IdIn(line)
  }

  ghost predicate FitsModel(rs: seq<Line>, line: Line) {
    forall r :: r in rs && ModelIn(r) != "" && ModelIn(line) != "" ==> ModelIn(r) == ModelIn(line)
  }

  lemma IdsStayDistinct(rs: seq<Line>, line: Line)
    ensures DistinctIds(rs + [line]) <==> DistinctIds(rs) && IsNewId(rs, line)
  {
    var all := rs + [line];
    assert forall i :: 0 <= i < |rs| ==> all[i] == rs[i];
    if DistinctIds(all) {
      forall r | r in rs ensures IdIn(r) != IdIn(line) {
        var i :| 0 <= i < |rs| && rs[i] == r;
        assert IdIn(all[i]) != IdIn(all[|rs|]);
      }
      forall i, j | 0 <= i < j < |rs| ensures IdIn(rs[i]) != IdIn(rs[j]) {
        assert IdIn(all[i]) != IdIn(all[j]);
      }
    }
  }

  lemma ModelStaysOne(rs: seq<Line>, line: Line)
    ensures OneModel(rs + [line]) <==> OneModel(rs) && FitsModel(rs, line)
  {
    assert line in rs + [line] && forall r :: r in rs + [line] <==> r in rs || r == line;
  }

  lemma SoundnessStays(rs: seq<Line>, line: Line)
    ensures AllSound(rs + [line]) <==> AllSound(rs) && Sound(line)
  {
    assert line in rs + [line] && forall r :: r in rs + [line] <==> r in rs || r == line;
  }

  /** What a sound line does to a pass that still runs. */
  lemma SoundLineScan(s: Scan, n: nat, line: Line)
    requires !s.stopped && !s.crashed && Sound(line) && s.faults == []
    ensures s.total >= MAX_LINES ==> ScanLine(s, n, line).faults != []
    ensures s.total < MAX_LINES ==> Advanced(s, ScanLine(s, n, line), line)
  {
    SoundLinesHaveParts(line.o);
    var t := s.(total := s.total + 1);
    assert t.faults + LineFaults(line.o) == [];
  }

  ghost predicate Advanced(s: Scan, t: Scan, line: Line) {
    && t.total == s.total + 1 && !t.stopped && !t.crashed && IdIn(line) != ""
    && t.ids == s.ids + {IdIn(line)} && t.model == (if s.model == "" then ModelIn(line) else s.model)
    && (t.faults == [] <==> IdIn(line) !in s.ids && (ModelIn(line) != "" && s.model != "" ==> ModelIn(line) == s.model))
  }

  lemma CleanStep(s: Scan, t: Scan, rs: seq<Line>, line: Line)
    requires Clean(s, rs) && Advanced(s, t, line)
    ensures t.faults == [] <==> IsNewId(rs, line) && FitsModel(rs, line)
    ensures t.faults == [] ==> Clean(t, rs + [line])
  {
    assert line in rs + [line] && forall r :: r in rs + [line] <==> r in rs || r == line;
    if t.faults != [] && IdIn(line) !in s.ids {
      var r :| r in rs && ModelIn(r) == s.model;
      assert !FitsModel(rs, line);
    }
  }

  lemma {:induction false} PassMeansAcceptable(lines: seq<Line>)
    ensures ScanFile(lines).faults == [] <==> Acceptable(Requests(lines))
    ensures Acceptable(Requests(lines)) ==> Clean(ScanFile(lines), Requests(lines))
    ensures ScanFile(lines).stopped || ScanFile(lines).crashed ==> ScanFile(lines).faults != []
  {
    if lines != [] {
      var init, line, n := lines[..|lines| - 1], lines[|lines| - 1], |lines|;
      PassMeansAcceptable(init);
      var s, rs := ScanFile(init), Requests(init);
      if !line.Blank? {
        AcceptableStep(rs, line);
        if s.faults != [] {
          FaultsStay(s, n, line);
        } else if !Sound(line) {
          UnsoundLinesAreFaults(s, n, line);
        } else {
          SoundLineScan(s, n, line);
          if s.total < MAX_LINES {
            CleanStep(s, ScanLine(s, n, line), rs, line);
          }
        }
      }
    }
  }

  lemma AcceptableStep(rs: seq<Line>, line: Line)
    ensures Acceptable(rs + [line]) <==>
            Acceptable(rs) && |rs| < MAX_LINES && Sound(line) && IsNewId(rs, line) && FitsModel(rs, line)
  {
    IdsStayDistinct(rs, line);
    ModelStaysOne(rs, line);
    SoundnessStays(rs, line);
  }

  /** The pass reports nothing exactly on acceptable, non-empty files. */
  lemma PassAcceptsExactly(lines: seq<Line>)
    ensures FaultsOf(lines) == [] <==> Requests(lines) != [] && Acceptable(Requests(lines))
    ensures FaultsOf(lines) == [] ==> !ScanFile(lines).crashed && ScanFile(lines).total == |Requests(lines)|
  {
    PassMeansAcceptable(lines);
    var s := ScanFile(lines);
    if s.faults == [] {
      assert s.faults + When(s.total == 0, "empty_file", "") == When(s.total == 0, "empty_file", "");
    }
  }

  // ---- When the pass raises ----

  ghost predicate IsFirstObject(lines: seq<Line>, k: nat) {
    k < |lines| && lines[k].Object? && forall j :: 0 <= j < k ==> !lines[j].Object?
  }

  lemma {:induction false} BeforeTheFirstObject(lines: seq<Line>)
    requires forall l :: l in lines ==> !l.Object?
    ensures !ScanFile(lines).crashed && !ScanFile(lines).bound
    ensures ScanFile(lines).stopped <==> |Requests(lines)| > MAX_LINES
    ensures !ScanFile(lines).stopped ==> ScanFile(lines).total == |Requests(lines)|
  {
    if lines != [] {
      assert forall l :: l in lines[..|lines| - 1] ==> l in lines;
      BeforeTheFirstObject(lines[..|lines| - 1]);
      assert lines[|lines| - 1] in lines;
    }
  }

  /** Once the model variable is bound, or the pass has ended, nothing makes it raise any more. */
  lemma {:induction false} SettledPassStays(lines: seq<Line>, k: nat)
    requires k <= |lines|
    requires ScanFile(lines[..k]).crashed || ScanFile(lines[..k]).bound || ScanFile(lines[..k]).stopped
    ensures ScanFile(lines).crashed == ScanFile(lines[..k]).crashed
    ensures ScanFile(lines).crashed || ScanFile(lines).bound || ScanFile(lines).stopped
  {
    if k == |lines| {
      assert lines[..k] == lines;
    } else {
      assert lines[..|lines| - 1][..k] == lines[..k];
      SettledPassStays(lines[..|lines| - 1], k);
    }
  }

  lemma FirstObjectDecides(lines: seq<Line>, k: nat)
    requires IsFirstObject(lines, k)
    ensures ScanFile(lines).crashed <==> lines[k].o == map[] && |Requests(lines[..k])| < MAX_LINES
  {
    forall l | l in lines[..k] ensures !l.Object? {
      var j :| 0 <= j < k && lines[..k][j] == l;
      assert lines[j] == l;
    }
    BeforeTheFirstObject(lines[..k]);
    assert lines[..k + 1][..k] == lines[..k];
    SettledPassStays(lines, k + 1);
  }

  /** The pass raises exactly when the file's first object is the empty one and comes before the line limit. */
  lemma PassRaisesExactly(lines: seq<Line>)
    ensures ScanFile(lines).crashed <==>
            exists k: nat :: IsFirstObject(lines, k) && lines[k].o == map[] && |Requests(lines[..k])| < MAX_LINES
  {
    if k: nat :| IsFirstObject(lines, k) {
      FirstObjectDecides(lines, k);
    } else {
      NoObjectWithoutAFirst(lines);
      BeforeTheFirstObject(lines);
    }
  }

  lemma {:induction false} NoObjectWithoutAFirst(lines: seq<Line>)
    ensures (forall l :: l in lines ==> !l.Object?) || exists k: nat :: IsFirstObject(lines, k)
  {
    if lines != [] {
      var init := lines[..|lines| - 1];
      NoObjectWithoutAFirst(init);
      if k: nat :| IsFirstObject(init, k) {
        assert IsFirstObject(lines, k);
      } else if lines[|lines| - 1].Object? {
        assert forall j :: 0 <= j < |init| ==> init[j] in init && lines[j] == init[j];
        assert IsFirstObject(lines, |lines| - 1);
      } else {
        assert lines == init + [lines[|lines| - 1]];
      }
    }
  }

  // ---- The startup backfill ----

  /** What one line adds to the backfill, which checks neither schema nor limits. */
  function BackfillWants(line: Line): seq<string> {
    if line.Object? && Get(line.o, "body").Obj? then WantedCapabilities(Get(line.o, "url"), BodyOf(line.o)) else []
  }

  function BackfillNeeds(lines: seq<Line>): seq<string> {
    if lines == [] then []
    else AppendNew(BackfillNeeds(lines[..|lines| - 1]), BackfillWants(lines[|lines| - 1]))
  }

  method AddNew(needs: seq<string>, wanted: seq<string>) returns (all: seq<string>)
    ensures all == AppendNew(needs, wanted)
  {
    all := needs;
    for i := 0 to |wanted|
      invariant all == AppendNew(needs, wanted[..i])
    {
      assert wanted[..i + 1][..i] == wanted[..i];
      if wanted[i] !in all {
        all := all + [wanted[i]];
      }
    }
    assert wanted[..|wanted|] == wanted;
  }

  method Backfill(lines: seq<Line>) returns (needs: seq<string>)
    ensures needs == BackfillNeeds(lines)
  {
    needs := [];
    for i := 0 to |lines|
      invariant needs == BackfillNeeds(lines[..i])
    {
      assert lines[..i + 1][..i] == lines[..i];
      needs := AddNew(needs, BackfillWants(lines[i]));
    }
    assert lines[..|lines|] == lines;
  }

  lemma {:induction false} AppendNewExtends(ks: seq<string>, adds: seq<string>)
    requires forall i, j :: 0 <= i < j < |ks| ==> ks[i] != ks[j]
    ensures ks <= AppendNew(ks, adds)
    ensures forall i, j :: 0 <= i < j < |AppendNew(ks, adds)| ==> AppendNew(ks, adds)[i] != AppendNew(ks, adds)[j]
  {
    if adds != [] {
      AppendNewExtends(ks, adds[..|adds| - 1]);
    }
  }

  /** The backfill lists exactly what some line wants, each capability once. */
  lemma {:induction false} BackfillListsWants(lines: seq<Line>, c: string)
    ensures c in BackfillNeeds(lines) <==> exists l :: l in lines && c in BackfillWants(l)
    ensures forall i, j :: 0 <= i < j < |BackfillNeeds(lines)| ==> BackfillNeeds(lines)[i] != BackfillNeeds(lines)[j]
  {
    if lines != [] {
      var init, last := lines[..|lines| - 1], lines[|lines| - 1];
      BackfillListsWants(init, c);
      AppendNewMembers(BackfillNeeds(init), BackfillWants(last), c);
      AppendNewExtends(BackfillNeeds(init), BackfillWants(last));
      assert forall l :: l in lines <==> l in init || l == last;
    }
  }

  /** What earlier lines want comes first. */
  lemma {:induction false} BackfillKeepsOrder(lines: seq<Line>, n: nat)
    requires n <= |lines|
    ensures BackfillNeeds(lines[..n]) <= BackfillNeeds(lines)
  {
    if n == |lines| {
      assert lines[..n] == lines;
    } else {
      var init := lines[..|lines| - 1];
      BackfillKeepsOrder(init, n);
      BackfillListsWants(init, "");
      AppendNewExtends(BackfillNeeds(init), BackfillWants(lines[|lines| - 1]));
      assert init[..n] == lines[..n];
    }
  }

  lemma {:induction false} NotedKeys(caps: Rows<string, nat>, wanted: seq<string>, n: nat)
    ensures KeysOf(Note(caps, wanted, n)) == AppendNew(KeysOf(caps), wanted)
  {
    if wanted != [] {
      NotedKeys(caps, wanted[..|wanted| - 1], n);
      FindMeansMember(Note(caps, wanted[..|wanted| - 1], n), wanted[|wanted| - 1]);
    }
  }

  /** On a file without faults the backfill finds the list the validator stored, in the same order. */
  lemma {:induction false} BackfillRepeatsTheScan(lines: seq<Line>)
    requires Acceptable(Requests(lines))
    ensures KeysOf(ScanFile(lines).caps) == BackfillNeeds(lines)
    ensures ScanFile(lines).manyRows != [] <==> exists r :: r in Requests(lines) && AsksIn(r)
  {
    if lines != [] {
      var init, line := lines[..|lines| - 1], lines[|lines| - 1];
      PassMeansAcceptable(lines);
      PassMeansAcceptable(init);
      if line.Blank? {
        BackfillRepeatsTheScan(init);
      } else {
        AcceptableStep(Requests(init), line);
        BackfillRepeatsTheScan(init);
        NotesOfALine(ScanFile(init), |lines|, line);
        assert forall r :: r in Requests(lines) <==> r in Requests(init) || r == line;
      }
    }
  }

  lemma NotesOfALine(s: Scan, n: nat, line: Line)
    requires !s.stopped && !s.crashed && Sound(line) && s.total < MAX_LINES
    ensures KeysOf(ScanLine(s, n, line).caps) == AppendNew(KeysOf(s.caps), BackfillWants(line))
    ensures ScanLine(s, n, line).manyRows == if AsksIn(line) then s.manyRows + [n] else s.manyRows
  {
    SoundLinesHaveParts(line.o);
    NotedKeys(s.caps, BackfillWants(line), n);
  }

  // ---- The verdict ----

  const MAX_FILE_BYTES: nat := 100 * 1024 * 1024

  datatype InputFile = Missing | Present(size: nat, lines: seq<Line>)

  predicate IsReadable(file: InputFile) {
    file.Present? && file.size <= MAX_FILE_BYTES
  }

  /** The gates let a file through whose entry is selectable, whose rows ask for one answer, and that has a taker. */
  ghost predicate PassesGates(reg: Registry, model: string, lines: seq<Line>, workers: seq<Worker>, now: int) {
    match SelectableEntry(reg, model)
    case None => false
    case Some(e) =>
      && (e.runtime == "ollama" ==> forall r :: r in Requests(lines) ==> !AsksIn(r))
      && (NoHostOnline(e, workers, now) || SomeHostTakes(e, workers, now, BackfillNeeds(lines), |Requests(lines)|))
  }

  /** The model the rows agree on, "" when none names one. */
  ghost predicate IsFileModel(rs: seq<Line>, model: string) {
    && (forall r :: r in rs && ModelIn(r) != "" ==> ModelIn(r) == model)
    && (model != "" ==> exists r :: r in rs && ModelIn(r) == model)
  }

  lemma FileModelIsUnique(rs: seq<Line>, a: string, b: string)
    requires IsFileModel(rs, a) && IsFileModel(rs, b)
    ensures a == b
  {
  }

  /** What an accepted file's verdict carries. */
  ghost predicate IsAcceptance(v: Verdict, lines: seq<Line>) {
    && v.Accept? && v.total == |Requests(lines)| && IsFileModel(Requests(lines), v.model)
    && v.needs == (if v.model == "" then [] else BackfillNeeds(lines))
  }

  // ---- The verdict, from the lines and the tables ----

  /** The non-blank lines are requests, not too many, with different ids, and name at most one model. */
  ghost predicate IsBatchFile(rs: seq<Line>) {
    && 1 <= |rs| <= 50_000
    && (forall r :: r in rs ==> r.Object? && IsRequest(r.o))
    && (forall i, j, id :: 0 <= i < j < |rs| && rs[i].Object? && rs[j].Object? ==>
          !(Holds(rs[i].o, "custom_id", Str(id)) && Holds(rs[j].o, "custom_id", Str(id))))
    && (forall a, b, m, n :: a in rs && b in rs && a.Object? && b.Object? && Names(a.o, m) && Names(b.o, n) ==> m == n)
  }

  ghost predicate SomeRowNames(rs: seq<Line>, model: string) {
    exists r :: r in rs && r.Object? && Names(r.o, model)
  }

  /** The worker was heard within two minutes and may run the entry's plain batches at some hour. */
  ghost predicate IsUp(e: Entry, w: Worker, now: int) {
    w.status == Online && now - w.lastHeartbeat <= 120 && MayRun(e, w.host, [], None, true)
  }

  ghost predicate AreWants(lines: seq<Line>, needs: seq<string>) {
    forall c :: c in needs <==> exists l :: l in lines && l.Object? && Get(l.o, "body").Obj? && Wants(Get(l.o, "url"), BodyOf(l.o), c)
  }

  /** The model is offered, asks nothing its runtime cannot do, and some worker that is up can take the file, unless none is. */
  ghost predicate IsAdmitted(reg: Registry, model: string, lines: seq<Line>, needs: seq<string>, workers: seq<Worker>, now: int) {
    exists e :: Selects(reg, model, e)
      && (e.runtime == "ollama" ==> forall r :: r in Requests(lines) && r.Object? ==> !AsksForMore(r.o))
      && (|| (forall w :: w in workers ==> !IsUp(e, w, now))
          || exists w :: w in workers && IsUp(e, w, now) && MayRun(e, w.host, needs, Some(|Requests(lines)|), true))
  }

  lemma SoundMeans(line: Line)
    ensures Sound(line) <==> line.Object? && IsRequest(line.o)
  {
    if line.Object? { LinesWithoutFaults(line.o); }
  }

  lemma DistinctIdsMean(rs: seq<Line>)
    requires forall r :: r in rs ==> r.Object? && IsRequest(r.o)
    ensures DistinctIds(rs) <==>
            forall i, j, id :: 0 <= i < j < |rs| ==> !(Holds(rs[i].o, "custom_id", Str(id)) && Holds(rs[j].o, "custom_id", Str(id)))
  {
    forall i | 0 <= i < |rs| ensures rs[i].Object? && Holds(rs[i].o, "custom_id", Str(IdIn(rs[i]))) && IdIn(rs[i]) != "" {
      assert rs[i] in rs;
    }
    forall i, id | 0 <= i < |rs| ensures Holds(rs[i].o, "custom_id", Str(id)) <==> id == IdIn(rs[i]) {
    }
    if DistinctIds(rs) {
      forall i, j, id | 0 <= i < j < |rs|
        ensures !(Holds(rs[i].o, "custom_id", Str(id)) && Holds(rs[j].o, "custom_id", Str(id)))
      {
        assert IdIn(rs[i]) != IdIn(rs[j]);
      }
    } else {
      var i, j :| 0 <= i < j < |rs| && IdIn(rs[i]) == IdIn(rs[j]);
      assert Holds(rs[i].o, "custom_id", Str(IdIn(rs[i]))) && Holds(rs[j].o, "custom_id", Str(IdIn(rs[i])));
    }
  }

  lemma OneModelMeans(rs: seq<Line>)
    requires forall r :: r in rs ==> r.Object?
    ensures OneModel(rs) <==> forall a, b, m, n :: a in rs && b in rs && Names(a.o, m) && Names(b.o, n) ==> m == n
  {
    forall r: Line, m | r.Object? ensures Names(r.o, m) <==> m != "" && ModelIn(r) == m {
      NamedModelMeans(r.o, m);
    }
    if !OneModel(rs) {
      var a, b :| a in rs && b in rs && ModelIn(a) != "" && ModelIn(b) != "" && ModelIn(a) != ModelIn(b);
      assert Names(a.o, ModelIn(a)) && Names(b.o, ModelIn(b));
    }
  }

  /** What the pass accepts. */
  lemma AcceptableMeans(lines: seq<Line>)
    ensures Requests(lines) != [] && Acceptable(Requests(lines)) <==> IsBatchFile(Requests(lines))
  {
    var rs := Requests(lines);
    forall r ensures Sound(r) <==> r.Object? && IsRequest(r.o) {
      SoundMeans(r);
    }
    if AllSound(rs) {
      DistinctIdsMean(rs);
      OneModelMeans(rs);
    }
  }

  lemma FileModelMeans(rs: seq<Line>, model: string)
    requires OneModel(rs)
    ensures model != "" ==> (IsFileModel(rs, model) <==> SomeRowNames(rs, model))
  {
    forall r: Line | r.Object? ensures Names(r.o, model) <==> model != "" && ModelIn(r) == model {
      NamedModelMeans(r.o, model);
    }
  }

  lemma BackfillMeans(lines: seq<Line>)
    ensures AreWants(lines, BackfillNeeds(lines))
  {
    forall c ensures c in BackfillNeeds(lines) <==>
                     exists l :: l in lines && l.Object? && Get(l.o, "body").Obj? && Wants(Get(l.o, "url"), BodyOf(l.o), c)
    {
      BackfillListsWants(lines, c);
      forall l: Line | l.Object? ensures c in WantedCapabilities(Get(l.o, "url"), BodyOf(l.o)) <==> Wants(Get(l.o, "url"), BodyOf(l.o), c) {
        WantedMeans(Get(l.o, "url"), BodyOf(l.o));
      }
    }
  }

  lemma UpMeans(e: Entry, w: Worker, now: int, needs: seq<string>, total: nat)
    ensures IsOnlineHost(e, w, now) <==> IsUp(e, w, now)
    ensures CanServe(e, w.host, needs, Some(total), true) <==> MayRun(e, w.host, needs, Some(total), true)
  {
    CanServeMeans(e, w.host, [], None, true);
    CanServeMeans(e, w.host, needs, Some(total), true);
  }

  lemma TakersMean(e: Entry, workers: seq<Worker>, now: int, needs: seq<string>, total: nat)
    ensures NoHostOnline(e, workers, now) <==> forall w :: w in workers ==> !IsUp(e, w, now)
    ensures SomeHostTakes(e, workers, now, needs, total) <==>
            exists w :: w in workers && IsUp(e, w, now) && MayRun(e, w.host, needs, Some(total), true)
  {
    forall w
      ensures IsOnlineHost(e, w, now) <==> IsUp(e, w, now)
      ensures CanServe(e, w.host, needs, Some(total), true) <==> MayRun(e, w.host, needs, Some(total), true)
    {
      UpMeans(e, w, now, needs, total);
    }
  }

  lemma GatesMean(reg: Registry, model: string, lines: seq<Line>, workers: seq<Worker>, now: int)
    ensures PassesGates(reg, model, lines, workers, now) <==> IsAdmitted(reg, model, lines, BackfillNeeds(lines), workers, now)
  {
    var entry := SelectableEntry(reg, model);
    forall e ensures entry == Some(e) <==> Selects(reg, model, e) {
      SelectableMeans(reg, model, e);
    }
    forall r: Line | r.Object? ensures AsksIn(r) <==> AsksForMore(r.o) {
      AskingMeans(r.o);
    }
    if entry.Some? {
      TakersMean(entry.value, workers, now, BackfillNeeds(lines), |Requests(lines)|);
    }
  }

  /** An accepted file, and the verdict it gets. */
  ghost predicate IsAccepted(file: InputFile, reg: Registry, workers: seq<Worker>, now: int, needs: seq<string>) {
    && file.Present? && file.size <= 104_857_600 && AreWants(file.lines, needs) && IsBatchFile(Requests(file.lines))
    && forall m :: SomeRowNames(Requests(file.lines), m) ==> IsAdmitted(reg, m, file.lines, needs, workers, now)
  }

  ghost predicate StatesFile(v: Verdict, file: InputFile, needs: seq<string>)
    requires file.Present?
  {
    && v.Accept? && v.total == |Requests(file.lines)|
    && (if v.model == "" then (forall m :: !SomeRowNames(Requests(file.lines), m)) && v.needs == []
        else SomeRowNames(Requests(file.lines), v.model) && v.needs == needs)
  }

  /** The conditions of the verdict, said from the lines. */
  lemma AcceptanceMeans(file: InputFile, reg: Registry, workers: seq<Worker>, now: int)
    requires file.Present?
    ensures var lines := file.lines;
            (&& IsReadable(file) && Requests(lines) != [] && Acceptable(Requests(lines))
             && (forall m :: m != "" && IsFileModel(Requests(lines), m) ==> PassesGates(reg, m, lines, workers, now)))
            <==> IsAccepted(file, reg, workers, now, BackfillNeeds(lines))
  {
    var lines := file.lines;
    AcceptableMeans(lines);
    BackfillMeans(lines);
    forall m ensures PassesGates(reg, m, lines, workers, now) <==> IsAdmitted(reg, m, lines, BackfillNeeds(lines), workers, now) {
      GatesMean(reg, m, lines, workers, now);
    }
    if OneModel(Requests(lines)) {
      forall m ensures m != "" && IsFileModel(Requests(lines), m) <==> SomeRowNames(Requests(lines), m) {
        FileModelMeans(Requests(lines), m);
      }
    }
  }

  lemma VerdictMeans(v: Verdict, file: InputFile)
    requires file.Present? && OneModel(Requests(file.lines)) && IsAcceptance(v, file.lines)
    ensures StatesFile(v, file, BackfillNeeds(file.lines))
  {
    forall m ensures m != "" && IsFileModel(Requests(file.lines), m) <==> SomeRowNames(Requests(file.lines), m) {
      FileModelMeans(Requests(file.lines), m);
    }
    if v.model == "" {
      forall m ensures !SomeRowNames(Requests(file.lines), m) {
        if m != "" && IsFileModel(Requests(file.lines), m) {
          FileModelIsUnique(Requests(file.lines), m, "");
        }
      }
    }
  }

  method GateVerdict(reg: Registry, model: string, many: nat, needs: seq<string>, total: nat, workers: seq<Worker>, now: int)
    returns (verdict: Verdict)
    ensures verdict == Accept(total, model, needs) || verdict == Reject(total)
    ensures verdict.Accept? <==>
            && SelectableEntry(reg, model).Some?
            && var e := SelectableEntry(reg, model).value;
               (e.runtime == "ollama" ==> many == 0)
               && (NoHostOnline(e, workers, now) || SomeHostTakes(e, workers, now, needs, total))
  {
    var entry := SelectableEntry(reg, model);
    if entry.None? {
      return Reject(total);
    }
    var gate := CheckGates(entry.value, many, needs, total, workers, now);
    return if gate == Open then Accept(total, model, needs) else Reject(total);
  }

  /** `validate_batch_file`, up to what it persists; nothing when it raises before that. */
  method ValidateBatchFile(file: InputFile, reg: Registry, workers: seq<Worker>, now: int) returns (verdict: Option<Verdict>)
    ensures verdict.None? <==> IsReadable(file) && ScanFile(file.lines).crashed
    ensures verdict.Some? ==> verdict.value.Accept? || verdict.value.Reject?
    ensures verdict.Some? && verdict.value.Accept? <==>
            && IsReadable(file) && Requests(file.lines) != [] && Acceptable(Requests(file.lines))
            && (forall m :: m != "" && IsFileModel(Requests(file.lines), m) ==> PassesGates(reg, m, file.lines, workers, now))
    ensures verdict.Some? && verdict.value.Accept? ==> IsAcceptance(verdict.value, file.lines)
    // The same, from the lines, the catalogue and the workers alone.
    ensures verdict.Some? ==>
              (verdict.value.Accept? <==> file.Present? && IsAccepted(file, reg, workers, now, BackfillNeeds(file.lines)))
    ensures verdict.Some? && verdict.value.Accept? ==>
              AreWants(file.lines, BackfillNeeds(file.lines)) && StatesFile(verdict.value, file, BackfillNeeds(file.lines))
    ensures verdict.Some? && verdict.value.Reject? ==> verdict.value.total == if IsReadable(file) then ScanFile(file.lines).total else 0
  {
    if !IsReadable(file) {
      return Some(Reject(0));
    }
    AcceptanceMeans(file, reg, workers, now);
    BackfillMeans(file.lines);
    var crashed, log, context := ScanLines(file.lines);
    PassAcceptsExactly(file.lines);
    if crashed {
      return None;
    }
    if !log.valid {
      return Some(Reject(context.total));
    }
    PassMeansAcceptable(file.lines);
    BackfillRepeatsTheScan(file.lines);
    assert IsFileModel(Requests(file.lines), context.resultModel);
    forall m | IsFileModel(Requests(file.lines), m) ensures m == context.resultModel {
      FileModelIsUnique(Requests(file.lines), m, context.resultModel);
    }
    if context.resultModel == "" {
      VerdictMeans(Accept(context.total, "", []), file);
      return Some(Accept(context.total, "", []));
    }
    VerdictMeans(Accept(context.total, context.resultModel, BackfillNeeds(file.lines)), file);
    var judged := GateVerdict(reg, context.resultModel, |context.manyRows|, KeysOf(context.caps), context.total, workers, now);
    return Some(judged);
  }

  /** A host with one runtime that honours whatever is asked and lists the model. */
  function AbleHost(needs: seq<string>): Host {
    SMALL_HOST.(runtimes := [SMALL_RUNTIME.(capabilities := set c | c in needs)])
  }

  lemma AbleHostServes(model: string, needs: seq<string>, total: nat)
    requires model != ""
    ensures Servable(Registry([(model, SMALL_MODEL)], []), AbleHost(needs), true, Queued(model, needs, total))
  {
    var h := AbleHost(needs);
    assert RuntimeArtifacts([], false) == [];
    assert RuntimeArtifacts([("m:1b", SMALL_ROW)], false) == [("m:1b", "")];
    assert HostsOn(h.runtimes[0], SMALL_MODEL);
    assert HostingRuntime(h.runtimes, SMALL_MODEL) == Some(0);
    assert LargestGpu([8.0]) == Some(8.0);
    assert SelectableEntry(Registry([(model, SMALL_MODEL)], []), model) == Some(SMALL_MODEL);
  }

  /**
   An accepted file names a model, and then some host could run it under some catalogue, or it
   names none, is stored all the same, and no worker is ever given it.
   */
  lemma AcceptedFilesRunExactlyWithAModel(v: Verdict, lines: seq<Line>)
    requires IsAcceptance(v, lines)
    ensures (exists reg, h, open :: Servable(reg, h, open, Queued(v.model, v.needs, v.total)))
            <==> exists r :: r in Requests(lines) && ModelIn(r) != ""
  {
    if v.model != "" {
      AbleHostServes(v.model, v.needs, v.total);
    }
  }
}
