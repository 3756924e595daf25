/**
 The faults reported of a whole file (backend/services/batch_validator.py): those of its lines, and
 those between them.
 */
module FileFaults {
  import opened Options
  import opened KeyedRows
  import opened FileValidator
  import opened AcceptedLines

  predicate HasId(line: Line, id: string) {
    line.Object? && id != "" && Holds(line.o, "custom_id", Str(id))
  }

  predicate NamesModel(line: Line, model: string) {
    line.Object? && Names(line.o, model)
  }

  /** A line's own faults. */
  ghost predicate IsOwnFault(line: Line, f: Fault) {
    match line
    case Blank => false
    case Unparsable => f == Fault("invalid_json", "")
    case NotObject => f == Fault("not_object", "")
    case Object(o) => IsLineFault(o, f)
  }

  ghost predicate SharesId(before: seq<Line>, line: Line) {
    exists r, id :: r in before && HasId(r, id) && HasId(line, id)
  }

  ghost predicate DiffersInModel(before: seq<Line>, line: Line) {
    exists r, m, n :: r in before && NamesModel(r, m) && NamesModel(line, n) && m != n
  }

  /** A line's own fault, an id that occurs twice, or two models named. */
  ghost predicate IsFileFault(lines: seq<Line>, f: Fault) {
    || (exists r :: r in lines && IsOwnFault(r, f))
    || (f == Fault("duplicate_custom_id", "custom_id") && exists j :: 0 <= j < |lines| && SharesId(lines[..j], lines[j]))
    || (f == Fault("model_mismatch", "body.model") && exists j :: 0 <= j < |lines| && DiffersInModel(lines[..j], lines[j]))
  }

  lemma FileFaultSnoc(init: seq<Line>, line: Line, f: Fault)
    ensures IsFileFault(init + [line], f) <==>
            || IsFileFault(init, f) || IsOwnFault(line, f)
            || (f == Fault("duplicate_custom_id", "custom_id") && SharesId(init, line))
            || (f == Fault("model_mismatch", "body.model") && DiffersInModel(init, line))
  {
    var lines := init + [line];
    assert forall r :: r in lines <==> r in init || r == line;
    assert forall j | 0 <= j < |init| :: lines[..j] == init[..j] && lines[j] == init[j];
    assert lines[..|init|] == init && lines[|init|] == line;
  }

  /** What the pass remembers of the lines so far. */
  ghost predicate Remembers(s: Scan, lines: seq<Line>) {
    && (forall id :: id in s.ids <==> exists r :: r in lines && HasId(r, id))
    && (s.model != "" ==> exists r :: r in lines && NamesModel(r, s.model))
    && (s.model == "" ==> forall r, m :: r in lines ==> !NamesModel(r, m))
  }

  lemma IdOfLine(line: Line, id: string)
    requires line.Object?
    ensures HasId(line, id) <==> id != "" && CustomIdOf(line.o) == id
  {
    if id != "" { CustomIdMeans(line.o, id); }
  }

  lemma ModelOfLine(line: Line, model: string)
    requires line.Object?
    ensures NamesModel(line, model) <==> model != "" && ModelOf(line.o) == model
  {
    NamedModelMeans(line.o, model);
  }

  lemma RememberedSnoc(s: Scan, t: Scan, init: seq<Line>, line: Line)
    requires Remembers(s, init)
    requires !line.Object? ==> t.ids == s.ids && t.model == s.model
    requires line.Object? ==> t.ids == (if CustomIdOf(line.o) == "" then s.ids else s.ids + {CustomIdOf(line.o)})
    requires line.Object? ==> t.model == if s.model == "" then ModelOf(line.o) else s.model
    ensures Remembers(t, init + [line])
  {
    assert forall r :: r in init + [line] <==> r in init || r == line;
    assert line in init + [line];
    if line.Object? {
      forall id ensures HasId(line, id) <==> id != "" && CustomIdOf(line.o) == id { IdOfLine(line, id); }
      forall m ensures NamesModel(line, m) <==> m != "" && ModelOf(line.o) == m { ModelOfLine(line, m); }
    }
  }

  lemma SharedIdMeans(s: Scan, init: seq<Line>, line: Line)
    requires Remembers(s, init) && line.Object?
    ensures SharesId(init, line) <==> CustomIdOf(line.o) != "" && CustomIdOf(line.o) in s.ids
  {
    forall id ensures HasId(line, id) <==> id != "" && CustomIdOf(line.o) == id { IdOfLine(line, id); }
    if CustomIdOf(line.o) != "" && CustomIdOf(line.o) in s.ids {
      var r :| r in init && HasId(r, CustomIdOf(line.o));
      assert HasId(line, CustomIdOf(line.o));
    }
  }

  /** All models named so far are the first one, unless a mismatch was reported already. */
  ghost predicate OneModelSoFar(init: seq<Line>, model: string) {
    forall r, m :: r in init && NamesModel(r, m) ==> m == model
  }

  lemma DifferentModelMeans(s: Scan, init: seq<Line>, line: Line)
    requires Remembers(s, init) && line.Object?
    ensures ModelOf(line.o) != "" && s.model != "" && ModelOf(line.o) != s.model ==> DiffersInModel(init, line)
    ensures OneModelSoFar(init, s.model) && DiffersInModel(init, line) ==> ModelOf(line.o) != "" && s.model != "" && ModelOf(line.o) != s.model
  {
    forall m ensures NamesModel(line, m) <==> m != "" && ModelOf(line.o) == m { ModelOfLine(line, m); }
    if ModelOf(line.o) != "" && s.model != "" && ModelOf(line.o) != s.model {
      var r :| r in init && NamesModel(r, s.model);
      assert NamesModel(line, ModelOf(line.o));
    }
  }

  /** A second model among the lines was reported when it came. */
  ghost predicate MismatchKnown(s: Scan, lines: seq<Line>) {
    Fault("model_mismatch", "body.model") in s.faults || OneModelSoFar(lines, s.model)
  }

  lemma {:induction false} ScannedFaults(lines: seq<Line>, f: Fault)
    requires !ScanFile(lines).stopped && !ScanFile(lines).crashed
    ensures var s := ScanFile(lines);
            && (f in s.faults <==> IsFileFault(lines, f)) && Remembers(s, lines) && MismatchKnown(s, lines)
  {
    if lines != [] {
      var init, line := lines[..|lines| - 1], lines[|lines| - 1];
      ScannedFaults(init, f);
      assert lines == init + [line];
      var s, t := ScanFile(init), ScanFile(lines);
      FileFaultSnoc(init, line, f);
      StepFaults(s, t, init, line, f);
      RememberedSnoc(s, t, init, line);
      StepMismatch(s, t, init, line);
    }
  }

  lemma NoneShared(init: seq<Line>, line: Line)
    requires !line.Object?
    ensures !SharesId(init, line) && !DiffersInModel(init, line)
  {
  }

  lemma StepFaults(s: Scan, t: Scan, init: seq<Line>, line: Line, f: Fault)
    requires Remembers(s, init) && MismatchKnown(s, init) && !s.stopped && !s.crashed
    requires t == ScanLine(s, |init| + 1, line) && !t.stopped && !t.crashed
    ensures f in t.faults <==>
            || f in s.faults || IsOwnFault(line, f)
            || (f == Fault("duplicate_custom_id", "custom_id") && SharesId(init, line))
            || (f == Fault("model_mismatch", "body.model") && DiffersInModel(init, line))
  {
    if line.Object? {
      LineFaultsMean(line.o, f);
      SharedIdMeans(s, init, line);
      DifferentModelMeans(s, init, line);
      ObjectFaults(s.(total := s.total + 1), |init| + 1, line.o, f);
    } else {
      NoneShared(init, line);
    }
  }

  lemma ObjectFaults(s: Scan, n: nat, o: Fields, f: Fault)
    ensures f in ScanObject(s, n, o).faults <==>
            || f in s.faults || f in LineFaults(o)
            || (f == Fault("duplicate_custom_id", "custom_id") && CustomIdOf(o) != "" && CustomIdOf(o) in s.ids)
            || (f == Fault("model_mismatch", "body.model") && ModelOf(o) != "" && s.model != "" && ModelOf(o) != s.model)
  {
  }

  lemma StepMismatch(s: Scan, t: Scan, init: seq<Line>, line: Line)
    requires Remembers(s, init) && MismatchKnown(s, init) && !s.stopped && !s.crashed
    requires t == ScanLine(s, |init| + 1, line) && !t.stopped && !t.crashed
    ensures MismatchKnown(t, init + [line])
  {
    var f := Fault("model_mismatch", "body.model");
    StepFaults(s, t, init, line, f);
    assert forall r :: r in init + [line] <==> r in init || r == line;
    if line.Object? {
      forall m ensures NamesModel(line, m) <==> m != "" && ModelOf(line.o) == m { ModelOfLine(line, m); }
      DifferentModelMeans(s, init, line);
      ObjectFaults(s.(total := s.total + 1), |init| + 1, line.o, f);
    }
  }

  lemma {:induction false} EmptyFiles(lines: seq<Line>)
    ensures ScanFile(lines).total == 0 <==> forall r :: r in lines ==> r.Blank?
    ensures ScanFile(lines).stopped || ScanFile(lines).crashed ==> ScanFile(lines).total > 0
  {
    if lines != [] {
      var init, line := lines[..|lines| - 1], lines[|lines| - 1];
      EmptyFiles(init);
      assert line in lines && forall r :: r in lines <==> r in init || r == line;
    }
  }

  /** A file the pass reads to its end is reported exactly these faults. */
  lemma FileFaultsMean(lines: seq<Line>, f: Fault)
    requires !ScanFile(lines).stopped && !ScanFile(lines).crashed
    ensures f in FaultsOf(lines) <==>
            IsFileFault(lines, f) || (f == Fault("empty_file", "") && forall r :: r in lines ==> r.Blank?)
  {
    ScannedFaults(lines, f);
    EmptyFiles(lines);
  }
}
