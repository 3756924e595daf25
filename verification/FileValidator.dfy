/**
 Batch-file validation (backend/services/batch_validator.py), from parsed lines to
 the verdict: the per-line rules, the single pass with its cross-line context, and
 the capability scan the startup backfill repeats.
 */
module FileValidator {
  import opened Options
  import opened KeyedRows

  const MAX_LINES: nat := 50_000
  const MAX_STORED_ERRORS: nat := 100

  datatype Json =
    | Null
    | Bool(b: bool)
    | Int(i: int)
    | Float(r: real)
    | Str(s: string)
    | Arr(items: seq<Json>)
    | Obj(fields: map<string, Json>)

  type Fields = map<string, Json>

  /** dict.get: a missing key reads as null. */
  function Get(o: Fields, k: string): Json {
    if k in o then o[k] else Null
  }

  predicate Truthy(v: Json) {
    match v
    case Null => false
    case Bool(b) => b
    case Int(i) => i != 0
    case Float(r) => r != 0.0
    case Str(s) => s != ""
    case Arr(items) => items != []
    case Obj(fields) => fields != map[]
  }

  predicate IsText(v: Json) {
    v.Str? && v.s != ""
  }

  /** A validation error without its line number and wording. */
  datatype Fault = Fault(code: string, field: string)

  // ---- The rules for one line ----

  const ALLOWED_KEYS := {"custom_id", "method", "url", "body"}
  const SUPPORTED_ENDPOINTS := {"/v1/chat/completions", "/v1/completions", "/v1/embeddings"}

  function When(broken: bool, code: string, field: string): seq<Fault> {
    if broken then [Fault(code, field)] else []
  }

  function SchemaFaults(o: Fields): seq<Fault> {
    var method_, url, body := Get(o, "method"), Get(o, "url"), Get(o, "body");
    When(!(o.Keys <= ALLOWED_KEYS), "unknown_fields", "")
    + When(!IsText(Get(o, "custom_id")), "missing_field", "custom_id")
    + (if !IsText(method_) then [Fault("missing_field", "method")] else When(method_.s != "POST", "invalid_method", "method"))
    + (if !IsText(url) then [Fault("missing_field", "url")] else When(url.s !in SUPPORTED_ENDPOINTS, "unsupported_endpoint", "url"))
    + (if !body.Obj? then [Fault("missing_field", "body")] else When("model" !in body.fields, "missing_field", "body.model"))
    + When(body.Obj? && !Get(body.fields, "model").Null? && !Get(body.fields, "model").Str?, "invalid_type", "body.model")
  }

  predicate InRange(v: Json) {
    v.Int? && 0 <= v.i <= 20
  }

  function LogprobFaults(body: Fields, chat: bool): seq<Fault> {
    var logprobs, top, echo := Get(body, "logprobs"), Get(body, "top_logprobs"), Get(body, "echo");
    When(!logprobs.Null? && !logprobs.Bool? && (chat || !InRange(logprobs)), "invalid_type", "body.logprobs")
    + When(!top.Null? && !InRange(top), "invalid_type", "body.top_logprobs")
    + When(!chat && !echo.Null? && !echo.Bool?, "invalid_type", "body.echo")
  }

  function MessageFaults(messages: seq<Json>): seq<Fault> {
    if messages == [] then []
    else
      (match messages[0]
       case Obj(m) =>
         When(!IsText(Get(m, "role")), "missing_field", "role") + When(!Get(m, "content").Str?, "missing_field", "content")
       case _ => [Fault("invalid_type", "message")])
      + MessageFaults(messages[1..])
  }

  function ChatFaults(body: Fields): seq<Fault> {
    (match Get(body, "messages")
     case Arr(messages) => if messages == [] then [Fault("invalid_type", "body.messages")] else MessageFaults(messages)
     case _ => [Fault("invalid_type", "body.messages")])
    + When("echo" in body, "unsupported_parameter", "body.echo")
    + LogprobFaults(body, true)
  }

  function CompletionFaults(body: Fields): seq<Fault> {
    var prompt := Get(body, "prompt");
    When(!(IsText(prompt) || (prompt.Arr? && prompt.items != [] && forall p | p in prompt.items :: p.Str?)), "invalid_type", "body.prompt")
    + LogprobFaults(body, false)
  }

  function EndpointFaults(o: Fields): seq<Fault> {
    match Get(o, "body")
    case Obj(body) =>
      if Get(o, "url") == Str("/v1/chat/completions") then ChatFaults(body)
      else if Get(o, "url") == Str("/v1/completions") then CompletionFaults(body)
      else []
    case _ => []
  }

  /** Endpoint rules are looked at only when the schema holds. */
  function LineFaults(o: Fields): seq<Fault> {
    if SchemaFaults(o) != [] then SchemaFaults(o) else EndpointFaults(o)
  }

  function WantedCapabilities(url: Json, body: Fields): seq<string> {
    var top := Get(body, "top_logprobs");
    (if Truthy(Get(body, "logprobs")) || (top.Int? && top.i > 0) then ["logprobs"] else [])
    + (if url == Str("/v1/completions")
       then ["completions"] + (if Truthy(Get(body, "echo")) then ["prompt_scoring"] else [])
       else [])
  }

  // ---- The pass over the file ----

  datatype Line = Blank | Unparsable | NotObject | Object(o: Fields)

  function BodyOf(o: Fields): Fields {
    if Get(o, "body").Obj? then Get(o, "body").fields else map[]
  }

  /** The line's model, "" when it names none. */
  function ModelOf(o: Fields): string {
    if Get(BodyOf(o), "model").Str? then Get(BodyOf(o), "model").s else ""
  }

  function CustomIdOf(o: Fields): string {
    if Get(o, "custom_id").Str? then Get(o, "custom_id").s else ""
  }

  predicate AsksForSeveral(o: Fields) {
    !Get(BodyOf(o), "n").Null? && Get(BodyOf(o), "n") != Int(1) && Get(BodyOf(o), "n") != Float(1.0) && Get(BodyOf(o), "n") != Bool(true)
  }

  /** dict.setdefault for each name, keeping the first line that asked. */
  function Note(caps: Rows<string, nat>, wanted: seq<string>, line: nat): Rows<string, nat> {
    if wanted == [] then caps
    else
      var before := Note(caps, wanted[..|wanted| - 1], line);
      if Find(before, wanted[|wanted| - 1]).Some? then before else before + [(wanted[|wanted| - 1], line)]
  }

  /**
   What the pass has gathered. `bound` says the loop's `model` variable holds a
   value; `crashed` that it was read before it did; `stopped` that the line limit ended the pass.
   */
  datatype Scan = Scan(
    total: nat, faults: seq<Fault>, ids: set<string>, model: string, manyRows: seq<nat>,
    caps: Rows<string, nat>, bound: bool, stopped: bool, crashed: bool)

  const START := Scan(0, [], {}, "", [], [], false, false, false)

  function IdFaults(s: Scan, o: Fields): seq<Fault> {
    When(CustomIdOf(o) != "" && CustomIdOf(o) in s.ids, "duplicate_custom_id", "custom_id")
  }

  function ModelFaults(s: Scan, o: Fields): seq<Fault> {
    When(ModelOf(o) != "" && s.model != "" && ModelOf(o) != s.model, "model_mismatch", "body.model")
  }

  /** The cross-line checks and the notes taken for the gates. */
  function ScanContext(s: Scan, n: nat, o: Fields): Scan {
    s.(faults := s.faults + IdFaults(s, o) + ModelFaults(s, o),
       ids := if CustomIdOf(o) == "" then s.ids else s.ids + {CustomIdOf(o)},
       model := if s.model == "" then ModelOf(o) else s.model,
       manyRows := if AsksForSeveral(o) then s.manyRows + [n] else s.manyRows,
       caps := if HasRequest(o) then Note(s.caps, WantedCapabilities(Get(o, "url"), BodyOf(o)), n) else s.caps,
       bound := true)
  }

  predicate HasRequest(o: Fields) {
    Get(o, "url").Str? && Get(o, "body").Obj?
  }

  function ScanObject(s: Scan, n: nat, o: Fields): Scan {
    var t := s.(faults := s.faults + LineFaults(o));
    if o == map[] then t.(crashed := !s.bound) else ScanContext(t, n, o)
  }

  /** One line, numbered `n`. */
  function ScanLine(s: Scan, n: nat, line: Line): Scan {
    if s.stopped || s.crashed || line.Blank? then s
    else if s.total + 1 > MAX_LINES then
      s.(total := s.total + 1, faults := s.faults + [Fault("too_many_requests", "")], stopped := true)
    else
      var t := s.(total := s.total + 1);
      match line
      case Unparsable => t.(faults := t.faults + [Fault("invalid_json", "")])
      case NotObject => t.(faults := t.faults + [Fault("not_object", "")])
      case Object(o) => ScanObject(t, n, o)
  }

  function ScanFile(lines: seq<Line>): Scan {
    if lines == [] then START
    else ScanLine(ScanFile(lines[..|lines| - 1]), |lines|, lines[|lines| - 1])
  }

  function FaultsOf(lines: seq<Line>): seq<Fault> {
    var s := ScanFile(lines);
    s.faults + When(s.total == 0, "empty_file", "")
  }

  /** `ValidationResult`: every error counts, the first hundred are kept. */
  class ErrorLog {
    var valid: bool
    var errors: seq<Fault>
    var count: nat

    ghost predicate Holds(all: seq<Fault>)
      reads this
    {
      valid == (all == []) && count == |all| && errors == if |all| <= 100 then all else all[..100]
    }

    constructor ()
      ensures Holds([])
    {
      valid, errors, count := true, [], 0;
    }

    method AddError(f: Fault, ghost all: seq<Fault>)
      requires Holds(all)
      modifies this
      ensures Holds(all + [f])
    {
      valid := false;
      count := count + 1;
      if |errors| < MAX_STORED_ERRORS {
        errors := errors + [f];
      }
    }

    method AddErrors(fs: seq<Fault>, ghost all: seq<Fault>)
      requires Holds(all)
      modifies this
      ensures Holds(all + fs)
    {
      assert all + fs[..0] == all;
      for i := 0 to |fs|
        invariant Holds(all + fs[..i])
      {
        AddError(fs[i], all + fs[..i]);
        assert all + fs[..i] + [fs[i]] == all + fs[..i + 1];
      }
      assert fs[..|fs|] == fs;
    }
  }

  /** `_CrossFileContext`, with the variables the loop carries beside it. */
  class CrossFileContext {
    var total: nat
    var ids: set<string>
    var firstModel: string
    var resultModel: string
    var manyRows: seq<nat>
    var caps: Rows<string, nat>
    var bound: bool

    ghost predicate Matches(s: Scan)
      reads this
    {
      && total == s.total && ids == s.ids && manyRows == s.manyRows && caps == s.caps && bound == s.bound
      && firstModel == s.model == resultModel
    }

    constructor ()
      ensures Matches(START)
    {
      total, ids, firstModel, resultModel, manyRows, caps, bound := 0, {}, "", "", [], [], false;
    }

    method CheckCustomId(id: string) returns (faults: seq<Fault>)
      modifies this`ids
      ensures faults == When(id != "" && id in old(ids), "duplicate_custom_id", "custom_id")
      ensures ids == if id == "" then old(ids) else old(ids) + {id}
    {
      if id == "" {
        return [];
      }
      if id in ids {
        assert ids == ids + {id};
        return [Fault("duplicate_custom_id", "custom_id")];
      }
      ids := ids + {id};
      return [];
    }

    method CheckModelConsistency(model: string) returns (faults: seq<Fault>)
      modifies this`firstModel
      ensures faults == When(model != "" && old(firstModel) != "" && model != old(firstModel), "model_mismatch", "body.model")
      ensures firstModel == if old(firstModel) == "" then model else old(firstModel)
    {
      if firstModel == "" {
        firstModel := model;
        return [];
      }
      return When(model != "" && model != firstModel, "model_mismatch", "body.model");
    }

    method NoteRow(n: nat, o: Fields)
      modifies this`manyRows, this`caps
      ensures manyRows == if AsksForSeveral(o) then old(manyRows) + [n] else old(manyRows)
      ensures caps == if HasRequest(o) then Note(old(caps), WantedCapabilities(Get(o, "url"), BodyOf(o)), n) else old(caps)
    {
      if AsksForSeveral(o) {
        manyRows := manyRows + [n];
      }
      if HasRequest(o) {
        NoteCapabilities(n, WantedCapabilities(Get(o, "url"), BodyOf(o)));
      }
    }

    method NoteCapabilities(line: nat, wanted: seq<string>)
      modifies this`caps
      ensures caps == Note(old(caps), wanted, line)
    {
      for i := 0 to |wanted|
        invariant caps == Note(old(caps), wanted[..i], line)
      {
        assert wanted[..i + 1][..i] == wanted[..i];
        if Find(caps, wanted[i]).None? {
          caps := caps + [(wanted[i], line)];
        }
      }
      assert wanted[..|wanted|] == wanted;
    }

    /** The cross-line part of one line: what it adds to the errors, and to what later lines are held to. */
    method TakeRow(n: nat, o: Fields, ghost s: Scan) returns (faults: seq<Fault>)
      requires Matches(s)
      modifies this
      ensures Matches(ScanContext(s, n, o))
      ensures faults == IdFaults(s, o) + ModelFaults(s, o)
    {
      var idFaults := CheckCustomId(CustomIdOf(o));
      var modelFaults := CheckModelConsistency(ModelOf(o));
      NoteRow(n, o);
      bound := true;
      resultModel := if resultModel == "" then ModelOf(o) else resultModel;
      return idFaults + modelFaults;
    }
  }

  // ---- The loop ----

  method TakeObject(log: ErrorLog, context: CrossFileContext, n: nat, o: Fields, ghost s: Scan) returns (crashed: bool)
    requires log.Holds(s.faults) && context.Matches(s) && !s.crashed
    modifies log, context
    ensures log.Holds(ScanObject(s, n, o).faults) && context.Matches(ScanObject(s, n, o))
    ensures crashed == ScanObject(s, n, o).crashed
  {
    log.AddErrors(LineFaults(o), s.faults);
    if o == map[] {
      return !context.bound;
    }
    ghost var t := s.(faults := s.faults + LineFaults(o));
    var faults := context.TakeRow(n, o, t);
    log.AddErrors(faults, t.faults);
    assert t.faults + IdFaults(t, o) + ModelFaults(t, o) == t.faults + (IdFaults(t, o) + ModelFaults(t, o));
    return false;
  }

  /** One line of the file; the results say how the loop goes on. */
  method TakeLine(log: ErrorLog, context: CrossFileContext, n: nat, line: Line, ghost s: Scan) returns (stopped: bool, crashed: bool)
    requires log.Holds(s.faults) && context.Matches(s) && !s.stopped && !s.crashed
    modifies log, context
    ensures log.Holds(ScanLine(s, n, line).faults) && context.Matches(ScanLine(s, n, line))
    ensures stopped == ScanLine(s, n, line).stopped && crashed == ScanLine(s, n, line).crashed
  {
    stopped, crashed := false, false;
    if line.Blank? {
      return;
    }
    context.total := context.total + 1;
    if context.total > MAX_LINES {
      log.AddError(Fault("too_many_requests", ""), s.faults);
      return true, false;
    }
    match line
    case Unparsable => log.AddError(Fault("invalid_json", ""), s.faults);
    case NotObject => log.AddError(Fault("not_object", ""), s.faults);
    case Object(o) => crashed := TakeObject(log, context, n, o, s.(total := s.total + 1));
  }

  /** The whole pass: nothing is returned when the code raises. */
  method ScanLines(lines: seq<Line>) returns (crashed: bool, log: ErrorLog, context: CrossFileContext)
    ensures crashed == ScanFile(lines).crashed
    ensures fresh(log) && fresh(context) && context.Matches(ScanFile(lines))
    ensures !crashed ==> log.Holds(FaultsOf(lines))
  {
    log := new ErrorLog();
    context := new CrossFileContext();
    var i, stopped := 0, false;
    crashed := false;
    while i < |lines| && !stopped && !crashed
      invariant 0 <= i <= |lines|
      invariant fresh(log) && fresh(context)
      invariant log.Holds(ScanFile(lines[..i]).faults) && context.Matches(ScanFile(lines[..i]))
      invariant stopped == ScanFile(lines[..i]).stopped && crashed == ScanFile(lines[..i]).crashed
    {
      assert lines[..i + 1][..i] == lines[..i];
      stopped, crashed := TakeLine(log, context, i + 1, lines[i], ScanFile(lines[..i]));
      i := i + 1;
    }
    EndedPassStays(lines, i);
    ghost var s := ScanFile(lines);
    assert s.faults + [] == s.faults;
    if context.total == 0 {
      log.AddError(Fault("empty_file", ""), s.faults);
    }
  }

  lemma {:induction false} EndedPassStays(lines: seq<Line>, i: nat)
    requires i <= |lines|
    requires i == |lines| || ScanFile(lines[..i]).stopped || ScanFile(lines[..i]).crashed
    ensures ScanFile(lines) == ScanFile(lines[..i])
  {
    if i == |lines| {
      assert lines[..i] == lines;
    } else {
      assert lines[..|lines| - 1][..i] == lines[..i];
      EndedPassStays(lines[..|lines| - 1], i);
    }
  }
}
