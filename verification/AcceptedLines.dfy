/**
 Which lines the validator passes (backend/services/batch_validator.py), from the parsed JSON
 alone: the shape of a request, of a chat body and of a completions body, and what a line asks for.
 */
module AcceptedLines {
  import opened Options
  import opened KeyedRows
  import opened FileValidator

  // ---- Values ----

  /** The key holds this value; a key that is absent reads as null. */
  predicate Holds(o: Fields, key: string, v: Json) {
    if key in o then o[key] == v else v == Null
  }

  /** Absent or null. */
  predicate IsUnset(o: Fields, key: string) {
    key !in o || o[key] == Null
  }

  predicate HasText(o: Fields, key: string) {
    key in o && o[key].Str? && o[key].s != ""
  }

  predicate IsFlag(o: Fields, key: string) {
    key in o && o[key].Bool?
  }

  /** A whole number from 0 to 20. */
  predicate IsUpToTwenty(o: Fields, key: string) {
    key in o && o[key].Int? && o[key].i >= 0 && o[key].i <= 20
  }

  // ---- Bodies ----

  predicate IsMessage(m: Json) {
    m.Obj? && HasText(m.fields, "role") && "content" in m.fields && m.fields["content"].Str?
  }

  predicate IsChatBody(body: Fields) {
    && "messages" in body && body["messages"].Arr? && body["messages"].items != []
    && (forall m :: m in body["messages"].items ==> IsMessage(m))
    && "echo" !in body
    && (IsUnset(body, "logprobs") || IsFlag(body, "logprobs"))
    && (IsUnset(body, "top_logprobs") || IsUpToTwenty(body, "top_logprobs"))
  }

  predicate IsPrompt(body: Fields) {
    || HasText(body, "prompt")
    || ("prompt" in body && body["prompt"].Arr? && body["prompt"].items != [] && forall p :: p in body["prompt"].items ==> p.Str?)
  }

  predicate IsCompletionsBody(body: Fields) {
    && IsPrompt(body)
    && (IsUnset(body, "logprobs") || IsFlag(body, "logprobs") || IsUpToTwenty(body, "logprobs"))
    && (IsUnset(body, "top_logprobs") || IsUpToTwenty(body, "top_logprobs"))
    && (IsUnset(body, "echo") || IsFlag(body, "echo"))
  }

  /** A request the platform takes. */
  predicate IsRequest(o: Fields) {
    && (forall key :: key in o ==> key == "custom_id" || key == "method" || key == "url" || key == "body")
    && HasText(o, "custom_id")
    && Holds(o, "method", Str("POST"))
    && "body" in o && o["body"].Obj?
    && var body := o["body"].fields;
      && "model" in body && (body["model"] == Null || body["model"].Str?)
      && (|| (Holds(o, "url", Str("/v1/chat/completions")) && IsChatBody(body))
          || (Holds(o, "url", Str("/v1/completions")) && IsCompletionsBody(body))
          || Holds(o, "url", Str("/v1/embeddings")))
  }

  // ---- The rules come to this ----

  lemma NothingBroken(a: seq<Fault>, b: seq<Fault>)
    ensures a + b == [] <==> a == [] && b == []
  {
    assert |a + b| == |a| + |b|;
  }

  lemma {:induction false} MessagesMean(messages: seq<Json>)
    ensures MessageFaults(messages) == [] <==> forall m :: m in messages ==> IsMessage(m)
  {
    if messages != [] {
      MessagesMean(messages[1..]);
      assert messages == [messages[0]] + messages[1..];
      var own := match messages[0]
                 case Obj(m) =>
                   When(!IsText(Get(m, "role")), "missing_field", "role") + When(!Get(m, "content").Str?, "missing_field", "content")
                 case _ => [Fault("invalid_type", "message")];
      NothingBroken(own, MessageFaults(messages[1..]));
      assert own == [] <==> IsMessage(messages[0]);
    }
  }

  lemma LogprobsMean(body: Fields, chat: bool)
    ensures LogprobFaults(body, chat) == [] <==>
            && (IsUnset(body, "logprobs") || IsFlag(body, "logprobs") || (!chat && IsUpToTwenty(body, "logprobs")))
            && (IsUnset(body, "top_logprobs") || IsUpToTwenty(body, "top_logprobs"))
            && (chat || IsUnset(body, "echo") || IsFlag(body, "echo"))
  {
  }

  lemma ChatMeans(body: Fields)
    ensures ChatFaults(body) == [] <==> IsChatBody(body)
  {
    LogprobsMean(body, true);
    if Get(body, "messages").Arr? {
      MessagesMean(Get(body, "messages").items);
    }
  }

  lemma CompletionsMean(body: Fields)
    ensures CompletionFaults(body) == [] <==> IsCompletionsBody(body)
  {
    LogprobsMean(body, false);
  }

  lemma SchemaMeans(o: Fields)
    ensures SchemaFaults(o) == [] <==>
            && (forall key :: key in o ==> key == "custom_id" || key == "method" || key == "url" || key == "body")
            && HasText(o, "custom_id") && Holds(o, "method", Str("POST"))
            && (Holds(o, "url", Str("/v1/chat/completions")) || Holds(o, "url", Str("/v1/completions")) || Holds(o, "url", Str("/v1/embeddings")))
            && "body" in o && o["body"].Obj?
            && "model" in o["body"].fields && (o["body"].fields["model"] == Null || o["body"].fields["model"].Str?)
  {
  }

  /** A line has no fault exactly when it is a request of one of the three kinds. */
  lemma LinesWithoutFaults(o: Fields)
    ensures LineFaults(o) == [] <==> IsRequest(o)
  {
    SchemaMeans(o);
    if "body" in o && o["body"].Obj? {
      ChatMeans(o["body"].fields);
      CompletionsMean(o["body"].fields);
    }
  }

  // ---- What a line names and asks for ----

  /** The body names this model. */
  predicate Names(o: Fields, model: string) {
    model != "" && "body" in o && o["body"].Obj? && Holds(o["body"].fields, "model", Str(model))
  }

  lemma NamedModelMeans(o: Fields, model: string)
    ensures Names(o, model) <==> model != "" && ModelOf(o) == model
  {
  }

  lemma CustomIdMeans(o: Fields, id: string)
    requires id != ""
    ensures CustomIdOf(o) == id <==> Holds(o, "custom_id", Str(id))
  {
  }

  /** Python's `1 == n`. */
  predicate IsOne(v: Json) {
    v == Int(1) || v == Float(1.0) || v == Bool(true)
  }

  predicate AsksForMore(o: Fields) {
    "body" in o && o["body"].Obj? && !IsUnset(o["body"].fields, "n") && !IsOne(o["body"].fields["n"])
  }

  lemma AskingMeans(o: Fields)
    ensures AsksForSeveral(o) <==> AsksForMore(o)
  {
  }

  /** Neither null, false, zero nor empty. */
  predicate IsOn(o: Fields, key: string) {
    key in o && o[key] !in {Null, Bool(false), Int(0), Float(0.0), Str(""), Arr([]), Obj(map[])}
  }

  /** What a line at this endpoint with this body needs of a runtime. */
  predicate Wants(url: Json, body: Fields, c: string) {
    || (c == "logprobs" && (IsOn(body, "logprobs") || ("top_logprobs" in body && body["top_logprobs"].Int? && body["top_logprobs"].i > 0)))
    || (c == "completions" && url == Str("/v1/completions"))
    || (c == "prompt_scoring" && url == Str("/v1/completions") && IsOn(body, "echo"))
  }

  function Place(c: string): nat {
    if c == "logprobs" then 0 else if c == "completions" then 1 else 2
  }

  /** Each capability wanted is listed once, in the order of the table of capabilities. */
  lemma WantedMeans(url: Json, body: Fields)
    ensures var w := WantedCapabilities(url, body);
            && (forall c :: c in w <==> Wants(url, body, c))
            && (forall i, j :: 0 <= i < j < |w| ==> Place(w[i]) < Place(w[j]))
  {
    TruthMeans(body, "logprobs");
    TruthMeans(body, "echo");
  }

  lemma TruthMeans(o: Fields, key: string)
    ensures Truthy(Get(o, key)) <==> IsOn(o, key)
  {
  }

  // ---- Which faults a line has ----

  predicate HasBody(o: Fields) {
    "body" in o && o["body"].Obj?
  }

  ghost predicate IsSchemaFault(o: Fields, f: Fault) {
    || (f == Fault("unknown_fields", "") && exists key :: key in o && key !in {"custom_id", "method", "url", "body"})
    || (f == Fault("missing_field", "custom_id") && !HasText(o, "custom_id"))
    || (f == Fault("missing_field", "method") && !HasText(o, "method"))
    || (f == Fault("invalid_method", "method") && HasText(o, "method") && o["method"].s != "POST")
    || (f == Fault("missing_field", "url") && !HasText(o, "url"))
    || (f == Fault("unsupported_endpoint", "url") && HasText(o, "url")
        && o["url"].s !in {"/v1/chat/completions", "/v1/completions", "/v1/embeddings"})
    || (f == Fault("missing_field", "body") && !HasBody(o))
    || (f == Fault("missing_field", "body.model") && HasBody(o) && "model" !in o["body"].fields)
    || (f == Fault("invalid_type", "body.model") && HasBody(o)
        && !IsUnset(o["body"].fields, "model") && !o["body"].fields["model"].Str?)
  }

  lemma WhenMeans(broken: bool, code: string, field: string, f: Fault)
    ensures f in When(broken, code, field) <==> broken && f == Fault(code, field)
  {
  }

  /** The schema rules report exactly these. */
  lemma SchemaFaultsMean(o: Fields, f: Fault)
    ensures f in SchemaFaults(o) <==> IsSchemaFault(o, f)
  {
    ExtraKeysMean(o);
  }

  lemma ExtraKeysMean(o: Fields)
    ensures o.Keys <= ALLOWED_KEYS <==> !exists key :: key in o && key !in {"custom_id", "method", "url", "body"}
  {
  }

  ghost predicate IsLogprobFault(body: Fields, chat: bool, f: Fault) {
    || (f == Fault("invalid_type", "body.logprobs")
        && !IsUnset(body, "logprobs") && !IsFlag(body, "logprobs") && (chat || !IsUpToTwenty(body, "logprobs")))
    || (f == Fault("invalid_type", "body.top_logprobs") && !IsUnset(body, "top_logprobs") && !IsUpToTwenty(body, "top_logprobs"))
    || (f == Fault("invalid_type", "body.echo") && !chat && !IsUnset(body, "echo") && !IsFlag(body, "echo"))
  }

  lemma LogprobFaultsMean(body: Fields, chat: bool, f: Fault)
    ensures f in LogprobFaults(body, chat) <==> IsLogprobFault(body, chat, f)
  {
  }

  ghost predicate IsMessageFault(messages: seq<Json>, f: Fault) {
    || (f == Fault("invalid_type", "message") && exists m :: m in messages && !m.Obj?)
    || (f == Fault("missing_field", "role") && exists m :: m in messages && m.Obj? && !HasText(m.fields, "role"))
    || (f == Fault("missing_field", "content")
        && exists m :: m in messages && m.Obj? && !("content" in m.fields && m.fields["content"].Str?))
  }

  lemma {:induction false} MessageFaultsMean(messages: seq<Json>, f: Fault)
    ensures f in MessageFaults(messages) <==> IsMessageFault(messages, f)
  {
    if messages != [] {
      MessageFaultsMean(messages[1..], f);
      assert messages == [messages[0]] + messages[1..];
      FirstMessage(messages[0], messages[1..], f);
    }
  }

  lemma FirstMessage(m: Json, rest: seq<Json>, f: Fault)
    ensures IsMessageFault([m] + rest, f) <==> IsMessageFault([m], f) || IsMessageFault(rest, f)
    ensures IsMessageFault([m], f) <==>
            match m
            case Obj(fields) =>
              || (f == Fault("missing_field", "role") && !IsText(Get(fields, "role")))
              || (f == Fault("missing_field", "content") && !Get(fields, "content").Str?)
            case _ => f == Fault("invalid_type", "message")
  {
    assert (forall x :: x in [m] + rest <==> x == m || x in rest) && forall x :: x in [m] <==> x == m;
    assert m in [m];
  }

  ghost predicate IsChatFault(body: Fields, f: Fault) {
    || (if "messages" in body && body["messages"].Arr? && body["messages"].items != [] then IsMessageFault(body["messages"].items, f)
        else f == Fault("invalid_type", "body.messages"))
    || (f == Fault("unsupported_parameter", "body.echo") && "echo" in body)
    || IsLogprobFault(body, true, f)
  }

  ghost predicate IsCompletionFault(body: Fields, f: Fault) {
    (f == Fault("invalid_type", "body.prompt") && !IsPrompt(body)) || IsLogprobFault(body, false, f)
  }

  /** A line's faults: the schema's, and only when there is none the endpoint's. */
  ghost predicate IsLineFault(o: Fields, f: Fault) {
    if exists g :: IsSchemaFault(o, g) then IsSchemaFault(o, f)
    else if HasBody(o) && Holds(o, "url", Str("/v1/chat/completions")) then IsChatFault(o["body"].fields, f)
    else if HasBody(o) && Holds(o, "url", Str("/v1/completions")) then IsCompletionFault(o["body"].fields, f)
    else false
  }

  lemma ChatFaultsMean(body: Fields, f: Fault)
    ensures f in ChatFaults(body) <==> IsChatFault(body, f)
  {
    LogprobFaultsMean(body, true, f);
    if Get(body, "messages").Arr? {
      MessageFaultsMean(Get(body, "messages").items, f);
    }
  }

  lemma CompletionFaultsMean(body: Fields, f: Fault)
    ensures f in CompletionFaults(body) <==> IsCompletionFault(body, f)
  {
    LogprobFaultsMean(body, false, f);
  }

  lemma SchemaHolds(o: Fields)
    ensures SchemaFaults(o) == [] <==> !exists g :: IsSchemaFault(o, g)
  {
    if SchemaFaults(o) != [] {
      SchemaFaultsMean(o, SchemaFaults(o)[0]);
    }
    if g :| IsSchemaFault(o, g) {
      SchemaFaultsMean(o, g);
    }
  }

  lemma EndpointFaultsMean(o: Fields, f: Fault)
    ensures f in EndpointFaults(o) <==>
            && HasBody(o)
            && if Holds(o, "url", Str("/v1/chat/completions")) then IsChatFault(o["body"].fields, f)
               else Holds(o, "url", Str("/v1/completions")) && IsCompletionFault(o["body"].fields, f)
  {
    if HasBody(o) {
      ChatFaultsMean(o["body"].fields, f);
      CompletionFaultsMean(o["body"].fields, f);
    }
  }

  /** The validator reports exactly these faults of a line. */
  lemma LineFaultsMean(o: Fields, f: Fault)
    ensures f in LineFaults(o) <==> IsLineFault(o, f)
  {
    SchemaHolds(o);
    SchemaFaultsMean(o, f);
    EndpointFaultsMean(o, f);
  }
}
