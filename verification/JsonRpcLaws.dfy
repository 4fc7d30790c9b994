/**
  What a JSON-RPC value is taken for and answered with, field by field and method by
  method, without the functions that decide it: sections 4 and 5 of the JSON-RPC 2.0
  Specification, and the names this server answers to.
 */
module JsonRpcLaws {
  import opened Wrappers
  import opened JsonRpc
  import opened ServerLoop

  /** A string, a number or null. */
  predicate IsIdValue(v: Value) { v.JString? || v.JNumber? || v.JNull? }

  predicate Says(v: Value, name: string, x: Value) { v.JObject? && name in v.fields && v.fields[name] == x }

  predicate Has(v: Value, name: string) { v.JObject? && name in v.fields }

  predicate HasIdValue(v: Value) { Has(v, "id") && IsIdValue(v.fields["id"]) }

  // --- Ids ------------------------------------------------------------------

  /** Reading an id and writing it back gives the value that was sent; different ids are different values. */
  lemma IdRoundTrip(v: Value, id: Id)
    ensures IsIdValue(v) ==> IdFromValue(v).Some? && ValueOf(IdFromValue(v).value) == v
    ensures !IsIdValue(v) ==> IdFromValue(v) == None
    ensures IsIdValue(ValueOf(id)) && IdFromValue(ValueOf(id)) == Some(id)
  {
  }

  /** The value of an optional id, as a peer sees it: no field, or the field's value. */
  predicate Carries(id: Option<Id>, v: Value) {
    if id.None? then !Has(v, "id") else Says(v, "id", ValueOf(id.value))
  }

  // --- Requests -------------------------------------------------------------

  /** Exactly which values are requests, and what is read from them. */
  lemma RequestExactly(v: Value)
    ensures var r := ParseRequest(v);
      && (r.Ok? <==>
            && v.JObject? && (Has(v, "id") ==> HasIdValue(v)) && Says(v, "jsonrpc", JString("2.0"))
            && Has(v, "method") && v.fields["method"].JString?)
      && (r.Ok? ==>
            && Carries(r.value.id, v) && v.fields["method"] == JString(r.value.name)
            && r.value.params == if Has(v, "params") then v.fields["params"] else JObject(map[]))
      && (r.Err? ==> if HasIdValue(v) then Carries(r.error, v) else r.error == None)
  {
  }

  /** Exactly which values answer a request of this side. */
  lemma ResponseExactly(v: Value)
    ensures IsResponseValue(v) <==>
            && Says(v, "jsonrpc", JString("2.0")) && !Has(v, "method") && HasIdValue(v)
            && (Has(v, "result") <==> !Has(v, "error"))
  {
  }

  /** An item is a request, a response, or invalid under the id it can be answered with. */
  lemma ItemExactly(v: Value)
    ensures match Classify(v)
      case ItemResponse => IsResponseValue(v)
      case ItemRequest(request) => !IsResponseValue(v) && ParseRequest(v) == Ok(request)
      case ItemInvalid(id) => !IsResponseValue(v) && ParseRequest(v) == Err(id)
  {
  }

  // --- Methods --------------------------------------------------------------

  predicate IsCallName(name: string) { name in ["mcp/tools/call", "tools/call", "server/tools/call"] }

  /** The reply of every method but a tool call, for a request with an id. */
  function FixedReply(name: string): Reply {
    match name
    case "ping" => Pong
    case "mcp/ping" => Pong
    case "initialize" => Capabilities
    case "mcp/initialize" => Capabilities
    case "server/initialize" => Capabilities
    case "tools/list" => ToolDefinitions
    case "mcp/tools/list" => ToolDefinitions
    case "server/tools/list" => ToolDefinitions
    case "capabilities" => ToolDefinitions
    case "mcp/capabilities" => ToolDefinitions
    case "shutdown" => ShutdownOk
    case "mcp/shutdown" => ShutdownOk
    case "server/shutdown" => ShutdownOk
    case _ => UnknownMethod(name)
  }

  /** The tool a call names: in `name`, else in `toolName`, else in the `name` of `call`; the first string counts. */
  function NamedTool(params: Value): Option<string> {
    if Has(params, "name") && params.fields["name"].JString? then Some(params.fields["name"].text)
    else if Has(params, "toolName") && params.fields["toolName"].JString? then Some(params.fields["toolName"].text)
    else if Has(params, "call") && Has(params.fields["call"], "name") && params.fields["call"].fields["name"].JString?
    then Some(params.fields["call"].fields["name"].text)
    else None
  }

  lemma ToolNamed(params: Value)
    ensures ToolName(params) == NamedTool(params)
  {
  }

  /** The reply to a tool call with an id. */
  function CallReply(params: Value, tools: set<string>): Reply {
    match NamedTool(params)
    case Some(tool) =>
      if !params.JObject? || tool == "" then InvalidParams
      else if tool in tools then ToolResult(tool)
      else UnknownTool(tool)
    case None => InvalidParams
  }

  lemma KindsOfNames(name: string)
    ensures KindFromName(name) == ToolsCall <==> IsCallName(name)
    ensures KindFromName(name) == Shutdown <==> name in ["shutdown", "mcp/shutdown", "server/shutdown"]
    ensures KindFromName(name) == CancelledNotification <==> name == "notifications/cancelled"
    ensures FixedReply(name) ==
      match KindFromName(name)
      case Ping => Pong
      case Initialize => Capabilities
      case ToolsList => ToolDefinitions
      case Shutdown => ShutdownOk
      case _ => UnknownMethod(name)
  {
  }

  /**
    Every request with an id gets the reply of its method under the very value of its
    id; one without gets none.
   */
  lemma EveryMethodAnswered(v: Value, tools: set<string>)
    requires ParseRequest(v).Ok?
    ensures var req := ParseRequest(v).value;
      AnswerTo(req, tools) ==
      if !Has(v, "id") then None
      else Some(Response(req.id, if IsCallName(req.name) then CallReply(req.params, tools) else FixedReply(req.name)))
    ensures var answer := AnswerTo(ParseRequest(v).value, tools);
      answer.Some? ==> answer.value.id.Some? && Says(v, "id", ValueOf(answer.value.id.value))
  {
    hide KindFromName, FixedReply, ToolName, NamedTool;
    var req := ParseRequest(v).value;
    RequestExactly(v);
    KindsOfNames(req.name);
    ToolNamed(req.params);
  }

  /** Only a cancellation notice has an effect besides its answer: it names the call by the value of `requestId`. */
  lemma CancellationNames(v: Value, tools: set<string>)
    requires ParseRequest(v).Ok?
    ensures var req := ParseRequest(v).value;
      var plan := PlanOf(req, tools);
      && (plan.CancelRequest? <==>
            && !Has(v, "id") && req.name == "notifications/cancelled"
            && Has(req.params, "requestId") && IsIdValue(req.params.fields["requestId"]))
      && (plan.CancelRequest? ==> Says(req.params, "requestId", ValueOf(plan.target)))
  {
    hide KindFromName, ToolName;
    RequestExactly(v);
    KindsOfNames(ParseRequest(v).value.name);
  }

  /** Exactly the shutdown methods, asked for with an id, end the reading. */
  lemma ShutdownNames(v: Value)
    requires ParseRequest(v).Ok?
    ensures RequestsShutdown(ParseRequest(v).value) <==>
            Has(v, "id") && ParseRequest(v).value.name in ["shutdown", "mcp/shutdown", "server/shutdown"]
  {
    hide KindFromName;
    RequestExactly(v);
    KindsOfNames(ParseRequest(v).value.name);
  }

  /** An item of a batch is answered under the value of its own id; an invalid one without a usable id under none. */
  lemma ItemAnsweredUnderItsId(v: Value, tools: set<string>)
    ensures var answer := ItemAnswer(Classify(v), tools);
      answer.Some? ==> if HasIdValue(v) then Carries(answer.value.id, v) else answer.value.id == None
    ensures ItemAnswer(Classify(v), tools).Some? <==>
            !IsResponseValue(v) && (ParseRequest(v).Ok? ==> Has(v, "id"))
  {
    hide KindFromName, ToolName, FixedReply, IsResponseValue;
    RequestExactly(v);
    if ParseRequest(v).Ok? { EveryMethodAnswered(v, tools); }
  }

  // --- Bodies ---------------------------------------------------------------

  /** What the loop takes a body for: `None` is a body that is no JSON. */
  function Met(body: Option<Value>): Incoming {
    match body
    case None => BadJson
    case Some(JArray(items)) =>
      if items == [] || |items| > 256 then BadRequest(None)
      else Received(Batch(seq(|items|, k requires 0 <= k < |items| => Classify(items[k]))))
    case Some(v) =>
      match Classify(v)
      case ItemResponse => Received(PeerResponse)
      case ItemRequest(request) => Received(Single(request))
      case ItemInvalid(id) => BadRequest(id)
  }

  /** Parsing a body gives what the loop takes it for. */
  method Receive(v: Value) returns (m: Incoming)
    ensures m == Met(Some(v))
  {
    hide Classify;
    var r := ParseRpcMessage(v);
    match r {
      case Ok(message) =>
        m := Received(message);
        if v.JArray? {
          assert message.items == seq(|v.items|, k requires 0 <= k < |v.items| => Classify(v.items[k]));
        }
      case Err(id) => m := BadRequest(id);
    }
  }

  /** A value is answered by itself as it is in a batch of one, and what is no message is answered without an id. */
  lemma AloneAsInBatch(v: Value, tools: set<string>)
    ensures !v.JArray? ==> Due(Met(Some(v)), tools) == Due(Met(Some(JArray([v]))), tools)
    ensures v.JArray? && (v.items == [] || |v.items| > 256) ==>
      Due(Met(Some(v)), tools) == [Tagged(0, Response(None, InvalidRequest))]
    ensures Due(Met(None), tools) == [Tagged(0, Response(None, ParseError))]
    ensures forall goesOn :: Due(FramingError(goesOn), tools) == [Tagged(0, Response(None, ParseError))]
  {
    hide Classify, AnswerTo;
    if !v.JArray? {
      var items := [Classify(v)];
      assert Met(Some(JArray([v]))) == Received(Batch(items)) by {
        assert seq(1, k requires 0 <= k < 1 => Classify([v][k])) == items;
      }
      assert items[..0] == [] && BatchAnswers(items[..0], tools) == [];
      assert BatchAnswers(items, tools) == Due(Met(Some(v)), tools);
    }
  }

  /** Which requests become tasks, run a tool, are registered as calls, stop the reading or name a call to cancel. */
  lemma RequestExactlyMet(v: Value, tools: set<string>)
    requires ParseRequest(v).Ok?
    ensures var req := ParseRequest(v).value;
      var m, call := Received(Single(req)), Has(v, "id") && IsCallName(req.name);
      && (IsTask(m) <==> Has(v, "id"))
      && CallId(m) == (if call then req.id else None)
      && (RunsTool(m, tools) <==> call && CallReply(req.params, tools).ToolResult?)
      && (StopsReading(m) <==> Has(v, "id") && req.name in ["shutdown", "mcp/shutdown", "server/shutdown"])
      && (CancelTarget(m, tools).Some? <==> PlanOf(req, tools).CancelRequest?)
      && (CancelTarget(m, tools).Some? ==> Says(req.params, "requestId", ValueOf(CancelTarget(m, tools).value)))
  {
    hide KindFromName, ToolName, NamedTool, FixedReply, IsCallName;
    var req := ParseRequest(v).value;
    RequestExactly(v);
    KindsOfNames(req.name);
    ToolNamed(req.params);
    ShutdownNames(v);
    CancellationNames(v, tools);
  }

  /**
    A batch is a task, no call, stops the reading for a shutdown among its items, and cancels
    as its items would alone.
   */
  lemma BatchExactlyMet(items: seq<BatchItem>, tools: set<string>, k: nat)
    requires k < |items|
    ensures var m := Received(Batch(items));
      IsTask(m) && CallId(m) == None && !RunsTool(m, tools) && CancelTarget(m, tools) == None
    ensures items[k].ItemRequest? ==>
      && (StopsReading(Received(Single(items[k].request))) ==> StopsReading(Received(Batch(items))))
      && ItemCancelTarget(items[k], tools) == CancelTarget(Received(Single(items[k].request)), tools)
    ensures StopsReading(Received(Batch(items))) ==>
      exists j :: 0 <= j < |items| && items[j].ItemRequest? && StopsReading(Received(Single(items[j].request)))
    ensures !items[k].ItemRequest? ==> ItemCancelTarget(items[k], tools) == None
  {
    hide PlanOf, KindFromName;
    if StopsReading(Received(Batch(items))) {
      var j :| 0 <= j < |items| && items[j].ItemRequest? && RequestsShutdown(items[j].request);
      assert StopsReading(Received(Single(items[j].request)));
    }
  }
}
