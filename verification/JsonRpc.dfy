/**
  Classifying a JSON-RPC message and deciding what each request is answered
  with. JSON values are taken as already parsed; a tool is its name, and its
  result is not looked into.
 */
module JsonRpc {
  import opened Wrappers

  const MAX_JSONRPC_BATCH_ITEMS := 256

  datatype Value =
    | JNull | JBool(b: bool) | JNumber(text: string) | JString(text: string)
    | JArray(items: seq<Value>) | JObject(fields: map<string, Value>)

  datatype Id = StringId(text: string) | NumberId(text: string) | NullId

  /** The value an id was read from, which is what goes back to the peer. */
  function ValueOf(id: Id): Value {
    match id
    case StringId(text) => JString(text)
    case NumberId(text) => JNumber(text)
    case NullId => JNull
  }

  function IdFromValue(v: Value): (id: Option<Id>)
    ensures id.Some? <==> v.JString? || v.JNumber? || v.JNull?
    ensures id.Some? ==> ValueOf(id.value) == v
  {
    match v
    case JString(text) => Some(StringId(text))
    case JNumber(text) => Some(NumberId(text))
    case JNull => Some(NullId)
    case _ => None
  }

  function Field(v: Value, name: string): Option<Value> {
    if v.JObject? && name in v.fields then Some(v.fields[name]) else None
  }

  datatype MethodKind =
    | Ping | Initialize | ToolsList | ToolsCall | Shutdown
    | InitializedNotification | CancelledNotification | Unknown

  function KindFromName(name: string): MethodKind {
    if name in ["ping", "mcp/ping"] then Ping
    else if name in ["mcp/initialize", "initialize", "server/initialize"] then Initialize
    else if name in ["mcp/tools/list", "tools/list", "server/tools/list", "mcp/capabilities", "capabilities"]
      then ToolsList
    else if name in ["mcp/tools/call", "tools/call", "server/tools/call"] then ToolsCall
    else if name in ["mcp/shutdown", "shutdown", "server/shutdown"] then Shutdown
    else if name in ["notifications/initialized", "initialized"] then InitializedNotification
    else if name == "notifications/cancelled" then CancelledNotification
    else Unknown
  }

  /** A request without an id is a notification; the id `null` is an id. */
  datatype Request = Request(id: Option<Id>, name: string, params: Value) {
    predicate IsNotification() { id.None? }

    function Kind(): MethodKind { KindFromName(name) }
  }

  datatype BatchItem = ItemRequest(request: Request) | ItemResponse | ItemInvalid(id: Option<Id>)

  datatype Message = Single(request: Request) | PeerResponse | Batch(items: seq<BatchItem>)

  predicate IsVersion2(v: Value) { Field(v, "jsonrpc") == Some(JString("2.0")) }

  predicate IsResponseValue(v: Value) {
    && IsVersion2(v) && Field(v, "method").None?
    && (Field(v, "result").Some? != Field(v, "error").Some?)
    && Field(v, "id").Some? && IdFromValue(Field(v, "id").value).Some?
  }

  /** The request an object states, or the id an error about it can name. */
  function ParseRequest(v: Value): (r: Result<Request, Option<Id>>)
    ensures r.Ok? ==> (r.value.id.None? <==> Field(v, "id").None?)
    ensures r.Ok? && r.value.id.Some? ==> Field(v, "id") == Some(ValueOf(r.value.id.value))
    ensures r.Err? && r.error.Some? ==> Field(v, "id") == Some(ValueOf(r.error.value))
    ensures r.Ok? ==> v.JObject? && Some(JString(r.value.name)) == Field(v, "method") && !IsResponseValue(v)
  {
    if !v.JObject? then Err(None)
    else
      var rawId := Field(v, "id");
      if rawId.Some? && IdFromValue(rawId.value).None? then Err(None)
      else
        var id := if rawId.Some? then IdFromValue(rawId.value) else None;
        if !IsVersion2(v) then Err(id)
        else
          match Field(v, "method")
          case Some(JString(name)) =>
            Ok(Request(id, name, if Field(v, "params").Some? then Field(v, "params").value else JObject(map[])))
          case _ => Err(id)
  }

  function Classify(v: Value): BatchItem {
    if IsResponseValue(v) then ItemResponse
    else
      match ParseRequest(v)
      case Ok(request) => ItemRequest(request)
      case Err(id) => ItemInvalid(id)
  }

  /** One message, or the id of the Invalid Request error that answers it. */
  method ParseRpcMessage(v: Value) returns (r: Result<Message, Option<Id>>)
    ensures v.JArray? && (v.items == [] || |v.items| > 256) <==> v.JArray? && r == Err(None)
    ensures v.JArray? && r.Err? ==> r == Err(None)
    ensures v.JArray? && r.Ok? ==>
      r.value.Batch? && |r.value.items| == |v.items|
      && forall k :: 0 <= k < |v.items| ==> r.value.items[k] == Classify(v.items[k])
    ensures !v.JArray? ==>
      match Classify(v)
      case ItemResponse => r == Ok(PeerResponse)
      case ItemRequest(request) => r == Ok(Single(request))
      case ItemInvalid(id) => r == Err(id)
  {
    if v.JArray? {
      if v.items == [] { return Err(None); }
      if |v.items| > MAX_JSONRPC_BATCH_ITEMS { return Err(None); }
      var batch := [];
      for i := 0 to |v.items|
        invariant |batch| == i && forall k :: 0 <= k < i ==> batch[k] == Classify(v.items[k])
      {
        if IsResponseValue(v.items[i]) {
          batch := batch + [ItemResponse];
          continue;
        }
        match ParseRequest(v.items[i]) {
          case Ok(request) => batch := batch + [ItemRequest(request)];
          case Err(id) => batch := batch + [ItemInvalid(id)];
        }
      }
      return Ok(Batch(batch));
    }
    if IsResponseValue(v) { return Ok(PeerResponse); }
    match ParseRequest(v) {
      case Ok(request) => r := Ok(Single(request));
      case Err(id) => r := Err(id);
    }
  }

  // --- Answers --------------------------------------------------------------

  datatype Reply =
    | Pong | Capabilities | ToolDefinitions | ShutdownOk | ToolResult(tool: string)
    | InvalidParams | UnknownTool(tool: string) | UnknownMethod(name: string)
    | InvalidRequest | ParseError

  datatype Response = Response(id: Option<Id>, reply: Reply)

  function AsString(v: Option<Value>): Option<string> {
    if v.Some? && v.value.JString? then Some(v.value.text) else None
  }

  function OrElse<T>(a: Option<T>, b: Option<T>): Option<T> { if a.Some? then a else b }

  /** The first name given, whether or not it is empty. */
  function ToolName(params: Value): Option<string> {
    var call := Field(params, "call");
    OrElse(AsString(Field(params, "name")),
           OrElse(AsString(Field(params, "toolName")),
                  AsString(if call.Some? then Field(call.value, "name") else None)))
  }

  function CancelledRequestId(params: Value): Option<Id> {
    if Field(params, "requestId").Some? then IdFromValue(Field(params, "requestId").value) else None
  }

  /** What dispatching one request comes to, before any tool has run. */
  datatype Plan =
    | Ignore
    | CancelRequest(target: Id)
    | Answer(reply: Reply, shouldExit: bool)
    | RunTool(tool: string)

  function PlanOf(req: Request, tools: set<string>): Plan {
    if req.IsNotification() then
      if req.Kind() == CancelledNotification && CancelledRequestId(req.params).Some?
      then CancelRequest(CancelledRequestId(req.params).value)
      else Ignore
    else
      match req.Kind()
      case Ping => Answer(Pong, false)
      case Initialize => Answer(Capabilities, false)
      case ToolsList => Answer(ToolDefinitions, false)
      case ToolsCall =>
        var name := ToolName(req.params);
        if !req.params.JObject? || name.None? || name.value == "" then Answer(InvalidParams, false)
        else if name.value !in tools then Answer(UnknownTool(name.value), false)
        else RunTool(name.value)
      case Shutdown => Answer(ShutdownOk, true)
      case _ => Answer(UnknownMethod(req.name), false)
  }

  /** The one response a request is due; none for a notification. */
  function AnswerTo(req: Request, tools: set<string>): Option<Response> {
    match PlanOf(req, tools)
    case Ignore => None
    case CancelRequest(_) => None
    case Answer(reply, _) => Some(Response(req.id, reply))
    case RunTool(tool) => Some(Response(req.id, ToolResult(tool)))
  }

  /** A response and the position of the item it answers. */
  datatype Tagged = Tagged(item: nat, response: Response)

  function ItemAnswer(item: BatchItem, tools: set<string>): Option<Response> {
    match item
    case ItemRequest(req) => AnswerTo(req, tools)
    case ItemResponse => None
    case ItemInvalid(id) => Some(Response(id, InvalidRequest))
  }

  function BatchAnswers(items: seq<BatchItem>, tools: set<string>): seq<Tagged> {
    if items == [] then []
    else
      var n := |items| - 1;
      var answer := ItemAnswer(items[n], tools);
      BatchAnswers(items[..n], tools) + if answer.Some? then [Tagged(n, answer.value)] else []
  }

  predicate RequestsShutdown(req: Request) { !req.IsNotification() && req.Kind() == Shutdown }

  predicate BatchRequestsShutdown(items: seq<BatchItem>) {
    exists k :: 0 <= k < |items| && items[k].ItemRequest? && RequestsShutdown(items[k].request)
  }

  function AnswerCount(answers: seq<Tagged>, item: nat): nat {
    if answers == [] then 0
    else AnswerCount(answers[..|answers| - 1], item) + if answers[|answers| - 1].item == item then 1 else 0
  }

  lemma {:induction false} AnswersAreEarlier(items: seq<BatchItem>, tools: set<string>)
    ensures forall a :: a in BatchAnswers(items, tools) ==> a.item < |items|
  {
    if items != [] { AnswersAreEarlier(items[..|items| - 1], tools); }
  }

  lemma {:induction false} CountAbsent(answers: seq<Tagged>, item: nat)
    requires forall a :: a in answers ==> a.item != item
    ensures AnswerCount(answers, item) == 0
  {
    if answers != [] { CountAbsent(answers[..|answers| - 1], item); }
  }

  /**
    Section 6 of the JSON-RPC 2.0 Specification: each item is answered once when an answer is
    due, and else not at all.
   */
  lemma {:induction false} BatchAnswersOnce(items: seq<BatchItem>, tools: set<string>, i: nat)
    requires i < |items|
    ensures AnswerCount(BatchAnswers(items, tools), i) == if ItemAnswer(items[i], tools).Some? then 1 else 0
    ensures ItemAnswer(items[i], tools).Some? ==>
      Tagged(i, ItemAnswer(items[i], tools).value) in BatchAnswers(items, tools)
  {
    hide ItemAnswer;
    var n := |items| - 1;
    var front, answer := BatchAnswers(items[..n], tools), ItemAnswer(items[n], tools);
    AnswersAreEarlier(items[..n], tools);
    assert answer.Some? ==> (front + [Tagged(n, answer.value)])[..|front|] == front;
    assert front + [] == front;
    if i < n {
      BatchAnswersOnce(items[..n], tools, i);
    } else {
      CountAbsent(front, n);
    }
  }

  // --- The in-flight registry -----------------------------------------------

  /** The tokens cancelled after a request to cancel `id`. */
  function CancelIn(inflight: map<Id, nat>, cancelled: set<nat>, id: Id): set<nat> {
    if id in inflight then cancelled + {inflight[id]} else cancelled
  }

  /** The tokens of the tool calls in flight. A token is known by a number; `cancelled` are those cancelled so far. */
  class InflightRegistry {
    var inner: map<Id, nat>
    var cancelled: set<nat>

    constructor ()
      ensures inner == map[] && cancelled == {}
    {
      inner, cancelled := map[], {};
    }

    method Register(id: Id, token: nat)
      modifies this`inner
      ensures inner == old(inner)[id := token]
    {
      inner := inner[id := token];
    }

    /** Cancels the token registered under the id, if there is one. */
    method Cancel(id: Id) returns (found: bool)
      modifies this`cancelled
      ensures found <==> id in inner
      ensures cancelled == CancelIn(inner, old(cancelled), id)
    {
      found := id in inner;
      if found { cancelled := cancelled + {inner[id]}; }
    }

    method Remove(id: Id)
      modifies this`inner
      ensures inner == old(inner) - {id}
    {
      inner := inner - {id};
    }
  }

  /** The tokens cancelled by the items of a batch, in order. */
  function BatchCancels(items: seq<BatchItem>, tools: set<string>, inflight: map<Id, nat>,
                        cancelled: set<nat>): set<nat> {
    if items == [] then cancelled
    else
      var before, last := BatchCancels(items[..|items| - 1], tools, inflight, cancelled), items[|items| - 1];
      if last.ItemRequest? && PlanOf(last.request, tools).CancelRequest?
      then CancelIn(inflight, before, PlanOf(last.request, tools).target) else before
  }

  /** The tool ran under a token that was cancelled before it finished; `cancelled` are the tokens cancelled by then. */
  predicate Withdrawn(req: Request, tools: set<string>, token: Option<nat>, cancelled: set<nat>) {
    PlanOf(req, tools).RunTool? && token.Some? && token.value in cancelled
  }

  /**
    One request, under a token of its own when it came alone; `byThen` are the tokens cancelled
    once a tool has finished.
   */
  method DispatchJsonrpcRequest(req: Request, tools: set<string>, inflight: InflightRegistry, token: Option<nat>,
                                byThen: set<nat>)
    returns (r: Option<(Response, bool)>)
    modifies inflight`cancelled
    ensures r.Some? <==> AnswerTo(req, tools).Some? && !Withdrawn(req, tools, token, byThen)
    ensures r.Some? ==> r.value == (AnswerTo(req, tools).value, RequestsShutdown(req))
    ensures inflight.cancelled == BatchCancels([ItemRequest(req)], tools, inflight.inner, old(inflight.cancelled))
  {
    assert [ItemRequest(req)][..0] == [];
    match PlanOf(req, tools) {
      case Ignore => return None;
      case CancelRequest(target) =>
        var _ := inflight.Cancel(target);
        return None;
      case Answer(reply, shouldExit) => r := Some((Response(req.id, reply), shouldExit));
      case RunTool(tool) =>
        if token.Some? && token.value in byThen { return None; }
        r := Some((Response(req.id, ToolResult(tool)), false));
    }
  }

  /** The items of a batch one after another; nothing at all when nothing is due. */
  method DispatchJsonrpcBatch(items: seq<BatchItem>, tools: set<string>, inflight: InflightRegistry)
    returns (r: Option<(seq<Tagged>, bool)>)
    modifies inflight`cancelled
    ensures r == if BatchAnswers(items, tools) == [] then None
            else Some((BatchAnswers(items, tools), BatchRequestsShutdown(items)))
    ensures inflight.cancelled == BatchCancels(items, tools, inflight.inner, old(inflight.cancelled))
  {
    hide PlanOf, AnswerTo;
    var responses: seq<Tagged>, shouldExit := [], false;
    for i := 0 to |items|
      invariant responses == BatchAnswers(items[..i], tools)
      invariant shouldExit <==> BatchRequestsShutdown(items[..i])
      invariant inflight.cancelled == BatchCancels(items[..i], tools, inflight.inner, old(inflight.cancelled))
    {
      assert items[..i + 1][..i] == items[..i];
      ShutdownStep(items, i);
      match items[i] {
        case ItemRequest(req) =>
          assert [ItemRequest(req)][..0] == [];
          var answer := DispatchJsonrpcRequest(req, tools, inflight, None, {});
          ShutdownIsAnswered(req, tools);
          if answer.Some? {
            responses := responses + [Tagged(i, answer.value.0)];
            shouldExit := shouldExit || answer.value.1;
          }
        case ItemResponse =>
        case ItemInvalid(id) => responses := responses + [Tagged(i, Response(id, InvalidRequest))];
      }
    }
    assert items[..|items|] == items;
    if responses == [] { NoAnswersNoShutdown(items, tools); return None; }
    r := Some((responses, shouldExit));
  }

  lemma ShutdownStep(items: seq<BatchItem>, i: nat)
    requires i < |items|
    ensures BatchRequestsShutdown(items[..i + 1]) <==>
            BatchRequestsShutdown(items[..i]) || (items[i].ItemRequest? && RequestsShutdown(items[i].request))
  {
    assert items[..i + 1] == items[..i] + [items[i]];
    if BatchRequestsShutdown(items[..i]) {
      var k :| 0 <= k < i && items[..i][k].ItemRequest? && RequestsShutdown(items[..i][k].request);
      assert items[..i + 1][k] == items[..i][k];
    }
    if items[i].ItemRequest? && RequestsShutdown(items[i].request) { assert items[..i + 1][i] == items[i]; }
  }

  lemma ShutdownIsAnswered(req: Request, tools: set<string>)
    ensures RequestsShutdown(req) ==> AnswerTo(req, tools).Some?
    ensures req.IsNotification() <==> AnswerTo(req, tools).None?
  {
  }

  lemma NoAnswersNoShutdown(items: seq<BatchItem>, tools: set<string>)
    requires BatchAnswers(items, tools) == []
    ensures !BatchRequestsShutdown(items)
  {
    if BatchRequestsShutdown(items) {
      var k :| 0 <= k < |items| && items[k].ItemRequest? && RequestsShutdown(items[k].request);
      BatchAnswersOnce(items, tools, k);
      ShutdownIsAnswered(items[k].request, tools);
    }
  }
}
