/**
  The server loop as interleaved steps: a reader, one task per request or batch,
  a shared writer, a control channel, and the in-flight map through which a
  cancellation finds the token of a call. Reading a message, running a tool and
  writing a response are atomic steps; any order of them is a run.
 */
module ServerLoop {
  import opened Wrappers
  import opened JsonRpc

  /** What the reader meets, one after another. A framing error may or may not leave the stream readable. */
  datatype Incoming =
    | Received(message: Message)
    | BadJson
    | BadRequest(id: Option<Id>)
    | FramingError(shouldContinue: bool)

  /** How far the handling of a message has come. `Written` holds until the guard is dropped. */
  datatype Stage =
    | Spawned
    | Executing
    | Batching(next: nat, acc: seq<Tagged>)
    | Ready(answers: seq<Tagged>)
    | Written(ok: bool)

  datatype Fate =
    | Quiet
    | Answered
    | Withdrawn
    | Lost
    | Aborted(written: bool)

  datatype Slot = Live(stage: Stage) | Ended(fate: Fate)

  datatype Control = GracefulShutdown | AbortPendingTasks

  datatype Phase = Reading | Draining | Done

  datatype Write = Write(message: nat, answers: seq<Tagged>)

  /** `slots` has one entry for each message read so far; a call's token is the number of its message. */
  datatype State = State(
    phase: Phase, slots: seq<Slot>, inflight: map<Id, nat>, cancelled: set<nat>, output: seq<Write>,
    control: seq<Control>, abortRequested: bool, abortPending: bool, aborting: bool)

  const START := State(Reading, [], map[], {}, [], [], false, false, false)

  // --- Messages -------------------------------------------------------------

  /** All the answers a message is due. */
  function Due(m: Incoming, tools: set<string>): seq<Tagged> {
    match m
    case Received(Single(req)) => if AnswerTo(req, tools).Some? then [Tagged(0, AnswerTo(req, tools).value)] else []
    case Received(PeerResponse) => []
    case Received(Batch(items)) => BatchAnswers(items, tools)
    case BadJson => [Tagged(0, Response(None, ParseError))]
    case BadRequest(id) => [Tagged(0, Response(id, InvalidRequest))]
    case FramingError(_) => [Tagged(0, Response(None, ParseError))]
  }

  predicate IsError(m: Incoming) { m.BadJson? || m.BadRequest? || m.FramingError? }

  /** A message handled by a task of its own. */
  predicate IsTask(m: Incoming) {
    m.Received? && (m.message.Batch? || (m.message.Single? && !m.message.request.IsNotification()))
  }

  /** The id a single tool call is registered under. */
  function CallId(m: Incoming): Option<Id> {
    if IsTask(m) && m.message.Single? && m.message.request.Kind() == ToolsCall then m.message.request.id else None
  }

  predicate RunsTool(m: Incoming, tools: set<string>) {
    IsTask(m) && m.message.Single? && PlanOf(m.message.request, tools).RunTool?
  }

  predicate StopsReading(m: Incoming) {
    match m
    case Received(Single(req)) => RequestsShutdown(req)
    case Received(Batch(items)) => BatchRequestsShutdown(items)
    case _ => false
  }

  /** The id a single notification asks to cancel. */
  function CancelTarget(m: Incoming, tools: set<string>): Option<Id> {
    if m.Received? && m.message.Single? && PlanOf(m.message.request, tools).CancelRequest?
    then Some(PlanOf(m.message.request, tools).target) else None
  }

  function ItemCancelTarget(item: BatchItem, tools: set<string>): Option<Id> {
    if item.ItemRequest? && PlanOf(item.request, tools).CancelRequest?
    then Some(PlanOf(item.request, tools).target) else None
  }

  // --- Steps ----------------------------------------------------------------

  datatype Step =
    | Read | ReadAndFailToAnswer | ReadEof | TakeControl
    | Dispatch(t: nat) | FinishTool(t: nat) | NextItem(t: nat) | FinishBatch(t: nat)
    | WriteAnswers(t: nat) | FailToWrite(t: nat) | EndTask(t: nat)
    | NoticeAbort | Abort(t: nat) | FinishDrain

  predicate IsLive(s: State, t: nat) { t < |s.slots| && s.slots[t].Live? }

  predicate At(s: State, t: nat, stage: Stage) { IsLive(s, t) && s.slots[t].stage == stage }

  predicate Enabled(s: State, input: seq<Incoming>, step: Step) {
    match step
    case Read => s.phase == Reading && s.control == [] && |s.slots| < |input|
    case ReadAndFailToAnswer =>
      s.phase == Reading && s.control == [] && |s.slots| < |input| && IsError(input[|s.slots|])
    case ReadEof => s.phase == Reading && s.control == [] && |s.slots| == |input|
    case TakeControl => s.phase == Reading && s.control != []
    case Dispatch(t) => At(s, t, Spawned) && t < |input| && IsTask(input[t]) && input[t].message.Single?
    case FinishTool(t) => At(s, t, Executing) && t < |input| && IsTask(input[t]) && input[t].message.Single?
    case NextItem(t) =>
      && IsLive(s, t) && s.slots[t].stage.Batching? && t < |input| && IsTask(input[t]) && input[t].message.Batch?
      && s.slots[t].stage.next < |input[t].message.items|
    case FinishBatch(t) =>
      && IsLive(s, t) && s.slots[t].stage.Batching? && t < |input| && IsTask(input[t]) && input[t].message.Batch?
      && s.slots[t].stage.next == |input[t].message.items|
    case WriteAnswers(t) => IsLive(s, t) && s.slots[t].stage.Ready?
    case FailToWrite(t) => IsLive(s, t) && s.slots[t].stage.Ready?
    case EndTask(t) => IsLive(s, t) && s.slots[t].stage.Written? && t < |input|
    case NoticeAbort => s.phase == Draining && s.abortRequested && !s.aborting
    case Abort(t) => s.aborting && IsLive(s, t) && t < |input|
    case FinishDrain => s.phase == Draining && forall t :: 0 <= t < |s.slots| ==> s.slots[t].Ended?
  }

  /** Leaves the read loop; pending tasks are aborted at once when an abort is already known. */
  function StopReading(s: State): State {
    s.(phase := Draining, aborting := s.abortPending || s.abortRequested)
  }

  function SetSlot(s: State, t: nat, slot: Slot): State
    requires t < |s.slots|
  {
    s.(slots := s.slots[t := slot])
  }

  /** A task ends and drops its guard: the id it was registered under goes, whoever holds it. */
  function Close(s: State, m: Incoming, t: nat, fate: Fate): State
    requires t < |s.slots|
  {
    var ended := SetSlot(s, t, Ended(fate));
    if CallId(m).Some? then ended.(inflight := s.inflight - {CallId(m).value}) else ended
  }

  function ReadNotification(s: State, m: Incoming, tools: set<string>): State {
    var heard := s.(slots := s.slots + [Ended(Quiet)]);
    if CancelTarget(m, tools).Some?
    then heard.(cancelled := CancelIn(s.inflight, s.cancelled, CancelTarget(m, tools).value)) else heard
  }

  /** Spawns a request or a batch; a call is registered before it runs. */
  function ReadTask(s: State, m: Incoming, stage: Stage): State {
    var spawned := s.(slots := s.slots + [Live(stage)],
                      inflight := if CallId(m).Some? then s.inflight[CallId(m).value := |s.slots|] else s.inflight);
    if StopsReading(m) then StopReading(spawned) else spawned
  }

  /** Answers what could not be read at once, outside any task. */
  function ReadError(s: State, m: Incoming, tools: set<string>): State {
    var told := s.(slots := s.slots + [Ended(Answered)], output := s.output + [Write(|s.slots|, Due(m, tools))]);
    if m.FramingError? && !m.shouldContinue then StopReading(told.(abortPending := true)) else told
  }

  function AfterRead(s: State, m: Incoming, tools: set<string>): State {
    match m
    case Received(Single(req)) =>
      if req.IsNotification() then ReadNotification(s, m, tools) else ReadTask(s, m, Spawned)
    case Received(PeerResponse) => s.(slots := s.slots + [Ended(Quiet)])
    case Received(Batch(_)) => ReadTask(s, m, Batching(0, []))
    case _ => ReadError(s, m, tools)
  }

  function DispatchStep(s: State, m: Incoming, tools: set<string>, t: nat): State
    requires t < |s.slots|
  {
    SetSlot(s, t, Live(if RunsTool(m, tools) then Executing else Ready(Due(m, tools))))
  }

  /** The token decides, once the tool has finished, whether there is a response. */
  function FinishToolStep(s: State, m: Incoming, tools: set<string>, t: nat): State
    requires t < |s.slots|
  {
    if t in s.cancelled then Close(s, m, t, Withdrawn) else SetSlot(s, t, Live(Ready(Due(m, tools))))
  }

  function NextItemStep(s: State, item: BatchItem, tools: set<string>, t: nat): State
    requires t < |s.slots| && s.slots[t].Live? && s.slots[t].stage.Batching?
  {
    var k, acc, answer := s.slots[t].stage.next, s.slots[t].stage.acc, ItemAnswer(item, tools);
    var target := ItemCancelTarget(item, tools);
    SetSlot(s, t, Live(Batching(k + 1, acc + if answer.Some? then [Tagged(k, answer.value)] else [])))
    .(cancelled := if target.Some? then CancelIn(s.inflight, s.cancelled, target.value) else s.cancelled)
  }

  function FinishBatchStep(s: State, t: nat): State
    requires t < |s.slots| && s.slots[t].Live? && s.slots[t].stage.Batching?
  {
    SetSlot(s, t, if s.slots[t].stage.acc == [] then Ended(Quiet) else Live(Ready(s.slots[t].stage.acc)))
  }

  function WriteStep(s: State, t: nat): State
    requires t < |s.slots| && s.slots[t].Live? && s.slots[t].stage.Ready?
  {
    SetSlot(s, t, Live(Written(true))).(output := s.output + [Write(t, s.slots[t].stage.answers)])
  }

  function FailStep(s: State, t: nat): State
    requires t < |s.slots|
  {
    SetSlot(s, t, Live(Written(false))).(abortRequested := true, control := s.control + [AbortPendingTasks])
  }

  function EndStep(s: State, m: Incoming, t: nat): State
    requires t < |s.slots| && s.slots[t].Live? && s.slots[t].stage.Written?
  {
    var ok := s.slots[t].stage.ok;
    Close(s, m, t, if ok then Answered else Lost)
    .(control := s.control + if ok && StopsReading(m) then [GracefulShutdown] else [])
  }

  function AbortStep(s: State, m: Incoming, t: nat): State
    requires t < |s.slots|
  {
    Close(s, m, t, Aborted(s.slots[t] == Live(Written(true))))
  }

  function ControlStep(s: State): State
    requires s.control != []
  {
    StopReading(s.(control := s.control[1..], abortPending := s.abortPending || s.control[0] == AbortPendingTasks))
  }

  function FailToAnswerStep(s: State): State {
    StopReading(s.(slots := s.slots + [Ended(Lost)], abortPending := true))
  }

  function Apply(s: State, input: seq<Incoming>, tools: set<string>, step: Step): State
    requires Enabled(s, input, step)
  {
    match step
    case Read => AfterRead(s, input[|s.slots|], tools)
    case ReadAndFailToAnswer => FailToAnswerStep(s)
    case ReadEof => StopReading(s)
    case TakeControl => ControlStep(s)
    case Dispatch(t) => DispatchStep(s, input[t], tools, t)
    case FinishTool(t) => FinishToolStep(s, input[t], tools, t)
    case NextItem(t) => NextItemStep(s, input[t].message.items[s.slots[t].stage.next], tools, t)
    case FinishBatch(t) => FinishBatchStep(s, t)
    case WriteAnswers(t) => WriteStep(s, t)
    case FailToWrite(t) => FailStep(s, t)
    case EndTask(t) => EndStep(s, input[t], t)
    case NoticeAbort => s.(aborting := true)
    case Abort(t) => AbortStep(s, input[t], t)
    case FinishDrain => s.(phase := Done)
  }

  ghost predicate Next(s: State, u: State, input: seq<Incoming>, tools: set<string>) {
    exists step: Step :: Enabled(s, input, step) && u == Apply(s, input, tools, step)
  }

  /** A run of the server on some input. */
  ghost predicate Run(r: seq<State>, input: seq<Incoming>, tools: set<string>) {
    && r != [] && r[0] == START
    && forall i :: 0 <= i < |r| - 1 ==> Next(r[i], r[i + 1], input, tools)
  }

  // --- Every request is answered once ---------------------------------------

  function WriteCount(output: seq<Write>, m: nat): nat {
    if output == [] then 0
    else WriteCount(output[..|output| - 1], m) + if output[|output| - 1].message == m then 1 else 0
  }

  /** How often a message in this slot has been written for. */
  function WritesDue(slot: Slot): nat {
    match slot
    case Live(stage) => if stage == Written(true) then 1 else 0
    case Ended(fate) => if fate == Answered || fate == Aborted(true) then 1 else 0
  }

  /** The slot of a message of this kind, and what the flags must show. */
  ghost predicate SlotFits(s: State, m: Incoming, t: nat, tools: set<string>)
    requires t < |s.slots|
  {
    match s.slots[t]
    case Live(Spawned) => IsTask(m) && m.message.Single?
    case Live(Executing) => RunsTool(m, tools)
    case Live(Batching(k, acc)) =>
      IsTask(m) && m.message.Batch? && k <= |m.message.items| && acc == BatchAnswers(m.message.items[..k], tools)
    case Live(Ready(answers)) => IsTask(m) && answers == Due(m, tools) && answers != []
    case Live(Written(ok)) => IsTask(m) && Due(m, tools) != [] && (!ok ==> s.abortRequested)
    case Ended(Quiet) => Due(m, tools) == [] && CallId(m).None?
    case Ended(Answered) => Due(m, tools) != []
    case Ended(Withdrawn) => RunsTool(m, tools) && t in s.cancelled
    case Ended(Lost) => s.abortRequested || s.abortPending
    case Ended(Aborted(written)) => s.aborting && (written ==> Due(m, tools) != [])
  }

  ghost predicate MessageFits(s: State, input: seq<Incoming>, tools: set<string>, t: nat) {
    && (t < |s.slots| ==> t < |input| && SlotFits(s, input[t], t, tools))
    && WriteCount(s.output, t) == if t < |s.slots| then WritesDue(s.slots[t]) else 0
  }

  ghost predicate Inv(s: State, input: seq<Incoming>, tools: set<string>) {
    && |s.slots| <= |input|
    && (s.aborting ==> s.abortRequested || s.abortPending)
    && (s.phase == Done ==> forall t :: 0 <= t < |s.slots| ==> s.slots[t].Ended?)
    && (forall t :: MessageFits(s, input, tools, t))
    && (forall k :: 0 <= k < |s.output| ==>
      s.output[k].message < |input| && s.output[k].answers == Due(input[s.output[k].message], tools))
  }

  lemma CountSnoc(output: seq<Write>, w: Write, m: nat)
    ensures WriteCount(output + [w], m) == WriteCount(output, m) + if w.message == m then 1 else 0
  {
    assert (output + [w])[..|output|] == output;
  }

  lemma {:induction false} BatchAnswersStep(items: seq<BatchItem>, k: nat, tools: set<string>)
    requires k < |items|
    ensures BatchAnswers(items[..k + 1], tools) ==
            BatchAnswers(items[..k], tools) +
              if ItemAnswer(items[k], tools).Some? then [Tagged(k, ItemAnswer(items[k], tools).value)] else []
  {
    assert items[..k + 1][..k] == items[..k];
  }

  lemma RunToolIsDue(m: Incoming, tools: set<string>)
    requires IsTask(m) && m.message.Single?
    ensures Due(m, tools) != []
  {
    ShutdownIsAnswered(m.message.request, tools);
  }

  /** What only ever grows over a run. */
  ghost predicate Grows(s: State, u: State) {
    && s.cancelled <= u.cancelled && (s.abortRequested ==> u.abortRequested)
    && (s.abortPending ==> u.abortPending) && (s.aborting ==> u.aborting)
  }

  ghost predicate AbortKnown(s: State) { s.aborting ==> s.abortRequested || s.abortPending }

  /** A step of one task: it writes its own slot, and leaves the phase and the abort flags of the loop alone. */
  ghost predicate TaskStep(s: State, u: State, t: nat) {
    && t < |s.slots| == |u.slots| && u.slots == s.slots[t := u.slots[t]]
    && u.phase == s.phase && u.aborting == s.aborting && u.abortPending == s.abortPending
    && s.cancelled <= u.cancelled && (s.abortRequested ==> u.abortRequested)
  }

  /** A step of the reader or of the loop: it may add a slot. */
  ghost predicate LoopStep(s: State, u: State) {
    && |s.slots| <= |u.slots| <= |s.slots| + 1 && u.slots[..|s.slots|] == s.slots
    && s.cancelled <= u.cancelled
    && u.abortRequested == s.abortRequested && (s.abortPending ==> u.abortPending)
    && (u.aborting == s.aborting || u.aborting == (u.abortPending || u.abortRequested))
    && (u.phase == s.phase || u.phase == Draining)
  }

  lemma ReadTaskShape(s: State, m: Incoming, stage: Stage)
    ensures var u := ReadTask(s, m, stage);
      LoopStep(s, u) && |u.slots| == |s.slots| + 1 && u.slots[|s.slots|] == Live(stage) && u.output == s.output
  {
    hide CallId, StopsReading;
  }

  lemma NotificationShape(s: State, m: Incoming, tools: set<string>)
    ensures var u := ReadNotification(s, m, tools);
      LoopStep(s, u) && |u.slots| == |s.slots| + 1 && u.slots[|s.slots|] == Ended(Quiet) && u.output == s.output
  {
    hide CancelTarget;
  }

  lemma ErrorShape(s: State, m: Incoming, tools: set<string>)
    ensures var u := ReadError(s, m, tools);
      && LoopStep(s, u) && |u.slots| == |s.slots| + 1 && u.slots[|s.slots|] == Ended(Answered)
      && u.output == s.output + [Write(|s.slots|, Due(m, tools))]
  {
    hide Due;
  }

  lemma QuietShape(s: State)
    ensures LoopStep(s, s.(slots := s.slots + [Ended(Quiet)]))
  {
  }

  lemma ReadShape(s: State, m: Incoming, tools: set<string>)
    ensures var u := AfterRead(s, m, tools);
      && LoopStep(s, u) && |u.slots| == |s.slots| + 1
      && u.output == (if IsError(m) then s.output + [Write(|s.slots|, Due(m, tools))] else s.output)
      && WritesDue(u.slots[|s.slots|]) == if IsError(m) then 1 else 0
  {
    hide ReadTask, ReadNotification, ReadError, LoopStep, Due;
    NotificationShape(s, m, tools);
    ReadTaskShape(s, m, Spawned);
    ReadTaskShape(s, m, Batching(0, []));
    ErrorShape(s, m, tools);
    QuietShape(s);
  }

  lemma CloseShape(s: State, m: Incoming, t: nat, fate: Fate)
    requires t < |s.slots|
    ensures var u := Close(s, m, t, fate);
      && TaskStep(s, u, t) && u.slots[t] == Ended(fate) && u.output == s.output
      && u.cancelled == s.cancelled && u.abortRequested == s.abortRequested && u.control == s.control
  {
    hide CallId;
  }

  lemma SetSlotShape(s: State, t: nat, slot: Slot)
    requires t < |s.slots|
    ensures var u := SetSlot(s, t, slot);
      && TaskStep(s, u, t) && u.slots[t] == slot && u.output == s.output
      && u.cancelled == s.cancelled && u.abortRequested == s.abortRequested && u.control == s.control
  {
  }

  lemma NextItemShape(s: State, item: BatchItem, tools: set<string>, t: nat)
    requires t < |s.slots| && s.slots[t].Live? && s.slots[t].stage.Batching?
    ensures var u, answer := NextItemStep(s, item, tools, t), ItemAnswer(item, tools);
      && TaskStep(s, u, t) && u.output == s.output
      && u.slots[t] == Live(Batching(s.slots[t].stage.next + 1,
                                     s.slots[t].stage.acc + if answer.Some?
                                       then [Tagged(s.slots[t].stage.next, answer.value)] else []))
  {
    hide ItemAnswer, ItemCancelTarget;
  }

  lemma WriteShape(s: State, t: nat)
    requires t < |s.slots| && s.slots[t].Live? && s.slots[t].stage.Ready?
    ensures var u := WriteStep(s, t);
      TaskStep(s, u, t) && u.slots[t] == Live(Written(true))
        && u.output == s.output + [Write(t, s.slots[t].stage.answers)]
  {
  }

  lemma FailShape(s: State, t: nat)
    requires t < |s.slots|
    ensures var u := FailStep(s, t);
      TaskStep(s, u, t) && u.slots[t] == Live(Written(false)) && u.output == s.output && u.abortRequested
  {
  }

  lemma EndShape(s: State, m: Incoming, t: nat)
    requires t < |s.slots| && s.slots[t].Live? && s.slots[t].stage.Written?
    ensures var u := EndStep(s, m, t);
      TaskStep(s, u, t) && u.output == s.output && u.slots[t] == Ended(if s.slots[t].stage.ok then Answered else Lost)
  {
    hide Close, StopsReading;
    CloseShape(s, m, t, if s.slots[t].stage.ok then Answered else Lost);
  }

  /** The slot a step writes. */
  function Touched(s: State, step: Step): Option<nat> {
    match step
    case Read => Some(|s.slots|)
    case ReadAndFailToAnswer => Some(|s.slots|)
    case Dispatch(t) => Some(t)
    case FinishTool(t) => Some(t)
    case NextItem(t) => Some(t)
    case FinishBatch(t) => Some(t)
    case WriteAnswers(t) => Some(t)
    case FailToWrite(t) => Some(t)
    case EndTask(t) => Some(t)
    case Abort(t) => Some(t)
    case _ => None
  }

  predicate OfTask(step: Step) {
    && !step.Read? && !step.ReadAndFailToAnswer? && !step.ReadEof?
    && !step.TakeControl? && !step.NoticeAbort? && !step.FinishDrain?
  }

  /** What a step writes to the peer. */
  function Sends(s: State, input: seq<Incoming>, tools: set<string>, step: Step): seq<Write>
    requires Enabled(s, input, step)
  {
    match step
    case Read => if IsError(input[|s.slots|]) then [Write(|s.slots|, Due(input[|s.slots|], tools))] else []
    case WriteAnswers(t) => [Write(t, s.slots[t].stage.answers)]
    case _ => []
  }

  lemma TaskShape(s: State, input: seq<Incoming>, tools: set<string>, step: Step)
    requires Enabled(s, input, step) && OfTask(step)
    ensures var u := Apply(s, input, tools, step);
      TaskStep(s, u, step.t) && u.output == s.output + Sends(s, input, tools, step)
  {
    hide Close, SetSlot, NextItemStep, WriteStep, FailStep, EndStep, RunsTool, Due, TaskStep;
    assert s.output + [] == s.output;
    match step
    case Dispatch(t) =>
      SetSlotShape(s, t, Live(if RunsTool(input[t], tools) then Executing else Ready(Due(input[t], tools))));
    case FinishTool(t) =>
      CloseShape(s, input[t], t, Withdrawn);
      SetSlotShape(s, t, Live(Ready(Due(input[t], tools))));
    case NextItem(t) => NextItemShape(s, input[t].message.items[s.slots[t].stage.next], tools, t);
    case FinishBatch(t) =>
      SetSlotShape(s, t, if s.slots[t].stage.acc == [] then Ended(Quiet) else Live(Ready(s.slots[t].stage.acc)));
    case WriteAnswers(t) => WriteShape(s, t);
    case FailToWrite(t) => FailShape(s, t);
    case EndTask(t) => EndShape(s, input[t], t);
    case Abort(t) => CloseShape(s, input[t], t, Aborted(s.slots[t] == Live(Written(true))));
  }

  lemma LoopShape(s: State, input: seq<Incoming>, tools: set<string>, step: Step)
    requires Enabled(s, input, step) && !OfTask(step) && AbortKnown(s)
    ensures var u := Apply(s, input, tools, step);
      && Grows(s, u) && AbortKnown(u) && |s.slots| <= |u.slots| && u.slots[..|s.slots|] == s.slots
      && |u.slots| == |s.slots| + (if step.Read? || step.ReadAndFailToAnswer? then 1 else 0)
      && u.output == s.output + Sends(s, input, tools, step)
      && (u.phase == Done ==> step.FinishDrain? || s.phase == Done)
  {
    hide AfterRead, Due;
    assert s.output + [] == s.output;
    if step.Read? { ReadShape(s, input[|s.slots|], tools); }
  }

  lemma StepGrows(s: State, input: seq<Incoming>, tools: set<string>, step: Step)
    requires Enabled(s, input, step) && AbortKnown(s)
    ensures Grows(s, Apply(s, input, tools, step)) && AbortKnown(Apply(s, input, tools, step))
  {
    hide Apply;
    if OfTask(step) { TaskShape(s, input, tools, step); } else { LoopShape(s, input, tools, step); }
  }

  lemma SentElsewhere(s: State, input: seq<Incoming>, tools: set<string>, step: Step, t: nat)
    requires Enabled(s, input, step) && Touched(s, step) != Some(t)
    ensures WriteCount(s.output + Sends(s, input, tools, step), t) == WriteCount(s.output, t)
  {
    hide WriteCount, Due;
    var w := Sends(s, input, tools, step);
    if w != [] { CountSnoc(s.output, w[0], t); } else { assert s.output + [] == s.output; }
  }

  lemma StepElsewhere(s: State, input: seq<Incoming>, tools: set<string>, step: Step, t: nat)
    requires Enabled(s, input, step) && Touched(s, step) != Some(t) && AbortKnown(s)
    ensures var u := Apply(s, input, tools, step);
      && (t < |u.slots| <==> t < |s.slots|) && (t < |s.slots| ==> u.slots[t] == s.slots[t])
      && WriteCount(u.output, t) == WriteCount(s.output, t)
  {
    hide Apply, WriteCount, Sends;
    SentElsewhere(s, input, tools, step, t);
    var u := Apply(s, input, tools, step);
    if OfTask(step) {
      TaskShape(s, input, tools, step);
    } else {
      LoopShape(s, input, tools, step);
      assert t < |s.slots| ==> u.slots[..|s.slots|][t] == s.slots[t];
    }
  }

  lemma UntouchedFits(s: State, u: State, input: seq<Incoming>, tools: set<string>, t: nat)
    requires MessageFits(s, input, tools, t) && Grows(s, u)
    requires t < |u.slots| <==> t < |s.slots|
    requires t < |s.slots| ==> u.slots[t] == s.slots[t]
    requires WriteCount(u.output, t) == WriteCount(s.output, t)
    ensures MessageFits(u, input, tools, t)
  {
    hide PlanOf, AnswerTo, BatchAnswers, BatchRequestsShutdown, WriteCount, Due;
  }

  lemma ReadFits(s: State, input: seq<Incoming>, tools: set<string>)
    requires Inv(s, input, tools) && Enabled(s, input, Read)
    ensures MessageFits(Apply(s, input, tools, Read), input, tools, |s.slots|)
  {
    var t := |s.slots|;
    var m := input[t];
    var u := AfterRead(s, m, tools);
    assert WriteCount(s.output, t) == 0 by { assert MessageFits(s, input, tools, t); }
    hide Inv, WriteCount;
    CountSnoc(s.output, Write(t, Due(m, tools)), t);
    NewSlotFits(s, m, tools);
    ReadShape(s, m, tools);
    hide AfterRead, SlotFits, Due;
  }

  lemma NewSlotFits(s: State, m: Incoming, tools: set<string>)
    ensures var u := AfterRead(s, m, tools); |s.slots| < |u.slots| && SlotFits(u, m, |s.slots|, tools)
  {
    hide PlanOf, AnswerTo, BatchRequestsShutdown;
    match m
    case Received(Single(req)) => ShutdownIsAnswered(req, tools);
    case Received(Batch(items)) => assert items[..0] == [];
    case _ =>
  }

  /** A task step that writes nothing fits when the new slot does. */
  lemma SilentStepFits(s: State, u: State, input: seq<Incoming>, tools: set<string>, t: nat)
    requires MessageFits(s, input, tools, t) && TaskStep(s, u, t) && u.output == s.output
    requires WritesDue(u.slots[t]) == WritesDue(s.slots[t]) && t < |input| && SlotFits(u, input[t], t, tools)
    ensures MessageFits(u, input, tools, t)
  {
    hide WriteCount, Due, SlotFits, WritesDue;
  }

  lemma DispatchFits(s: State, input: seq<Incoming>, tools: set<string>, t: nat)
    requires Enabled(s, input, Dispatch(t)) && MessageFits(s, input, tools, t)
    ensures MessageFits(DispatchStep(s, input[t], tools, t), input, tools, t)
  {
    hide PlanOf, WriteCount, SetSlot, RunsTool, Due;
    var slot := Live(if RunsTool(input[t], tools) then Executing else Ready(Due(input[t], tools)));
    SetSlotShape(s, t, slot);
    RunToolIsDue(input[t], tools);
    SilentStepFits(s, SetSlot(s, t, slot), input, tools, t);
  }

  lemma RunsToolIsTask(m: Incoming, tools: set<string>)
    requires RunsTool(m, tools)
    ensures IsTask(m) && m.message.Single?
  {
  }

  lemma FinishToolFits(s: State, input: seq<Incoming>, tools: set<string>, t: nat)
    requires Enabled(s, input, FinishTool(t)) && MessageFits(s, input, tools, t)
    ensures MessageFits(FinishToolStep(s, input[t], tools, t), input, tools, t)
  {
    hide PlanOf, WriteCount, SetSlot, Close, RunsTool, Due;
    RunsToolIsTask(input[t], tools);
    SetSlotShape(s, t, Live(Ready(Due(input[t], tools))));
    CloseShape(s, input[t], t, Withdrawn);
    RunToolIsDue(input[t], tools);
    SilentStepFits(s, FinishToolStep(s, input[t], tools, t), input, tools, t);
  }

  lemma NextItemFits(s: State, input: seq<Incoming>, tools: set<string>, t: nat)
    requires Enabled(s, input, NextItem(t)) && MessageFits(s, input, tools, t)
    ensures MessageFits(NextItemStep(s, input[t].message.items[s.slots[t].stage.next], tools, t), input, tools, t)
  {
    hide PlanOf, WriteCount, NextItemStep, BatchAnswers, ItemAnswer, Due;
    var items, k := input[t].message.items, s.slots[t].stage.next;
    NextItemShape(s, items[k], tools, t);
    BatchAnswersStep(items, k, tools);
    SilentStepFits(s, NextItemStep(s, items[k], tools, t), input, tools, t);
  }

  lemma FinishBatchFits(s: State, input: seq<Incoming>, tools: set<string>, t: nat)
    requires Enabled(s, input, FinishBatch(t)) && MessageFits(s, input, tools, t)
    ensures MessageFits(FinishBatchStep(s, t), input, tools, t)
  {
    hide WriteCount, SetSlot, BatchAnswers, AnswerTo;
    var items := input[t].message.items;
    assert items[..|items|] == items;
    SetSlotShape(s, t, if s.slots[t].stage.acc == [] then Ended(Quiet) else Live(Ready(s.slots[t].stage.acc)));
    SilentStepFits(s, FinishBatchStep(s, t), input, tools, t);
  }

  lemma WriteFits(s: State, input: seq<Incoming>, tools: set<string>, t: nat)
    requires MessageFits(s, input, tools, t) && Enabled(s, input, WriteAnswers(t))
    ensures MessageFits(WriteStep(s, t), input, tools, t)
  {
    hide WriteCount, WriteStep, Due;
    WriteShape(s, t);
    CountSnoc(s.output, Write(t, s.slots[t].stage.answers), t);
  }

  lemma FailFits(s: State, input: seq<Incoming>, tools: set<string>, t: nat)
    requires MessageFits(s, input, tools, t) && Enabled(s, input, FailToWrite(t))
    ensures MessageFits(FailStep(s, t), input, tools, t)
  {
    hide WriteCount, FailStep, Due;
    FailShape(s, t);
    SilentStepFits(s, FailStep(s, t), input, tools, t);
  }

  lemma ReadFailFits(s: State, input: seq<Incoming>, tools: set<string>)
    requires MessageFits(s, input, tools, |s.slots|) && Enabled(s, input, ReadAndFailToAnswer)
    ensures MessageFits(FailToAnswerStep(s), input, tools, |s.slots|)
  {
    hide WriteCount, Due;
  }

  lemma EndFits(s: State, input: seq<Incoming>, tools: set<string>, t: nat)
    requires MessageFits(s, input, tools, t) && Enabled(s, input, EndTask(t))
    ensures MessageFits(EndStep(s, input[t], t), input, tools, t)
  {
    hide WriteCount, EndStep, Due;
    EndShape(s, input[t], t);
    SilentStepFits(s, EndStep(s, input[t], t), input, tools, t);
  }

  lemma AbortFits(s: State, input: seq<Incoming>, tools: set<string>, t: nat)
    requires MessageFits(s, input, tools, t) && Enabled(s, input, Abort(t))
    ensures MessageFits(AbortStep(s, input[t], t), input, tools, t)
  {
    hide WriteCount, Close, Due;
    CloseShape(s, input[t], t, Aborted(s.slots[t] == Live(Written(true))));
    SilentStepFits(s, AbortStep(s, input[t], t), input, tools, t);
  }

  lemma StepKeepsMessage(s: State, input: seq<Incoming>, tools: set<string>, step: Step, t: nat)
    requires Inv(s, input, tools) && Enabled(s, input, step)
    ensures MessageFits(Apply(s, input, tools, step), input, tools, t)
  {
    assert MessageFits(s, input, tools, t);
    if Touched(s, step) != Some(t) {
      hide Apply, MessageFits, Enabled;
      StepElsewhere(s, input, tools, step, t);
      StepGrows(s, input, tools, step);
      UntouchedFits(s, Apply(s, input, tools, step), input, tools, t);
    } else {
      hide MessageFits, AfterRead, FailToAnswerStep, DispatchStep, FinishToolStep, NextItemStep, FinishBatchStep,
        WriteStep, FailStep, EndStep, AbortStep;
      match step
      case Read => ReadFits(s, input, tools);
      case ReadAndFailToAnswer => ReadFailFits(s, input, tools);
      case Dispatch(_) => DispatchFits(s, input, tools, t);
      case FinishTool(_) => FinishToolFits(s, input, tools, t);
      case NextItem(_) => NextItemFits(s, input, tools, t);
      case FinishBatch(_) => FinishBatchFits(s, input, tools, t);
      case WriteAnswers(_) => WriteFits(s, input, tools, t);
      case FailToWrite(_) => FailFits(s, input, tools, t);
      case EndTask(_) => EndFits(s, input, tools, t);
      case Abort(_) => AbortFits(s, input, tools, t);
    }
  }

  ghost predicate OutputRight(output: seq<Write>, input: seq<Incoming>, tools: set<string>) {
    forall k :: 0 <= k < |output| ==>
      output[k].message < |input| && output[k].answers == Due(input[output[k].message], tools)
  }

  lemma StepKeepsOutput(s: State, input: seq<Incoming>, tools: set<string>, step: Step)
    requires Inv(s, input, tools) && Enabled(s, input, step)
    ensures var u := Apply(s, input, tools, step);
      |u.slots| <= |input| && OutputRight(u.output, input, tools)
  {
    assert OutputRight(s.output, input, tools);
    if step.WriteAnswers? { assert MessageFits(s, input, tools, step.t); }
    hide Apply, Due;
    if OfTask(step) { TaskShape(s, input, tools, step); } else { LoopShape(s, input, tools, step); }
    hide Inv;
  }

  /** Nothing happens after the end. */
  lemma DoneIsFinal(s: State, input: seq<Incoming>, tools: set<string>, step: Step)
    requires Inv(s, input, tools) && Enabled(s, input, step)
    ensures s.phase != Done
  {
    hide PlanOf, Due, WriteCount, MessageFits;
  }

  lemma StepKeepsDone(s: State, input: seq<Incoming>, tools: set<string>, step: Step)
    requires Inv(s, input, tools) && Enabled(s, input, step)
    ensures var u := Apply(s, input, tools, step);
      u.phase == Done ==> forall t :: 0 <= t < |u.slots| ==> u.slots[t].Ended?
  {
    DoneIsFinal(s, input, tools, step);
    hide Apply, Due, MessageFits;
    if OfTask(step) { TaskShape(s, input, tools, step); } else { LoopShape(s, input, tools, step); }
    var u := Apply(s, input, tools, step);
    if u.phase == Done { assert u.slots[..|s.slots|] == u.slots; }
  }

  lemma StepKeepsInv(s: State, input: seq<Incoming>, tools: set<string>, step: Step)
    requires Inv(s, input, tools) && Enabled(s, input, step)
    ensures Inv(Apply(s, input, tools, step), input, tools)
  {
    StepKeepsDone(s, input, tools, step);
    hide Apply, MessageFits, Due;
    StepGrows(s, input, tools, step);
    StepKeepsOutput(s, input, tools, step);
    forall t: nat
      ensures MessageFits(Apply(s, input, tools, step), input, tools, t)
    {
      StepKeepsMessage(s, input, tools, step, t);
    }
  }

  lemma {:induction false} RunKeepsInv(r: seq<State>, input: seq<Incoming>, tools: set<string>, i: nat)
    requires Run(r, input, tools) && i < |r|
    ensures Inv(r[i], input, tools)
  {
    hide Inv, Enabled, Apply;
    if i == 0 {
      StartFits(input, tools);
    } else {
      RunKeepsInv(r, input, tools, i - 1);
      assert Next(r[i - 1], r[i], input, tools);
      var step: Step :| Enabled(r[i - 1], input, step) && r[i] == Apply(r[i - 1], input, tools, step);
      StepKeepsInv(r[i - 1], input, tools, step);
    }
  }

  lemma StartFits(input: seq<Incoming>, tools: set<string>)
    ensures Inv(START, input, tools)
  {
  }

  /** At most one response to any message, in every run; and a response is always the one the message is due. */
  lemma AnsweredAtMostOnce(r: seq<State>, input: seq<Incoming>, tools: set<string>, i: nat, m: nat)
    requires Run(r, input, tools) && i < |r|
    ensures WriteCount(r[i].output, m) <= 1
    ensures forall k :: 0 <= k < |r[i].output| && r[i].output[k].message == m ==>
      m < |input| && r[i].output[k].answers == Due(input[m], tools)
  {
    hide WriteCount, Due;
    RunKeepsInv(r, input, tools, i);
    assert MessageFits(r[i], input, tools, m);
  }

  /**
    Once drained without an abort, every message that is due an answer has had
    exactly one, except a tool call whose token was cancelled before it finished;
    and what is due nothing has had nothing.
   */
  lemma AnsweredExactlyOnce(r: seq<State>, input: seq<Incoming>, tools: set<string>, i: nat, m: nat)
    requires Run(r, input, tools) && i < |r| && r[i].phase == Done
    requires !r[i].abortRequested && !r[i].abortPending
    requires m < |r[i].slots|
    ensures m < |input|
    ensures r[i].slots[m] == Ended(Withdrawn) ==>
      WriteCount(r[i].output, m) == 0 && RunsTool(input[m], tools) && m in r[i].cancelled
    ensures r[i].slots[m] != Ended(Withdrawn) ==> (WriteCount(r[i].output, m) == 1 <==> Due(input[m], tools) != [])
    ensures r[i].slots[m] != Ended(Withdrawn) ==> (WriteCount(r[i].output, m) == 0 <==> Due(input[m], tools) == [])
  {
    hide WriteCount, Due;
    RunKeepsInv(r, input, tools, i);
    assert MessageFits(r[i], input, tools, m);
  }
}
