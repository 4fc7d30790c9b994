/**
  Calls in flight and their cancellation in the server loop: the in-flight
  map holds exactly the unfinished calls, and a cancellation reaches its target and
  nothing else.
 */
module ServerCalls {
  import opened Wrappers
  import opened JsonRpc
  import opened ServerLoop

  // --- The in-flight map ----------------------------------------------------

  predicate LiveCall(s: State, input: seq<Incoming>, t: nat, id: Id) {
    IsLive(s, t) && t < |input| && CallId(input[t]) == Some(id)
  }

  /** The in-flight map is the unfinished single tool calls, each under its own id. */
  ghost predicate Exact(s: State, input: seq<Incoming>) {
    forall id: Id, t: nat :: (id in s.inflight && s.inflight[id] == t) <==> LiveCall(s, input, t, id)
  }

  /** The next message does not reuse the id of a call that is still running. */
  ghost predicate FreshId(s: State, input: seq<Incoming>) {
    |s.slots| < |input| && CallId(input[|s.slots|]).Some? ==>
      forall t :: 0 <= t < |s.slots| ==> !LiveCall(s, input, t, CallId(input[|s.slots|]).value)
  }

  function CloseIn(inflight: map<Id, nat>, m: Incoming): map<Id, nat> {
    if CallId(m).Some? then inflight - {CallId(m).value} else inflight
  }

  /** What a step does to the map. */
  function InflightAfter(s: State, input: seq<Incoming>, step: Step): map<Id, nat>
    requires Enabled(s, input, step)
  {
    match step
    case Read =>
      if CallId(input[|s.slots|]).Some? then s.inflight[CallId(input[|s.slots|]).value := |s.slots|] else s.inflight
    case FinishTool(t) => if t in s.cancelled then CloseIn(s.inflight, input[t]) else s.inflight
    case EndTask(t) => CloseIn(s.inflight, input[t])
    case Abort(t) => CloseIn(s.inflight, input[t])
    case _ => s.inflight
  }

  lemma ReadInflight(s: State, m: Incoming, tools: set<string>)
    ensures AfterRead(s, m, tools).inflight ==
            if CallId(m).Some? then s.inflight[CallId(m).value := |s.slots|] else s.inflight
  {
    hide PlanOf, Due, StopsReading, CancelTarget;
  }

  lemma StepInflight(s: State, input: seq<Incoming>, tools: set<string>, step: Step)
    requires Enabled(s, input, step)
    ensures Apply(s, input, tools, step).inflight == InflightAfter(s, input, step)
  {
    hide AfterRead, Due, RunsTool, ItemAnswer, ItemCancelTarget, StopsReading, CallId;
    if step.Read? { ReadInflight(s, input[|s.slots|], tools); }
  }

  /** Whether a step ends what runs in the slot it writes. */
  predicate Ends(s: State, step: Step) {
    match step
    case FinishTool(t) => t in s.cancelled
    case FinishBatch(t) => IsLive(s, t) && s.slots[t].stage.Batching? && s.slots[t].stage.acc == []
    case EndTask(_) => true
    case Abort(_) => true
    case _ => false
  }

  lemma TaskLiveness(s: State, input: seq<Incoming>, tools: set<string>, step: Step)
    requires Enabled(s, input, step) && OfTask(step)
    ensures var u := Apply(s, input, tools, step);
      IsLive(s, step.t) && |u.slots| == |s.slots| && (u.slots[step.t].Live? <==> !Ends(s, step))
  {
    hide Due, RunsTool, ItemAnswer, ItemCancelTarget, StopsReading, CallId;
  }

  lemma ReadLiveness(s: State, m: Incoming, tools: set<string>)
    ensures var u := AfterRead(s, m, tools); |u.slots| == |s.slots| + 1 && (u.slots[|s.slots|].Live? <==> IsTask(m))
  {
    hide ReadNotification, ReadTask, ReadError;
    NotificationShape(s, m, tools);
    ReadTaskShape(s, m, Spawned);
    ReadTaskShape(s, m, Batching(0, []));
    ErrorShape(s, m, tools);
    hide LoopStep, Due;
  }

  /** How a step changes which tasks are live. */
  lemma StepLiveness(s: State, input: seq<Incoming>, tools: set<string>, step: Step, t: nat)
    requires Enabled(s, input, step) && AbortKnown(s)
    ensures IsLive(Apply(s, input, tools, step), t) <==>
            if step.Read? && t == |s.slots| then IsTask(input[t])
            else IsLive(s, t) && !(Touched(s, step) == Some(t) && Ends(s, step))
  {
    if OfTask(step) {
      TaskLiveness(s, input, tools, step);
      TaskShape(s, input, tools, step);
    } else {
      LoopShape(s, input, tools, step);
      if step.Read? { ReadLiveness(s, input[|s.slots|], tools); }
      if t < |s.slots| { assert Apply(s, input, tools, step).slots[..|s.slots|][t] == s.slots[t]; }
    }
    hide Due, RunsTool, ItemAnswer, ItemCancelTarget, StopsReading, CallId, AfterRead;
  }

  lemma OnlyCallsEnd(s: State, input: seq<Incoming>, step: Step)
    requires Enabled(s, input, step) && OfTask(step) && Ends(s, step)
    ensures step.t < |input| && InflightAfter(s, input, step) == CloseIn(s.inflight, input[step.t])
  {
  }

  lemma StepKeepsExact(s: State, input: seq<Incoming>, tools: set<string>, step: Step)
    requires Exact(s, input) && Enabled(s, input, step) && AbortKnown(s)
    requires step == Read ==> FreshId(s, input)
    ensures Exact(Apply(s, input, tools, step), input)
  {
    var u := Apply(s, input, tools, step);
    StepInflight(s, input, tools, step);
    forall id: Id, t: nat
      ensures (id in u.inflight && u.inflight[id] == t) <==> LiveCall(u, input, t, id)
    {
      assert (id in s.inflight && s.inflight[id] == t) <==> LiveCall(s, input, t, id);
      StepLiveness(s, input, tools, step, t);
      if step == Read {
        NewCall(s, input, id);
      } else if OfTask(step) && Ends(s, step) {
        OnlyCallsEnd(s, input, step);
        EndedCall(s, input, step, id, t);
      } else {
        NothingEnds(s, input, step);
      }
      hide Apply, Enabled, CallId, InflightAfter, Ends, Exact;
    }
  }

  lemma NewCall(s: State, input: seq<Incoming>, id: Id)
    requires Exact(s, input) && Enabled(s, input, Read) && FreshId(s, input)
    ensures InflightAfter(s, input, Read) ==
            if CallId(input[|s.slots|]).Some? then s.inflight[CallId(input[|s.slots|]).value := |s.slots|]
            else s.inflight
    ensures CallId(input[|s.slots|]) == Some(id) ==> id !in s.inflight && IsTask(input[|s.slots|])
    ensures forall t: nat :: LiveCall(s, input, t, id) ==> t < |s.slots|
  {
    hide PlanOf;
    if id in s.inflight { assert LiveCall(s, input, s.inflight[id], id); }
  }

  lemma EndedCall(s: State, input: seq<Incoming>, step: Step, id: Id, t: nat)
    requires Exact(s, input) && Enabled(s, input, step) && OfTask(step) && Ends(s, step) && step.t < |input|
    ensures LiveCall(s, input, t, id) && t != step.t ==> CallId(input[step.t]) != Some(id)
  {
    hide CallId;
    assert (id in s.inflight && s.inflight[id] == t) <==> LiveCall(s, input, t, id);
    assert (id in s.inflight && s.inflight[id] == step.t) <==> LiveCall(s, input, step.t, id);
  }

  lemma NothingEnds(s: State, input: seq<Incoming>, step: Step)
    requires Enabled(s, input, step) && step != Read && !(OfTask(step) && Ends(s, step))
    ensures InflightAfter(s, input, step) == s.inflight && !Ends(s, step)
  {
  }

  // --- Cancellation ---------------------------------------------------------

  /** The id a step asks to cancel. */
  function StepTarget(s: State, input: seq<Incoming>, tools: set<string>, step: Step): Option<Id>
    requires Enabled(s, input, step)
  {
    match step
    case Read => CancelTarget(input[|s.slots|], tools)
    case NextItem(t) => ItemCancelTarget(input[t].message.items[s.slots[t].stage.next], tools)
    case _ => None
  }

  lemma ReadCancels(s: State, m: Incoming, tools: set<string>)
    ensures AfterRead(s, m, tools).cancelled ==
            if CancelTarget(m, tools).Some? then CancelIn(s.inflight, s.cancelled, CancelTarget(m, tools).value)
            else s.cancelled
  {
    hide Due, CancelIn, BatchRequestsShutdown, RequestsShutdown;
  }

  lemma StepCancels(s: State, input: seq<Incoming>, tools: set<string>, step: Step)
    requires Enabled(s, input, step)
    ensures var target := StepTarget(s, input, tools, step);
      Apply(s, input, tools, step).cancelled ==
      if target.Some? then CancelIn(s.inflight, s.cancelled, target.value) else s.cancelled
  {
    hide AfterRead, Due, RunsTool, ItemAnswer, ItemCancelTarget, StopsReading, CallId, CancelIn, CancelTarget;
    if step.Read? { ReadCancels(s, input[|s.slots|], tools); }
  }

  /** A step cancels a token exactly when it names the id of that token's unfinished call. */
  lemma CancelReachesOnlyItsTarget(s: State, input: seq<Incoming>, tools: set<string>, step: Step, t: nat)
    requires Exact(s, input) && Enabled(s, input, step)
    ensures t in Apply(s, input, tools, step).cancelled <==>
            t in s.cancelled ||
            (StepTarget(s, input, tools, step).Some? && LiveCall(s, input, t, StepTarget(s, input, tools, step).value))
  {
    hide Apply, StepTarget, LiveCall;
    StepCancels(s, input, tools, step);
    var target := StepTarget(s, input, tools, step);
    if target.Some? {
      assert (target.value in s.inflight && s.inflight[target.value] == t) <==> LiveCall(s, input, t, target.value);
    }
  }

  /** A message that asks to cancel `id`, alone or in a batch. */
  ghost predicate Names(m: Incoming, id: Id, tools: set<string>) {
    || CancelTarget(m, tools) == Some(id)
    || (m.Received? && m.message.Batch? &&
        exists k :: 0 <= k < |m.message.items| && ItemCancelTarget(m.message.items[k], tools) == Some(id))
  }

  /** No two calls that run at the same time share an id. */
  ghost predicate DistinctIds(r: seq<State>, input: seq<Incoming>) {
    forall i :: 0 <= i < |r| - 1 && |r[i].slots| < |r[i + 1].slots| ==> FreshId(r[i], input)
  }

  lemma StepTaken(r: seq<State>, input: seq<Incoming>, tools: set<string>, i: nat) returns (step: Step)
    requires Run(r, input, tools) && i < |r| - 1
    ensures Enabled(r[i], input, step) && r[i + 1] == Apply(r[i], input, tools, step)
  {
    hide Apply, Enabled;
    assert Next(r[i], r[i + 1], input, tools);
    step :| Enabled(r[i], input, step) && r[i + 1] == Apply(r[i], input, tools, step);
  }

  lemma AbortIsKnown(s: State, input: seq<Incoming>, tools: set<string>)
    requires Inv(s, input, tools)
    ensures AbortKnown(s)
  {
    hide MessageFits, Due;
  }

  /** In every run whose concurrent calls have distinct ids, the in-flight map is exact throughout. */
  lemma {:induction false} InflightIsExact(r: seq<State>, input: seq<Incoming>, tools: set<string>, i: nat)
    requires Run(r, input, tools) && DistinctIds(r, input) && i < |r|
    ensures Exact(r[i], input)
  {
    if i > 0 {
      InflightIsExact(r, input, tools, i - 1);
      RunKeepsInv(r, input, tools, i - 1);
      var s := r[i - 1];
      hide Apply, Exact, Enabled, FreshId, LiveCall, Inv;
      var step := StepTaken(r, input, tools, i - 1);
      assert AbortKnown(s) by { AbortIsKnown(s, input, tools); }
      if step == Read { ReadGrows(s, input, tools); }
      StepKeepsExact(s, input, tools, step);
    }
  }

  lemma ReadGrows(s: State, input: seq<Incoming>, tools: set<string>)
    requires Enabled(s, input, Read)
    ensures |Apply(s, input, tools, Read).slots| == |s.slots| + 1
  {
    hide AfterRead;
    ReadShape(s, input[|s.slots|], tools);
  }

  /** Whether a message read so far names the id of this call. */
  ghost predicate Asked(s: State, input: seq<Incoming>, tools: set<string>, t: nat) {
    && t < |input| && CallId(input[t]).Some?
    && exists k :: 0 <= k < |s.slots| && k < |input| && Names(input[k], CallId(input[t]).value, tools)
  }

  lemma TargetIsNamed(s: State, input: seq<Incoming>, tools: set<string>, step: Step) returns (k: nat)
    requires Enabled(s, input, step) && StepTarget(s, input, tools, step).Some?
    ensures k < |input| && k < |Apply(s, input, tools, step).slots|
            && Names(input[k], StepTarget(s, input, tools, step).value, tools)
  {
    hide PlanOf, Due, CallId;
    if step.Read? {
      ReadGrows(s, input, tools);
      k := |s.slots|;
    } else {
      TaskShape(s, input, tools, step);
      k := step.t;
    }
    hide Apply;
  }

  lemma StepKeepsAsked(s: State, input: seq<Incoming>, tools: set<string>, step: Step, t: nat)
    requires Exact(s, input) && AbortKnown(s) && Enabled(s, input, step)
    requires t in s.cancelled ==> Asked(s, input, tools, t)
    ensures t in Apply(s, input, tools, step).cancelled ==> Asked(Apply(s, input, tools, step), input, tools, t)
  {
    hide Apply, Exact, CallId, Names, StepTarget;
    SlotsGrow(s, input, tools, step);
    CancelReachesOnlyItsTarget(s, input, tools, step, t);
    if t in Apply(s, input, tools, step).cancelled && t !in s.cancelled {
      var k := TargetIsNamed(s, input, tools, step);
      assert Names(input[k], CallId(input[t]).value, tools);
    }
  }

  /** Only a call whose id was named is ever cancelled. */
  lemma {:induction false} CancelledWasAsked(r: seq<State>, input: seq<Incoming>, tools: set<string>, i: nat, t: nat)
    requires Run(r, input, tools) && DistinctIds(r, input) && i < |r| && t in r[i].cancelled
    ensures Asked(r[i], input, tools, t)
  {
    hide Apply, Enabled, Exact, Inv, Asked, Next, FreshId;
    if i > 0 {
      RunKeepsInv(r, input, tools, i - 1);
      InflightIsExact(r, input, tools, i - 1);
      var step := StepTaken(r, input, tools, i - 1);
      AbortIsKnown(r[i - 1], input, tools);
      if t in r[i - 1].cancelled { CancelledWasAsked(r, input, tools, i - 1, t); }
      StepKeepsAsked(r[i - 1], input, tools, step, t);
    }
  }

  lemma SlotsGrow(s: State, input: seq<Incoming>, tools: set<string>, step: Step)
    requires Enabled(s, input, step) && AbortKnown(s)
    ensures |s.slots| <= |Apply(s, input, tools, step).slots|
  {
    hide Apply;
    if OfTask(step) { TaskShape(s, input, tools, step); } else { LoopShape(s, input, tools, step); }
  }

  /**
    The answer law with its exception made precise: after a drain without an
    abort, a message due an answer was answered exactly once, or it is a tool
    call whose own id a peer asked to cancel.
   */
  lemma UnansweredWasAskedToCancel(r: seq<State>, input: seq<Incoming>, tools: set<string>, i: nat, m: nat)
    requires Run(r, input, tools) && DistinctIds(r, input) && i < |r| && r[i].phase == Done
    requires !r[i].abortRequested && !r[i].abortPending
    requires m < |r[i].slots| && m < |input| && Due(input[m], tools) != []
    ensures WriteCount(r[i].output, m) == 1
            || (WriteCount(r[i].output, m) == 0 && RunsTool(input[m], tools) && Asked(r[i], input, tools, m))
  {
    hide Due, WriteCount, RunsTool, Asked, DistinctIds, Run;
    AnsweredExactlyOnce(r, input, tools, i, m);
    if r[i].slots[m] == Ended(Withdrawn) { CancelledWasAsked(r, input, tools, i, m); }
  }
}
