/**
  Stopping: a shutdown is the last message read, reading stops for nothing else but
  the end of the input or a failure, and draining always comes to an end.
 */
module ServerStop {
  import opened Wrappers
  import opened JsonRpc
  import opened ServerLoop
  import opened ServerCalls

  // --- What reading stops for -----------------------------------------------

  predicate AsksToStop(input: seq<Incoming>, k: nat) { k < |input| && StopsReading(input[k]) }

  predicate ShutdownRead(s: State, input: seq<Incoming>) {
    exists k: nat :: k < |s.slots| && AsksToStop(input, k)
  }

  /** A shutdown that was read is the last message read, and reading has stopped. */
  ghost predicate ShutdownLast(s: State, input: seq<Incoming>) {
    forall k: nat :: k < |s.slots| && AsksToStop(input, k) ==> k == |s.slots| - 1 && s.phase != Reading
  }

  /** Reading stops at the end of the input, after a failure or for a shutdown. */
  ghost predicate StoppedForCause(s: State, input: seq<Incoming>) {
    && (s.phase != Reading ==> |s.slots| == |input| || s.abortPending || ShutdownRead(s, input))
    && (GracefulShutdown in s.control ==> ShutdownRead(s, input))
  }

  lemma NotificationGoesOn(m: Incoming)
    requires m.Received? && m.message.Single? && m.message.request.IsNotification()
    ensures !StopsReading(m)
  {
  }

  lemma PeerResponseGoesOn(m: Incoming)
    requires m.Received? && m.message.PeerResponse?
    ensures !StopsReading(m)
  {
  }

  lemma ErrorGoesOn(m: Incoming)
    requires IsError(m)
    ensures !StopsReading(m)
  {
  }

  lemma ReadStops(s: State, m: Incoming, tools: set<string>)
    ensures var u := AfterRead(s, m, tools);
      && |u.slots| == |s.slots| + 1 && u.control == s.control && (s.abortPending ==> u.abortPending)
      && (StopsReading(m) ==> u.phase == Draining)
      && (u.phase != s.phase ==> StopsReading(m) || u.abortPending)
  {
    hide PlanOf, Due, CallId, CancelTarget, StopsReading, CancelIn;
    if m.Received? && m.message.Single? && m.message.request.IsNotification() { NotificationGoesOn(m); }
    if m.Received? && m.message.PeerResponse? { PeerResponseGoesOn(m); }
    if IsError(m) { ErrorGoesOn(m); }
  }

  /** What a step of a task may tell the loop. */
  lemma TaskTells(s: State, input: seq<Incoming>, tools: set<string>, step: Step)
    requires Enabled(s, input, step) && OfTask(step)
    ensures var u := Apply(s, input, tools, step);
      && |u.slots| == |s.slots| && u.phase == s.phase && u.abortPending == s.abortPending
      && (u.control == s.control || u.control == s.control + [AbortPendingTasks]
          || (u.control == s.control + [GracefulShutdown] && step.t < |s.slots| && AsksToStop(input, step.t)))
  {
    hide Due, RunsTool, ItemAnswer, ItemCancelTarget, StopsReading;
    TaskShape(s, input, tools, step);
    ControlAfter(s, input, tools, step);
    hide Apply;
  }

  lemma ControlAfter(s: State, input: seq<Incoming>, tools: set<string>, step: Step)
    requires Enabled(s, input, step) && OfTask(step)
    ensures Apply(s, input, tools, step).control ==
            match step
            case FailToWrite(_) => s.control + [AbortPendingTasks]
            case EndTask(t) =>
              s.control + if s.slots[t].stage.ok && StopsReading(input[t]) then [GracefulShutdown] else []
            case _ => s.control
  {
    hide Due, RunsTool, ItemAnswer, ItemCancelTarget, StopsReading, Close;
    match step
    case FinishTool(t) => CloseShape(s, input[t], t, Withdrawn);
    case Abort(t) => CloseShape(s, input[t], t, Aborted(s.slots[t] == Live(Written(true))));
    case _ =>
  }

  /** What a step of the loop itself does, reading aside. */
  lemma LoopStops(s: State, input: seq<Incoming>, tools: set<string>, step: Step)
    requires Enabled(s, input, step) && !OfTask(step) && !step.Read?
    ensures var u := Apply(s, input, tools, step);
      && (forall c :: c in u.control ==> c in s.control) && (s.abortPending ==> u.abortPending)
      && (s.phase != Reading ==> u.phase != Reading)
      && (u.phase != Reading && s.phase == Reading ==>
            |u.slots| == |input| || u.abortPending || (step.TakeControl? && s.control[0] == GracefulShutdown))
      && |u.slots| == |s.slots| + (if step.ReadAndFailToAnswer? then 1 else 0)
      && (step.ReadAndFailToAnswer? ==> !StopsReading(input[|s.slots|]) && s.phase == Reading)
  {
    hide AfterRead, Due;
  }

  lemma ShutdownStaysRead(s: State, u: State, input: seq<Incoming>)
    requires |s.slots| <= |u.slots| && ShutdownRead(s, input)
    ensures ShutdownRead(u, input)
  {
  }

  lemma ReadKeepsCause(s: State, input: seq<Incoming>, tools: set<string>)
    requires Enabled(s, input, Read) && ShutdownLast(s, input) && StoppedForCause(s, input)
    ensures ShutdownLast(Apply(s, input, tools, Read), input) && StoppedForCause(Apply(s, input, tools, Read), input)
  {
    var u, n := Apply(s, input, tools, Read), |s.slots|;
    ReadStops(s, input[n], tools);
    hide AfterRead, StopsReading;
    if ShutdownRead(s, input) { ShutdownStaysRead(s, u, input); }
    if AsksToStop(input, n) { assert n < |u.slots| && ShutdownRead(u, input); }
  }

  lemma TaskKeepsCause(s: State, input: seq<Incoming>, tools: set<string>, step: Step)
    requires Enabled(s, input, step) && OfTask(step) && ShutdownLast(s, input) && StoppedForCause(s, input)
    ensures ShutdownLast(Apply(s, input, tools, step), input) && StoppedForCause(Apply(s, input, tools, step), input)
  {
    TaskTells(s, input, tools, step);
    hide Apply, StopsReading;
    var u := Apply(s, input, tools, step);
    if ShutdownRead(s, input) { ShutdownStaysRead(s, u, input); }
    if GracefulShutdown in u.control && GracefulShutdown !in s.control {
      assert AsksToStop(input, step.t) && ShutdownRead(u, input);
    }
  }

  lemma LoopKeepsCause(s: State, input: seq<Incoming>, tools: set<string>, step: Step)
    requires Enabled(s, input, step) && !OfTask(step) && !step.Read? && ShutdownLast(s, input)
             && StoppedForCause(s, input)
    ensures ShutdownLast(Apply(s, input, tools, step), input) && StoppedForCause(Apply(s, input, tools, step), input)
  {
    LoopStops(s, input, tools, step);
    var u := Apply(s, input, tools, step);
    if step.TakeControl? { assert s.control[0] in s.control; }
    hide Apply, StopsReading;
    if ShutdownRead(s, input) { ShutdownStaysRead(s, u, input); }
  }

  lemma StepKeepsCause(s: State, input: seq<Incoming>, tools: set<string>, step: Step)
    requires Enabled(s, input, step) && ShutdownLast(s, input) && StoppedForCause(s, input)
    ensures ShutdownLast(Apply(s, input, tools, step), input) && StoppedForCause(Apply(s, input, tools, step), input)
  {
    hide *;
    if step == Read { ReadKeepsCause(s, input, tools); }
    else if OfTask(step) { TaskKeepsCause(s, input, tools, step); }
    else { LoopKeepsCause(s, input, tools, step); }
  }

  lemma {:induction false} StopsForCause(r: seq<State>, input: seq<Incoming>, tools: set<string>, i: nat)
    requires Run(r, input, tools) && i < |r|
    ensures ShutdownLast(r[i], input) && StoppedForCause(r[i], input)
  {
    hide Apply, Enabled, StopsReading;
    if i > 0 {
      StopsForCause(r, input, tools, i - 1);
      var step := StepTaken(r, input, tools, i - 1);
      StepKeepsCause(r[i - 1], input, tools, step);
    }
  }

  lemma {:induction false} SlotsNeverShrink(r: seq<State>, input: seq<Incoming>, tools: set<string>, i: nat, j: nat)
    requires Run(r, input, tools) && i <= j < |r|
    ensures |r[i].slots| <= |r[j].slots|
  {
    hide Apply, Enabled, Inv;
    if i < j {
      SlotsNeverShrink(r, input, tools, i, j - 1);
      RunKeepsInv(r, input, tools, j - 1);
      AbortIsKnown(r[j - 1], input, tools);
      var step := StepTaken(r, input, tools, j - 1);
      SlotsGrow(r[j - 1], input, tools, step);
    }
  }

  /** Once a shutdown has been read no later state of the run has read anything more. */
  lemma NothingIsReadAfterShutdown(r: seq<State>, input: seq<Incoming>, tools: set<string>, i: nat, j: nat, k: nat)
    requires Run(r, input, tools) && i <= j < |r|
    requires k < |r[i].slots| && k < |input| && StopsReading(input[k])
    ensures |r[i].slots| == |r[j].slots| == k + 1 && r[j].phase != Reading
  {
    StopsForCause(r, input, tools, i);
    StopsForCause(r, input, tools, j);
    SlotsNeverShrink(r, input, tools, i, j);
    assert AsksToStop(input, k);
  }

  /** Reading has stopped only when the input has ended, something failed, or the last message read was a shutdown. */
  lemma ReadingStopsOnlyForCause(r: seq<State>, input: seq<Incoming>, tools: set<string>, i: nat)
    requires Run(r, input, tools) && i < |r| && r[i].phase != Reading
    ensures |r[i].slots| == |input| || r[i].abortPending || (r[i].slots != [] && AsksToStop(input, |r[i].slots| - 1))
  {
    StopsForCause(r, input, tools, i);
    if ShutdownRead(r[i], input) {
      var k: nat :| k < |r[i].slots| && AsksToStop(input, k);
    }
  }

  // --- Draining -------------------------------------------------------------

  lemma StoppedReadsNothing(s: State, input: seq<Incoming>, tools: set<string>, step: Step)
    requires s.phase != Reading && Enabled(s, input, step) && AbortKnown(s)
    ensures |Apply(s, input, tools, step).slots| == |s.slots| && Apply(s, input, tools, step).phase != Reading
  {
    if OfTask(step) {
      TaskShape(s, input, tools, step);
    } else {
      LoopShape(s, input, tools, step);
    }
    hide Due, AfterRead;
  }

  /** The steps a slot still has before it. */
  function Left(slot: Slot, m: Incoming): nat {
    match slot
    case Ended(_) => 0
    case Live(Spawned) => 4
    case Live(Executing) => 3
    case Live(Ready(_)) => 2
    case Live(Written(_)) => 1
    case Live(Batching(k, _)) =>
      if m.Received? && m.message.Batch? && k <= |m.message.items| then 3 + |m.message.items| - k else 0
  }

  function Work(slots: seq<Slot>, input: seq<Incoming>): nat
    requires |slots| <= |input|
  {
    if slots == [] then 0
    else Work(slots[..|slots| - 1], input) + Left(slots[|slots| - 1], input[|slots| - 1])
  }

  lemma {:induction false} WorkUpdate(slots: seq<Slot>, input: seq<Incoming>, t: nat, slot: Slot)
    requires t < |slots| <= |input|
    ensures Work(slots[t := slot], input) + Left(slots[t], input[t]) == Work(slots, input) + Left(slot, input[t])
  {
    hide Left;
    var front := slots[..|slots| - 1];
    if t < |slots| - 1 {
      assert slots[t := slot][..|slots| - 1] == front[t := slot];
      WorkUpdate(front, input, t, slot);
    } else {
      assert slots[t := slot][..|slots| - 1] == front;
    }
  }

  lemma BatchLeftDecreases(s: State, input: seq<Incoming>, tools: set<string>, step: Step)
    requires Enabled(s, input, step) && (step.NextItem? || step.FinishBatch?)
    ensures var u := Apply(s, input, tools, step);
      |u.slots| == |s.slots| && Left(u.slots[step.t], input[step.t]) < Left(s.slots[step.t], input[step.t])
  {
    hide RunsTool, ItemAnswer, ItemCancelTarget, StopsReading, CallId;
  }

  lemma SingleLeftDecreases(s: State, input: seq<Incoming>, tools: set<string>, step: Step)
    requires Enabled(s, input, step) && OfTask(step) && !step.NextItem? && !step.FinishBatch? && step.t < |input|
    requires step.Abort? ==> Left(s.slots[step.t], input[step.t]) > 0
    ensures var u := Apply(s, input, tools, step);
      |u.slots| == |s.slots| && Left(u.slots[step.t], input[step.t]) < Left(s.slots[step.t], input[step.t])
  {
    hide Close, SetSlot, NextItemStep, WriteStep, FailStep, EndStep, RunsTool, Due, IsTask;
    match step
    case Dispatch(t) =>
      SetSlotShape(s, t, Live(if RunsTool(input[t], tools) then Executing else Ready(Due(input[t], tools))));
    case FinishTool(t) =>
      CloseShape(s, input[t], t, Withdrawn);
      SetSlotShape(s, t, Live(Ready(Due(input[t], tools))));
    case WriteAnswers(t) => WriteShape(s, t);
    case FailToWrite(t) => FailShape(s, t);
    case EndTask(t) => EndShape(s, input[t], t);
    case Abort(t) => CloseShape(s, input[t], t, Aborted(s.slots[t] == Live(Written(true))));
  }

  lemma LiveHasWorkLeft(s: State, input: seq<Incoming>, tools: set<string>, t: nat)
    requires t < |s.slots| && s.slots[t].Live? && MessageFits(s, input, tools, t)
    ensures Left(s.slots[t], input[t]) > 0
  {
    hide Due, RunsTool, BatchAnswers, WriteCount;
  }

  lemma LeftDecreases(s: State, input: seq<Incoming>, tools: set<string>, step: Step)
    requires Inv(s, input, tools) && Enabled(s, input, step) && OfTask(step)
    ensures var u := Apply(s, input, tools, step);
      step.t < |s.slots| == |u.slots| && step.t < |input|
        && Left(u.slots[step.t], input[step.t]) < Left(s.slots[step.t], input[step.t])
  {
    assert MessageFits(s, input, tools, step.t);
    hide Inv, Due, RunsTool, CallId, BatchAnswers, WriteCount, Apply, Left;
    if step.Abort? { LiveHasWorkLeft(s, input, tools, step.t); }
    if step.NextItem? || step.FinishBatch? { BatchLeftDecreases(s, input, tools, step); }
    else { SingleLeftDecreases(s, input, tools, step); }
  }

  function Measure(s: State, input: seq<Incoming>): nat
    requires |s.slots| <= |input|
  {
    2 * Work(s.slots, input) + (if s.phase == Draining then 1 else 0) + (if s.aborting then 0 else 1)
  }

  /** Once reading has stopped, every step brings the end nearer. */
  lemma DrainTerminates(s: State, input: seq<Incoming>, tools: set<string>, step: Step)
    requires Inv(s, input, tools) && s.phase == Draining && Enabled(s, input, step)
    ensures var u := Apply(s, input, tools, step);
      |u.slots| <= |input| && Measure(u, input) < Measure(s, input)
  {
    if OfTask(step) {
      TaskShape(s, input, tools, step);
      LeftDecreases(s, input, tools, step);
      WorkUpdate(s.slots, input, step.t, Apply(s, input, tools, step).slots[step.t]);
      hide Apply, Left, Work, Inv;
    } else {
      hide Work, Due, AfterRead;
    }
  }

  /** And until everything has ended there is a step to take. */
  lemma DrainIsNeverStuck(s: State, input: seq<Incoming>, tools: set<string>) returns (step: Step)
    requires Inv(s, input, tools) && s.phase == Draining
    ensures Enabled(s, input, step)
  {
    hide Due, RunsTool, BatchAnswers, WriteCount;
    if t: nat :| t < |s.slots| && s.slots[t].Live? {
      assert MessageFits(s, input, tools, t);
      match s.slots[t].stage
      case Spawned => step := Dispatch(t);
      case Executing =>
        RunsToolIsTask(input[t], tools);
        step := FinishTool(t);
      case Batching(k, _) => step := if k < |input[t].message.items| then NextItem(t) else FinishBatch(t);
      case Ready(_) => step := WriteAnswers(t);
      case Written(_) => step := EndTask(t);
    } else {
      step := FinishDrain;
    }
  }
}
