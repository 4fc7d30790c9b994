/**
  What failures and cancellations do to a run: without a failure nothing is ever
  aborted; after one nothing more is read; and a call cancelled in time is not answered.
 */
module ServerFaults {
  import opened Wrappers
  import opened JsonRpc
  import opened ServerLoop
  import opened ServerCalls
  import opened ServerStop

  // --- What each step tells the loop ----------------------------------------

  predicate BreaksFraming(m: Incoming) { m.FramingError? && !m.shouldContinue }

  /** The reader cannot go on: it lost the framing, or could not answer an error. */
  predicate ReaderFails(s: State, input: seq<Incoming>, step: Step) {
    step.ReadAndFailToAnswer? || (step.Read? && |s.slots| < |input| && BreaksFraming(input[|s.slots|]))
  }

  predicate Fails(s: State, input: seq<Incoming>, step: Step) { step.FailToWrite? || ReaderFails(s, input, step) }

  predicate Leaves(s: State, input: seq<Incoming>, step: Step) {
    || step.ReadEof? || step.TakeControl? || ReaderFails(s, input, step)
    || (step.Read? && |s.slots| < |input| && StopsReading(input[|s.slots|]))
  }

  predicate AbortTaken(s: State, step: Step) {
    step.TakeControl? && s.control != [] && s.control[0] == AbortPendingTasks
  }

  /** The flags and the phase of the loop after any step. */
  ghost predicate Flags(s: State, u: State, input: seq<Incoming>, step: Step) {
    && (u.abortRequested <==> s.abortRequested || step.FailToWrite?)
    && (u.abortPending <==> s.abortPending || ReaderFails(s, input, step) || AbortTaken(s, step))
    && (u.aborting <==>
        if Leaves(s, input, step) then u.abortPending || u.abortRequested else s.aborting || step.NoticeAbort?)
    && u.phase == if Leaves(s, input, step) then Draining else if step.FinishDrain? then Done else s.phase
  }

  lemma ReadFlags(s: State, input: seq<Incoming>, tools: set<string>)
    requires Enabled(s, input, Read)
    ensures Flags(s, Apply(s, input, tools, Read), input, Read) && Apply(s, input, tools, Read).control == s.control
  {
    var m := input[|s.slots|];
    ReadStops(s, m, tools);
    hide PlanOf, Due, CallId, CancelTarget, StopsReading, CancelIn;
    if m.Received? && m.message.Single? && m.message.request.IsNotification() { NotificationGoesOn(m); }
    if m.Received? && m.message.PeerResponse? { PeerResponseGoesOn(m); }
    if IsError(m) { ErrorGoesOn(m); }
  }

  lemma TaskFlags(s: State, input: seq<Incoming>, tools: set<string>, step: Step)
    requires Enabled(s, input, step) && OfTask(step)
    ensures Flags(s, Apply(s, input, tools, step), input, step)
  {
    TaskShape(s, input, tools, step);
    hide Due, RunsTool, ItemAnswer, ItemCancelTarget, StopsReading, Close;
    match step
    case FinishTool(t) => CloseShape(s, input[t], t, Withdrawn);
    case EndTask(t) => CloseShape(s, input[t], t, if s.slots[t].stage.ok then Answered else Lost);
    case Abort(t) => CloseShape(s, input[t], t, Aborted(s.slots[t] == Live(Written(true))));
    case _ =>
  }

  lemma LoopFlags(s: State, input: seq<Incoming>, tools: set<string>, step: Step)
    requires Enabled(s, input, step) && !OfTask(step) && !step.Read?
    ensures Flags(s, Apply(s, input, tools, step), input, step)
  {
    hide AfterRead, Due, StopsReading;
  }

  /** Exactly which step sets which flag, and which makes the loop stop reading. */
  lemma FlagsOfStep(s: State, input: seq<Incoming>, tools: set<string>, step: Step)
    requires Enabled(s, input, step)
    ensures Flags(s, Apply(s, input, tools, step), input, step)
  {
    hide *;
    if step == Read { ReadFlags(s, input, tools); }
    else if OfTask(step) { TaskFlags(s, input, tools, step); }
    else { LoopFlags(s, input, tools, step); }
  }

  // --- A failure stops the reading ------------------------------------------

  /** A failure is on its way to the loop while it reads, and has reached it when it stops. */
  ghost predicate Told(s: State) {
    && (s.phase == Reading ==> !s.aborting && !s.abortPending)
    && (s.phase == Reading && s.abortRequested ==> AbortPendingTasks in s.control)
    && (s.phase != Reading && s.abortPending ==> s.aborting)
  }

  lemma ControlKept(s: State, input: seq<Incoming>, tools: set<string>, step: Step, c: Control)
    requires Enabled(s, input, step) && c in s.control
    ensures step.TakeControl? || c in Apply(s, input, tools, step).control
  {
    if OfTask(step) {
      ControlAfter(s, input, tools, step);
    } else if step == Read {
      ReadFlags(s, input, tools);
    }
    hide AfterRead, Close, StopsReading;
  }

  lemma StepTells(s: State, input: seq<Incoming>, tools: set<string>, step: Step)
    requires Enabled(s, input, step) && Told(s)
    ensures Told(Apply(s, input, tools, step))
  {
    FlagsOfStep(s, input, tools, step);
    var u := Apply(s, input, tools, step);
    if step.FailToWrite? { ControlAfter(s, input, tools, step); }
    if AbortPendingTasks in s.control { ControlKept(s, input, tools, step, AbortPendingTasks); }
    assert step.NoticeAbort? ==> s.phase == Draining;
    hide Apply, StopsReading, BreaksFraming;
  }

  lemma {:induction false} AlwaysTold(r: seq<State>, input: seq<Incoming>, tools: set<string>, i: nat)
    requires Run(r, input, tools) && i < |r|
    ensures Told(r[i])
  {
    hide Apply, Enabled;
    if i > 0 {
      AlwaysTold(r, input, tools, i - 1);
      var step := StepTaken(r, input, tools, i - 1);
      StepTells(r[i - 1], input, tools, step);
    }
  }

  ghost predicate Failed(s: State) { s.abortRequested || s.abortPending }

  lemma FailedReadsNothing(s: State, input: seq<Incoming>, tools: set<string>, step: Step)
    requires Enabled(s, input, step) && Told(s) && Failed(s) && AbortKnown(s)
    ensures Failed(Apply(s, input, tools, step)) && |Apply(s, input, tools, step).slots| == |s.slots|
  {
    assert !step.Read? && !step.ReadAndFailToAnswer?;
    StepGrows(s, input, tools, step);
    if OfTask(step) { TaskShape(s, input, tools, step); } else { LoopShape(s, input, tools, step); }
    hide Apply;
  }

  /**
    After a failed write or a lost framing nothing more is read, whatever is still waiting,
    and running tasks are aborted as soon as the loop has left off reading.
   */
  lemma {:induction false} NothingIsReadAfterAFailure(
    r: seq<State>, input: seq<Incoming>, tools: set<string>, i: nat, j: nat)
    requires Run(r, input, tools) && i <= j < |r| && Failed(r[i])
    ensures Failed(r[j]) && |r[j].slots| == |r[i].slots|
    ensures r[j].phase != Reading && r[j].abortPending ==> r[j].aborting
  {
    hide Apply, Enabled, Inv;
    AlwaysTold(r, input, tools, j);
    if i < j {
      NothingIsReadAfterAFailure(r, input, tools, i, j - 1);
      RunKeepsInv(r, input, tools, j - 1);
      AbortIsKnown(r[j - 1], input, tools);
      AlwaysTold(r, input, tools, j - 1);
      var step := StepTaken(r, input, tools, j - 1);
      FailedReadsNothing(r[j - 1], input, tools, step);
    }
  }

  // --- Without a failure nothing is aborted ---------------------------------

  ghost predicate WellTaken(s: State, u: State, input: seq<Incoming>, tools: set<string>) {
    exists step: Step :: Enabled(s, input, step) && u == Apply(s, input, tools, step) && !Fails(s, input, step)
  }

  /** A run in which every write succeeds and the framing is never lost. */
  ghost predicate Faultless(r: seq<State>, input: seq<Incoming>, tools: set<string>) {
    && r != [] && r[0] == START
    && forall i :: 0 <= i < |r| - 1 ==> WellTaken(r[i], r[i + 1], input, tools)
  }

  ghost predicate Calm(s: State) {
    !s.abortRequested && !s.abortPending && !s.aborting && AbortPendingTasks !in s.control
  }

  lemma CalmStep(s: State, input: seq<Incoming>, tools: set<string>, step: Step)
    requires Enabled(s, input, step) && Calm(s) && !Fails(s, input, step)
    ensures Calm(Apply(s, input, tools, step))
  {
    FlagsOfStep(s, input, tools, step);
    if OfTask(step) { ControlAfter(s, input, tools, step); }
    else if step == Read { ReadFlags(s, input, tools); }
    else { LoopStops(s, input, tools, step); }
    assert !AbortTaken(s, step) && !step.NoticeAbort?;
    hide Apply, StopsReading, BreaksFraming;
  }

  lemma {:induction false} FaultlessIsCalm(r: seq<State>, input: seq<Incoming>, tools: set<string>, i: nat)
    requires Faultless(r, input, tools) && i < |r|
    ensures Calm(r[i])
  {
    hide Apply, Enabled, Fails;
    if i > 0 {
      FaultlessIsCalm(r, input, tools, i - 1);
      assert WellTaken(r[i - 1], r[i], input, tools);
      var step: Step :| Enabled(r[i - 1], input, step) && r[i] == Apply(r[i - 1], input, tools, step)
        && !Fails(r[i - 1], input, step);
      CalmStep(r[i - 1], input, tools, step);
    }
  }

  lemma FaultlessIsRun(r: seq<State>, input: seq<Incoming>, tools: set<string>)
    requires Faultless(r, input, tools)
    ensures Run(r, input, tools)
  {
    hide Apply, Enabled, Fails;
    forall i | 0 <= i < |r| - 1
      ensures Next(r[i], r[i + 1], input, tools)
    {
      assert WellTaken(r[i], r[i + 1], input, tools);
    }
  }

  /**
    When nothing fails, a server that is done has read everything, or all up to a shutdown,
    and has answered each message it read exactly as often as it is due, calls that were
    cancelled in time left out. It aborts no task.
   */
  lemma FaultlessRunAnswers(r: seq<State>, input: seq<Incoming>, tools: set<string>, i: nat, m: nat)
    requires Faultless(r, input, tools) && i < |r| && r[i].phase == Done && m < |r[i].slots|
    ensures |r[i].slots| == |input| || AsksToStop(input, |r[i].slots| - 1)
    ensures m < |input| && r[i].slots[m].Ended? && !r[i].slots[m].fate.Aborted?
    ensures WriteCount(r[i].output, m) ==
            if Due(input[m], tools) == [] || r[i].slots[m] == Ended(Withdrawn) then 0 else 1
    ensures r[i].slots[m] == Ended(Withdrawn) ==> RunsTool(input[m], tools) && m in r[i].cancelled
  {
    FaultlessIsRun(r, input, tools);
    FaultlessIsCalm(r, input, tools, i);
    RunKeepsInv(r, input, tools, i);
    ReadingStopsOnlyForCause(r, input, tools, i);
    AnsweredExactlyOnce(r, input, tools, i, m);
    assert MessageFits(r[i], input, tools, m);
    hide WriteCount, Due, RunsTool, Faultless, Run;
  }

  // --- A call cancelled in time ---------------------------------------------

  /** A tool call whose token is cancelled and whose tool has not finished, or that came to its end so. */
  ghost predicate Silenced(s: State, t: nat) {
    && t < |s.slots| && t in s.cancelled
    && s.slots[t] in {Live(Spawned), Live(Executing), Ended(Withdrawn), Ended(Aborted(false))}
  }

  lemma SilencedTask(s: State, input: seq<Incoming>, tools: set<string>, step: Step)
    requires Enabled(s, input, step) && OfTask(step) && Silenced(s, step.t)
    requires step.t < |input| && RunsTool(input[step.t], tools)
    ensures Silenced(Apply(s, input, tools, step), step.t)
  {
    TaskShape(s, input, tools, step);
    hide Close, SetSlot, Due, RunsTool;
    match step
    case Dispatch(t) => SetSlotShape(s, t, Live(Executing));
    case FinishTool(t) => CloseShape(s, input[t], t, Withdrawn);
    case Abort(t) => CloseShape(s, input[t], t, Aborted(false));
    case _ =>
  }

  lemma SilencedStays(s: State, input: seq<Incoming>, tools: set<string>, step: Step, t: nat)
    requires Enabled(s, input, step) && Silenced(s, t) && AbortKnown(s) && t < |input| && RunsTool(input[t], tools)
    ensures Silenced(Apply(s, input, tools, step), t)
  {
    hide Apply, RunsTool;
    if OfTask(step) && step.t == t {
      SilencedTask(s, input, tools, step);
    } else {
      StepGrows(s, input, tools, step);
      StepElsewhere(s, input, tools, step, t);
    }
  }

  lemma {:induction false} StaysSilenced(
    r: seq<State>, input: seq<Incoming>, tools: set<string>, i: nat, j: nat, t: nat)
    requires Run(r, input, tools) && i <= j < |r| && t < |input| && RunsTool(input[t], tools) && Silenced(r[i], t)
    ensures Silenced(r[j], t)
  {
    hide Apply, Enabled, Inv, Silenced, RunsTool;
    if i < j {
      StaysSilenced(r, input, tools, i, j - 1, t);
      RunKeepsInv(r, input, tools, j - 1);
      AbortIsKnown(r[j - 1], input, tools);
      var step := StepTaken(r, input, tools, j - 1);
      SilencedStays(r[j - 1], input, tools, step, t);
    }
  }

  /** A tool call cancelled before its tool has finished is never answered, whatever else happens. */
  lemma CancelledIsNotAnswered(r: seq<State>, input: seq<Incoming>, tools: set<string>, i: nat, j: nat, t: nat)
    requires Run(r, input, tools) && i <= j < |r| && t < |r[i].slots| && t in r[i].cancelled
    requires t < |input| && RunsTool(input[t], tools) && r[i].slots[t] in {Live(Spawned), Live(Executing)}
    ensures WriteCount(r[j].output, t) == 0
  {
    StaysSilenced(r, input, tools, i, j, t);
    RunKeepsInv(r, input, tools, j);
    assert MessageFits(r[j], input, tools, t);
    hide WriteCount, Due, RunsTool, Run;
  }
}
