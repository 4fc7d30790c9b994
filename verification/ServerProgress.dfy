/** The server always goes on until it is done, and it is done after a bounded number of steps. */
module ServerProgress {
  import opened Wrappers
  import opened JsonRpc
  import opened ServerLoop
  import opened ServerCalls
  import opened ServerStop

  /** The most a message can still need once it has been read. */
  function Cost(m: Incoming): nat { if m.Received? && m.message.Batch? then 3 + |m.message.items| else 4 }

  function Unread(input: seq<Incoming>, k: nat): nat
    decreases |input| - k
  {
    if k >= |input| then 0 else 2 * Cost(input[k]) + 1 + Unread(input, k + 1)
  }

  function Rank(phase: Phase): nat {
    match phase
    case Reading => 2
    case Draining => 1
    case Done => 0
  }

  /** What is left to do at most. */
  function Total(s: State, input: seq<Incoming>): nat
    requires |s.slots| <= |input|
  {
    2 * Work(s.slots, input) + Unread(input, |s.slots|) + Rank(s.phase) + if s.aborting then 0 else 1
  }

  lemma WorkSnoc(slots: seq<Slot>, input: seq<Incoming>, slot: Slot)
    requires |slots| < |input|
    ensures Work(slots + [slot], input) == Work(slots, input) + Left(slot, input[|slots|])
  {
    assert (slots + [slot])[..|slots|] == slots;
  }

  lemma ReadCosts(s: State, m: Incoming, tools: set<string>)
    ensures var u := AfterRead(s, m, tools);
      |u.slots| == |s.slots| + 1 && u.slots[..|s.slots|] == s.slots && Left(u.slots[|s.slots|], m) <= Cost(m)
    ensures var u := AfterRead(s, m, tools); u.phase == s.phase || u.phase == Draining
  {
    hide ReadTask, ReadNotification, ReadError;
    NotificationShape(s, m, tools);
    ReadTaskShape(s, m, Spawned);
    ReadTaskShape(s, m, Batching(0, []));
    ErrorShape(s, m, tools);
  }

  lemma ReadShortens(s: State, input: seq<Incoming>, tools: set<string>)
    requires Inv(s, input, tools) && Enabled(s, input, Read)
    ensures var u := Apply(s, input, tools, Read); |u.slots| <= |input| && Total(u, input) < Total(s, input)
  {
    var n := |s.slots|;
    var u := Apply(s, input, tools, Read);
    AbortIsKnown(s, input, tools);
    LoopShape(s, input, tools, Read);
    ReadCosts(s, input[n], tools);
    hide AfterRead, Inv, Left, Cost, Work;
    assert u.slots == s.slots + [u.slots[n]];
    WorkSnoc(s.slots, input, u.slots[n]);
  }

  /** Every step, whoever takes it, brings the end nearer. */
  lemma StepShortens(s: State, input: seq<Incoming>, tools: set<string>, step: Step)
    requires Inv(s, input, tools) && Enabled(s, input, step)
    ensures var u := Apply(s, input, tools, step); |u.slots| <= |input| && Total(u, input) < Total(s, input)
  {
    var u := Apply(s, input, tools, step);
    if step.Read? {
      ReadShortens(s, input, tools);
    } else if OfTask(step) {
      TaskShape(s, input, tools, step);
      LeftDecreases(s, input, tools, step);
      WorkUpdate(s.slots, input, step.t, u.slots[step.t]);
      hide Apply, Left, Work, Inv;
    } else {
      LoopShortens(s, input, tools, step);
    }
  }

  lemma LoopShortens(s: State, input: seq<Incoming>, tools: set<string>, step: Step)
    requires Inv(s, input, tools) && Enabled(s, input, step) && !OfTask(step) && !step.Read?
    ensures var u := Apply(s, input, tools, step); |u.slots| <= |input| && Total(u, input) < Total(s, input)
  {
    AbortIsKnown(s, input, tools);
    hide Due, AfterRead, Inv, Work, Cost;
    assert |s.slots| <= |input| by { SlotsWithinInput(s, input, tools); }
    if step.ReadAndFailToAnswer? { WorkSnoc(s.slots, input, Ended(Lost)); }
  }

  lemma SlotsWithinInput(s: State, input: seq<Incoming>, tools: set<string>)
    requires Inv(s, input, tools)
    ensures |s.slots| <= |input|
  {
    hide MessageFits, Due;
  }

  /** Until the server is done there is a step to take: reading what comes next, or the drain. */
  lemma AlwaysAStep(s: State, input: seq<Incoming>, tools: set<string>) returns (step: Step)
    requires Inv(s, input, tools) && s.phase != Done
    ensures Enabled(s, input, step)
  {
    SlotsWithinInput(s, input, tools);
    if s.phase == Reading {
      step := if s.control != [] then TakeControl else if |s.slots| < |input| then Read else ReadEof;
    } else {
      step := DrainIsNeverStuck(s, input, tools);
    }
  }

  /** While it reads and no task has asked it to stop, the next message is read, whatever it is. */
  lemma NextIsRead(s: State, input: seq<Incoming>)
    requires s.phase == Reading && s.control == []
    ensures |s.slots| < |input| ==> Enabled(s, input, Read)
    ensures |s.slots| == |input| ==> Enabled(s, input, ReadEof)
  {
  }

  lemma {:induction false} StepsAreCounted(r: seq<State>, input: seq<Incoming>, tools: set<string>, i: nat)
    requires Run(r, input, tools) && i < |r|
    ensures |r[i].slots| <= |input| && Total(r[i], input) + i <= Total(START, input)
  {
    hide Apply, Enabled, Inv, Total;
    if i > 0 {
      StepsAreCounted(r, input, tools, i - 1);
      RunKeepsInv(r, input, tools, i - 1);
      var step := StepTaken(r, input, tools, i - 1);
      StepShortens(r[i - 1], input, tools, step);
    }
  }

  ghost predicate Stuck(s: State, input: seq<Incoming>) {
    forall step: Step {:trigger Enabled(s, input, step)} :: !Enabled(s, input, step)
  }

  /**
    On any input and in any interleaving the server comes to its end: a run has no
    more steps than the input allows for, and one that cannot go on is done.
   */
  lemma EveryRunEnds(r: seq<State>, input: seq<Incoming>, tools: set<string>)
    requires Run(r, input, tools)
    ensures |r| <= Unread(input, 0) + 4
    ensures Stuck(r[|r| - 1], input) ==> r[|r| - 1].phase == Done
  {
    var last := r[|r| - 1];
    StepsAreCounted(r, input, tools, |r| - 1);
    RunKeepsInv(r, input, tools, |r| - 1);
    assert Total(START, input) == Unread(input, 0) + 3;
    hide Inv, Apply, Enabled, Total;
    if last.phase != Done { var step := AlwaysAStep(last, input, tools); }
  }
}
