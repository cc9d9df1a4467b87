/** That every call gets the answer to what it asked for, and at most one. */
module StorageCalls {
  import opened Common
  import opened Overlay
  import opened Serial
  import opened History
  import opened StorageSystem
  import opened StorageInvariant
  import opened StorageTiming
  import Flush

  // Each call has a number of its own and is answered at most once.
  ghost predicate Numbered(s: State) {
    && (forall t | t in s.tasks :: t < s.nextTask && t !in s.getCalls)
    && (forall id | id in s.getCalls :: id < s.nextTask)
    && (forall i | 0 <= i < |s.outcomes| :: IsOver(s, s.outcomes[i].call))
    && AnsweredOnce(s.outcomes)
  }

  predicate IsOver(s: State, t: nat) {
    t < s.nextTask && t !in s.tasks && t !in s.getCalls
  }

  ghost predicate AnsweredOnce(outcomes: seq<Outcome>) {
    forall i, j | 0 <= i < j < |outcomes| :: outcomes[i].call != outcomes[j].call
  }

  lemma AnswerNumbered(s: State, s': State, o: Outcome)
    requires Numbered(s) && (o.call in s.tasks || o.call in s.getCalls)
    requires s'.tasks.Keys == s.tasks.Keys - {o.call} && s'.getCalls.Keys == s.getCalls.Keys - {o.call}
    requires s'.nextTask == s.nextTask && s'.outcomes == s.outcomes + [o]
    ensures Numbered(s')
  {
    forall i | 0 <= i < |s'.outcomes| ensures IsOver(s', s'.outcomes[i].call) {
      assert i < |s.outcomes| ==> IsOver(s, s.outcomes[i].call);
    }
    forall i | 0 <= i < |s.outcomes| ensures s.outcomes[i].call != o.call {
      assert IsOver(s, s.outcomes[i].call);
    }
  }

  // Steps that make, end or forget calls but give no answer.
  lemma SilentNumbered(s: State, s': State)
    requires Numbered(s) && s.nextTask <= s'.nextTask && s'.outcomes == s.outcomes
    requires forall t | t in s'.tasks :: t in s.tasks || (s.nextTask <= t < s'.nextTask && t !in s'.getCalls)
    requires forall id | id in s'.getCalls :: id in s.getCalls || s.nextTask <= id < s'.nextTask
    ensures Numbered(s')
  {
    forall i | 0 <= i < |s'.outcomes| ensures IsOver(s', s'.outcomes[i].call) {
      assert IsOver(s, s.outcomes[i].call);
    }
    forall t | t in s'.tasks ensures t < s'.nextTask && t !in s'.getCalls {
    }
  }

  lemma EndCallNumbered(s: State, t: nat)
    requires Numbered(s) && Enabled(s, EndCall(t))
    ensures Numbered(DoEndCall(s, t))
  {
    if s.tasks[t].answer.Some? {
      AnswerNumbered(s, DoEndCall(s, t), Outcome(t, s.tasks[t].answer.value, s.calls[t], |s.history|));
    } else {
      SilentNumbered(s, DoEndCall(s, t));
    }
  }

  lemma GetNumbered(s: State, id: nat, part: GetStep)
    requires Numbered(s) && GetEnabled(s, id, part)
    ensures part.End? ==> id in s.getCalls
    ensures Numbered(GetDo(s, id, part))
  {
    if part.Reply? {
      AnswerNumbered(s, GetDo(s, id, part), Outcome(id, s.getCalls[id].answer, s.getCalls[id].called, |s.history|));
    } else {
      SilentNumbered(s, GetDo(s, id, part));
    }
  }

  function FirstTask(step: Step): Task
    requires IsCall(step)
  {
    match step
    case CallPut(entries) => PutCalled(entries)
    case CallDelete(keys) => DeleteCalled(keys)
    case CallDeleteAll => DeleteAllCalled
    case CallTransaction => TxnCalled
  }

  lemma CallIs(s: State, step: Step)
    requires IsCall(step) && Enabled(s, step)
    ensures Do(s, step) == Call(s, FirstTask(step))
  {
  }

  lemma CallNumbered(s: State, task: Task)
    requires Numbered(s)
    ensures Numbered(Call(s, task))
  {
    SilentNumbered(s, Call(s, task));
  }

  // All other steps let one call go on, or none.
  predicate GoesOn(step: Step) {
    !step.EndCall? && !step.InGet? && !IsCall(step)
  }

  // The call that a step is of.
  function OneOf(step: Step): Option<nat>
    requires GoesOn(step)
  {
    if step.FlushStep? then None else Some(step.t)
  }

  predicate OneChanges(s: State, r: State, one: Option<nat>) {
    && r.nextTask == s.nextTask && r.outcomes == s.outcomes && r.getCalls == s.getCalls
    && match one case None => r.tasks == s.tasks case Some(t) => t in s.tasks && t in r.tasks && r.tasks == s.tasks[t := r.tasks[t]]
  }

  lemma OneGoesOn(s: State, step: Step)
    requires Enabled(s, step) && GoesOn(step)
    ensures OneChanges(s, Do(s, step), OneOf(step))
  {
    if step.CommitPut? || step.CommitDelete? || step.CommitDeleteAll? || step.TxnValidate? {
      CommitGoesOn(s, step);
    } else if step.BeginFlush? || step.FlushStep? || step.EndFlush? {
      FlushGoesOn(s, step);
    } else {
      TxnGoesOn(s, step);
    }
  }

  lemma CommitGoesOn(s: State, step: Step)
    requires Enabled(s, step) && (step.CommitPut? || step.CommitDelete? || step.CommitDeleteAll? || step.TxnValidate?)
    ensures OneChanges(s, Do(s, step), Some(step.t))
  {
    match step
    case CommitPut(t) => PutGoesOn(s, t);
    case CommitDelete(t) => DeleteGoesOn(s, t);
    case CommitDeleteAll(t) => DeleteAllGoesOn(s, t);
    case TxnValidate(t) => ValidateGoesOn(s, t);
  }

  lemma PutGoesOn(s: State, t: nat)
    requires Enabled(s, CommitPut(t))
    ensures OneChanges(s, Do(s, CommitPut(t)), Some(t))
  {
  }

  lemma DeleteGoesOn(s: State, t: nat)
    requires Enabled(s, CommitDelete(t))
    ensures OneChanges(s, Do(s, CommitDelete(t)), Some(t))
  {
  }

  lemma DeleteAllGoesOn(s: State, t: nat)
    requires Enabled(s, CommitDeleteAll(t))
    ensures OneChanges(s, Do(s, CommitDeleteAll(t)), Some(t))
  {
  }

  lemma ValidateGoesOn(s: State, t: nat)
    requires Enabled(s, TxnValidate(t))
    ensures OneChanges(s, Do(s, TxnValidate(t)), Some(t))
  {
  }

  lemma FlushGoesOn(s: State, step: Step)
    requires Enabled(s, step) && (step.BeginFlush? || step.FlushStep? || step.EndFlush?)
    ensures OneChanges(s, Do(s, step), if step.FlushStep? then None else Some(step.t))
  {
  }

  lemma TxnGoesOn(s: State, step: Step)
    requires Enabled(s, step) && (step.TxnBegin? || step.InTxn? || step.TxnThrow? || step.TxnEndRolledBack?)
    ensures OneChanges(s, Do(s, step), Some(step.t))
  {
  }

  lemma GoesOnNumbered(s: State, s': State)
    requires Numbered(s) && s'.tasks.Keys == s.tasks.Keys
    requires s'.nextTask == s.nextTask && s'.outcomes == s.outcomes && s'.getCalls == s.getCalls
    ensures Numbered(s')
  {
    SilentNumbered(s, s');
  }

  lemma StepNumbered(s: State, step: Step)
    requires Numbered(s) && Enabled(s, step)
    ensures Numbered(Do(s, step))
  {
    if IsCall(step) {
      CallIs(s, step);
      CallNumbered(s, FirstTask(step));
    } else if step.EndCall? {
      EndCallNumbered(s, step.t);
    } else if step.InGet? {
      GetNumbered(s, step.id, step.part);
    } else {
      OneGoesOn(s, step);
      GoesOnNumbered(s, Do(s, step));
    }
  }

  lemma {:induction false} RunNumbered(init: Store, steps: seq<Step>)
    requires IsRun(Initial(init), steps)
    ensures Numbered(After(Initial(init), steps))
    decreases |steps|
  {
    if steps != [] {
      RunNumbered(init, steps[..|steps| - 1]);
      StepNumbered(After(Initial(init), steps[..|steps| - 1]), steps[|steps| - 1]);
    }
  }

  // --- The answer to a call -----------------------------------------------------------------------

  predicate MakesCall(step: Step) {
    IsCall(step) || (step.InGet? && step.part.Ask?)
  }

  // Whether this is an answer to what the call asked for.
  predicate Replies(call: Step, answer: Answer)
    requires MakesCall(call)
  {
    match call
    case CallPut(entries) => answer.Written? && answer.origin == FromPut(entries)
    case CallDelete(keys) => answer.Deleted? && answer.keys == keys
    case CallDeleteAll => answer.Written? && answer.origin == FromDeleteAll
    case CallTransaction => answer.Written? && answer.origin.FromTxn?
    case InGet(_, part) => answer.Got? && answer.keys == part.keys
  }

  // Whether the call is being worked on.
  predicate Works(call: Step, task: Task)
    requires IsCall(call)
  {
    if task.Ending? then (if task.answer.Some? then Replies(call, task.answer.value) else call.CallTransaction?)
    else
      match call
      case CallPut(entries) => task == PutCalled(entries) || (task.PutCommitted? && task.entries == entries)
      case CallDelete(keys) => task == DeleteCalled(keys) || (task.DeleteCommitted? && task.keys == keys)
      case CallDeleteAll => task.DeleteAllCalled? || task.DeleteAllCommitted?
      case CallTransaction => task.TxnCalled? || task.TxnRunning? || task.TxnCommitted?
  }

  predicate Reads(call: Step, g: GetCall) {
    call.InGet? && call.part.Ask? && if g.Asked? then g.keys == call.part.keys else Replies(call, g.answer)
  }

  predicate IsAnswered(outcomes: seq<Outcome>, t: nat) {
    exists i :: 0 <= i < |outcomes| && outcomes[i].call == t
  }

  // The call of number t is being worked on, or has been answered; only a transaction may also
  // have thrown or been rolled back.
  ghost predicate Served(s: State, t: nat, call: Step)
    requires MakesCall(call)
  {
    && t < s.nextTask
    && (t in s.tasks ==> IsCall(call) && Works(call, s.tasks[t]))
    && (t in s.getCalls ==> Reads(call, s.getCalls[t]))
    && (forall i | 0 <= i < |s.outcomes| && s.outcomes[i].call == t :: Replies(call, s.outcomes[i].answer))
    && (t in s.tasks || t in s.getCalls || IsAnswered(s.outcomes, t) || call.CallTransaction?)
  }

  lemma CallServed(s: State, call: Step)
    requires Numbered(s) && MakesCall(call) && Enabled(s, call)
    ensures Served(Do(s, call), s.nextTask, call)
  {
    if IsCall(call) {
      CallIs(s, call);
      NewCallServed(s, call);
    } else {
      NewReadServed(s, call);
    }
  }

  lemma NewCallServed(s: State, call: Step)
    requires Numbered(s) && IsCall(call)
    ensures Served(Call(s, FirstTask(call)), s.nextTask, call)
  {
    NextUnused(s);
  }

  lemma NewReadServed(s: State, call: Step)
    requires Numbered(s) && call.InGet? && call.part.Ask? && GetEnabled(s, call.id, call.part)
    ensures Served(GetDo(s, call.id, call.part), s.nextTask, call)
  {
    NextUnused(s);
  }

  lemma NextUnused(s: State)
    requires Numbered(s)
    ensures s.nextTask !in s.tasks && s.nextTask !in s.getCalls
    ensures forall i | 0 <= i < |s.outcomes| :: s.outcomes[i].call != s.nextTask
  {
    forall i | 0 <= i < |s.outcomes| ensures s.outcomes[i].call < s.nextTask {
      assert IsOver(s, s.outcomes[i].call);
    }
  }

  // The call goes on, or others do.
  lemma TaskServed(s: State, s': State, t: nat, call: Step)
    requires MakesCall(call) && Served(s, t, call) && s.nextTask <= s'.nextTask && s'.outcomes == s.outcomes
    requires t in s'.tasks <==> t in s.tasks
    requires t in s'.tasks && s'.tasks[t] != s.tasks[t] ==> Works(call, s'.tasks[t])
    requires t in s'.getCalls <==> t in s.getCalls
    requires t in s'.getCalls && s'.getCalls[t] != s.getCalls[t] ==> Reads(call, s'.getCalls[t])
    ensures Served(s', t, call)
  {
  }

  lemma MoreAnswers(outcomes: seq<Outcome>, o: Outcome, t: nat)
    ensures IsAnswered(outcomes + [o], t) <==> IsAnswered(outcomes, t) || o.call == t
  {
    var longer := outcomes + [o];
    if i :| 0 <= i < |outcomes| && outcomes[i].call == t {
      assert longer[i].call == t;
    }
    if o.call == t {
      assert longer[|outcomes|].call == t;
    }
  }

  // An answer is given to this call or another.
  lemma AnswerServed(s: State, s': State, t: nat, call: Step, o: Outcome)
    requires MakesCall(call) && Served(s, t, call) && s'.nextTask == s.nextTask && s'.outcomes == s.outcomes + [o]
    requires s'.tasks == s.tasks - {o.call} && s'.getCalls == s.getCalls - {o.call}
    requires o.call == t ==> Replies(call, o.answer)
    ensures Served(s', t, call)
  {
    MoreAnswers(s.outcomes, o, t);
  }

  lemma EndCallServed(s: State, t: nat, call: Step, u: nat)
    requires Numbered(s) && MakesCall(call) && Served(s, t, call) && Enabled(s, EndCall(u))
    ensures Served(DoEndCall(s, u), t, call)
  {
    if s.tasks[u].answer.Some? {
      assert s.getCalls - {u} == s.getCalls;
      AnswerServed(s, DoEndCall(s, u), t, call, Outcome(u, s.tasks[u].answer.value, s.calls[u], |s.history|));
    }
  }

  lemma GetServed(s: State, t: nat, call: Step, id: nat, part: GetStep)
    requires Timely(s) && Numbered(s) && MakesCall(call) && Served(s, t, call) && GetEnabled(s, id, part)
    ensures Served(GetDo(s, id, part), t, call)
  {
    if part.Reply? {
      assert id !in s.tasks && s.tasks - {id} == s.tasks;
      AnswerServed(s, GetDo(s, id, part), t, call, Outcome(id, s.getCalls[id].answer, s.getCalls[id].called, |s.history|));
    } else {
      TaskServed(s, GetDo(s, id, part), t, call);
    }
  }

  lemma EndFlushServed(init: Store, s: State, t: nat, call: Step, u: nat)
    requires Inv(init, s) && MakesCall(call) && Served(s, t, call) && Enabled(s, EndFlush(u))
    ensures Served(DoEndFlush(s, u), t, call)
  {
    assert IsCommitted(s.tasks[u]);
    TaskServed(s, DoEndFlush(s, u), t, call);
  }

  lemma OtherCallServed(s: State, t: nat, call: Step, task: Task)
    requires MakesCall(call) && Served(s, t, call)
    ensures Served(Call(s, task), t, call)
  {
    TaskServed(s, Call(s, task), t, call);
  }

  // What a step that is not the end of a flush makes of the call it is of.
  lemma WorkGoesOn(s: State, call: Step, step: Step)
    requires Enabled(s, step) && GoesOn(step) && !step.EndFlush? && OneOf(step).Some? && IsCall(call)
    requires step.t in s.tasks && Works(call, s.tasks[step.t])
    ensures step.t in Do(s, step).tasks && Works(call, Do(s, step).tasks[step.t])
  {
  }

  lemma GoesOnServed(s: State, t: nat, call: Step, step: Step)
    requires MakesCall(call) && Served(s, t, call) && Enabled(s, step) && GoesOn(step) && !step.EndFlush?
    ensures Served(Do(s, step), t, call)
  {
    OneGoesOn(s, step);
    if OneOf(step) == Some(t) {
      WorkGoesOn(s, call, step);
    }
    TaskServed(s, Do(s, step), t, call);
  }

  lemma StepServed(init: Store, s: State, t: nat, call: Step, step: Step)
    requires Inv(init, s) && Timely(s) && Numbered(s) && MakesCall(call) && Served(s, t, call) && Enabled(s, step)
    ensures Served(Do(s, step), t, call)
  {
    if IsCall(step) {
      CallIs(s, step);
      OtherCallServed(s, t, call, FirstTask(step));
    } else if step.EndCall? {
      EndCallServed(s, t, call, step.t);
    } else if step.InGet? {
      GetServed(s, t, call, step.id, step.part);
    } else if step.EndFlush? {
      EndFlushServed(init, s, t, call, step.t);
    } else {
      GoesOnServed(s, t, call, step);
    }
  }

  lemma {:induction false} RunServed(init: Store, before: seq<Step>, call: Step, more: seq<Step>)
    requires MakesCall(call) && IsRun(Initial(init), before + [call] + more)
    ensures IsRun(Initial(init), before)
    ensures Served(After(Initial(init), before + [call] + more), After(Initial(init), before).nextTask, call)
    decreases |more|
  {
    var steps := before + [call] + more;
    var prior := steps[..|steps| - 1];
    if more == [] {
      assert prior == before;
      RunNumbered(init, before);
      CallServed(After(Initial(init), before), call);
    } else {
      assert prior == before + [call] + more[..|more| - 1];
      RunServed(init, before, call, more[..|more| - 1]);
      NextServed(init, prior, After(Initial(init), before).nextTask, call, steps[|steps| - 1]);
    }
  }

  lemma NextServed(init: Store, steps: seq<Step>, t: nat, call: Step, step: Step)
    requires IsRun(Initial(init), steps) && MakesCall(call) && Served(After(Initial(init), steps), t, call)
    requires Enabled(After(Initial(init), steps), step)
    ensures Served(Do(After(Initial(init), steps), step), t, call)
  {
    RunInv(init, steps);
    RunTimely(init, steps);
    RunNumbered(init, steps);
    StepServed(init, After(Initial(init), steps), t, call, step);
  }

  // A call that has been made is being worked on until it is answered, and every answer it
  // gets, at most one, is to what it asked for: a put to the put of its entries, a delete and a
  // get for their keys. Only a transaction may end without an answer.
  lemma AnswersTheCall(init: Store, before: seq<Step>, call: Step, more: seq<Step>)
    requires MakesCall(call) && IsRun(Initial(init), before + [call] + more)
    ensures IsRun(Initial(init), before)
    ensures Served(After(Initial(init), before + [call] + more), After(Initial(init), before).nextTask, call)
    ensures AnsweredOnce(After(Initial(init), before + [call] + more).outcomes)
  {
    RunServed(init, before, call, more);
    RunNumbered(init, before + [call] + more);
  }
}
