/** When calls take their place in the serial order: between being made and being answered. */
module StorageTiming {
  import opened Common
  import opened Overlay
  import opened Serial
  import opened History
  import opened StorageSystem
  import opened StorageInvariant

  // Answers handed out before a call was made had been handed out when there were no more
  // commits than at the call.
  ghost predicate CalledOk(c: Called, outcomes: seq<Outcome>, commits: nat) {
    && c.commits <= commits && c.answers <= |outcomes|
    && forall k | 0 <= k < c.answers :: outcomes[k].answered <= c.commits
  }

  // A call that commits does so after it was made and before it is answered. A read has the
  // values of a moment in between.
  predicate InTime(c: Called, a: Answer, commits: nat) {
    c.commits <= a.at && if a.Got? then a.at <= commits else a.at < commits
  }

  ghost predicate CallsTimely(calls: map<nat, Called>, tasks: map<nat, Task>, outcomes: seq<Outcome>, commits: nat) {
    && calls.Keys == tasks.Keys
    && (forall t | t in calls :: CalledOk(calls[t], outcomes, commits))
    && (forall t | t in tasks :: TaskTimely(calls, t, tasks[t], commits))
  }

  ghost predicate TaskTimely(calls: map<nat, Called>, t: nat, task: Task, commits: nat) {
    && t in calls
    && (IsCommitted(task) ==> calls[t].commits <= task.at < commits)
    && (task.Ending? && task.answer.Some? ==> InTime(calls[t], task.answer.value, commits))
  }

  ghost predicate GetsTimely(getCalls: map<nat, GetCall>, readers: map<nat, Pending>, outcomes: seq<Outcome>, commits: nat) {
    && (forall id | id in getCalls :: CalledOk(getCalls[id].called, outcomes, commits))
    && (forall id | id in getCalls && getCalls[id].Ended? :: InTime(getCalls[id].called, getCalls[id].answer, commits))
    && (forall id | id in readers :: id in getCalls && getCalls[id].Asked? && readers[id].keys == getCalls[id].keys)
  }

  ghost predicate OutcomeTimely(outcomes: seq<Outcome>, i: nat, commits: nat)
    requires i < |outcomes|
  {
    var o := outcomes[i];
    && o.answered <= commits && o.called.answers <= i
    && InTime(o.called, o.answer, o.answered) && CalledOk(o.called, outcomes, o.answered)
  }

  ghost predicate OutcomesTimely(outcomes: seq<Outcome>, commits: nat) {
    forall i | 0 <= i < |outcomes| :: OutcomeTimely(outcomes, i, commits)
  }

  ghost predicate Timely(s: State) {
    && CallsTimely(s.calls, s.tasks, s.outcomes, |s.history|)
    && GetsTimely(s.getCalls, s.readers, s.outcomes, |s.history|)
    && OutcomesTimely(s.outcomes, |s.history|)
    && (forall id | id in s.getCalls :: id < s.nextTask)
  }

  // --- Every step keeps it -----------------------------------------------------------------------

  lemma NowOk(s: State)
    requires Timely(s)
    ensures CalledOk(Now(s), s.outcomes, |s.history|)
  {
    forall k | 0 <= k < |s.outcomes| ensures s.outcomes[k].answered <= |s.history| {
      assert OutcomeTimely(s.outcomes, k, |s.history|);
    }
  }

  lemma CallAdded(calls: map<nat, Called>, tasks: map<nat, Task>, t: nat, c: Called, task: Task, outcomes: seq<Outcome>, commits: nat)
    requires CallsTimely(calls, tasks, outcomes, commits) && CalledOk(c, outcomes, commits)
    requires !IsCommitted(task) && !task.Ending?
    ensures CallsTimely(calls[t := c], tasks[t := task], outcomes, commits)
  {
    var calls', tasks' := calls[t := c], tasks[t := task];
    assert calls'.Keys == tasks'.Keys;
    forall o | o in tasks' ensures TaskTimely(calls', o, tasks'[o], commits) {
      assert o in tasks ==> TaskTimely(calls, o, tasks[o], commits);
    }
  }

  lemma CallTimely(s: State, task: Task)
    requires Timely(s) && !IsCommitted(task) && !task.Ending?
    ensures Timely(Call(s, task))
  {
    NowOk(s);
    CallAdded(s.calls, s.tasks, s.nextTask, Now(s), task, s.outcomes, |s.history|);
  }

  // One call goes on, and there may be one more commit.
  lemma TaskSetTimely(s: State, t: nat, task: Task, commits: nat)
    requires Timely(s) && t in s.tasks && |s.history| <= commits && TaskTimely(s.calls, t, task, commits)
    ensures CallsTimely(s.calls, s.tasks[t := task], s.outcomes, commits)
    ensures GetsTimely(s.getCalls, s.readers, s.outcomes, commits) && OutcomesTimely(s.outcomes, commits)
  {
    var tasks' := s.tasks[t := task];
    assert tasks'.Keys == s.tasks.Keys;
    forall o | o in tasks' ensures TaskTimely(s.calls, o, tasks'[o], commits) {
      assert TaskTimely(s.calls, o, s.tasks[o], |s.history|);
    }
    forall i | 0 <= i < |s.outcomes| ensures OutcomeTimely(s.outcomes, i, commits) {
      assert OutcomeTimely(s.outcomes, i, |s.history|);
    }
  }

  lemma OutcomeAdded(outcomes: seq<Outcome>, o: Outcome, commits: nat)
    requires OutcomesTimely(outcomes, commits) && CalledOk(o.called, outcomes, commits)
    requires InTime(o.called, o.answer, commits) && o.answered == commits
    ensures OutcomesTimely(outcomes + [o], commits)
    ensures forall c | CalledOk(c, outcomes, commits) :: CalledOk(c, outcomes + [o], commits)
  {
    var longer := outcomes + [o];
    forall i | 0 <= i < |longer| ensures OutcomeTimely(longer, i, commits) {
      assert i < |outcomes| ==> OutcomeTimely(outcomes, i, commits);
    }
  }

  lemma EndCallTimely(s: State, t: nat)
    requires Timely(s) && Enabled(s, EndCall(t))
    ensures Timely(DoEndCall(s, t))
  {
    var s' := DoEndCall(s, t);
    assert TaskTimely(s.calls, t, s.tasks[t], |s.history|);
    if s.tasks[t].answer.Some? {
      OutcomeAdded(s.outcomes, Outcome(t, s.tasks[t].answer.value, s.calls[t], |s.history|), |s.history|);
    }
    assert s'.calls.Keys == s'.tasks.Keys;
    forall o | o in s'.tasks ensures TaskTimely(s'.calls, o, s'.tasks[o], |s.history|) {
      assert TaskTimely(s.calls, o, s.tasks[o], |s.history|);
    }
  }

  lemma GetTimely(s: State, id: nat, part: GetStep)
    requires Timely(s) && GetEnabled(s, id, part)
    ensures Timely(GetDo(s, id, part))
  {
    if part.Ask? {
      NowOk(s);
    } else if part.Reply? {
      OutcomeAdded(s.outcomes, Outcome(id, s.getCalls[id].answer, s.getCalls[id].called, |s.history|), |s.history|);
    }
  }

  lemma CommitTimely(s: State, step: Step)
    requires Timely(s) && Enabled(s, step) && (step.CommitPut? || step.CommitDelete? || step.CommitDeleteAll? || step.TxnValidate?)
    ensures Timely(Do(s, step))
  {
    assert TaskTimely(s.calls, step.t, s.tasks[step.t], |s.history|);
    TaskSetTimely(s, step.t, Do(s, step).tasks[step.t], |Do(s, step).history|);
  }

  lemma EndFlushTimely(s: State, t: nat)
    requires Timely(s) && Enabled(s, EndFlush(t))
    ensures Timely(Do(s, EndFlush(t)))
  {
    assert TaskTimely(s.calls, t, s.tasks[t], |s.history|);
    TaskSetTimely(s, t, Do(s, EndFlush(t)).tasks[t], |s.history|);
  }

  lemma TxnTimely(s: State, step: Step)
    requires Timely(s) && Enabled(s, step) && (step.TxnBegin? || step.InTxn? || step.TxnThrow? || step.TxnEndRolledBack?)
    ensures Timely(Do(s, step))
  {
    assert TaskTimely(s.calls, step.t, s.tasks[step.t], |s.history|);
    TaskSetTimely(s, step.t, Do(s, step).tasks[step.t], |s.history|);
  }

  lemma StepTimely(s: State, step: Step)
    requires Timely(s) && Enabled(s, step)
    ensures Timely(Do(s, step))
  {
    match step
    case CallPut(entries) => CallTimely(s, PutCalled(entries));
    case CallDelete(keys) => CallTimely(s, DeleteCalled(keys));
    case CallDeleteAll => CallTimely(s, DeleteAllCalled);
    case CallTransaction => CallTimely(s, TxnCalled);
    case CommitPut(t) => CommitTimely(s, step);
    case CommitDelete(t) => CommitTimely(s, step);
    case CommitDeleteAll(t) => CommitTimely(s, step);
    case BeginFlush(t) =>
    case FlushStep(_) =>
    case EndFlush(t) => EndFlushTimely(s, t);
    case EndCall(t) => EndCallTimely(s, t);
    case TxnBegin(t) => TxnTimely(s, step);
    case InTxn(t, inside) => TxnTimely(s, step);
    case TxnThrow(t) => TxnTimely(s, step);
    case TxnEndRolledBack(t) => TxnTimely(s, step);
    case TxnValidate(t) => CommitTimely(s, step);
    case InGet(id, part) => GetTimely(s, id, part);
  }

  lemma {:induction false} RunTimely(init: Store, steps: seq<Step>)
    requires IsRun(Initial(init), steps)
    ensures Timely(After(Initial(init), steps))
    decreases |steps|
  {
    if steps != [] {
      RunTimely(init, steps[..|steps| - 1]);
      StepTimely(After(Initial(init), steps[..|steps| - 1]), steps[|steps| - 1]);
    }
  }

  // --- Every call has a place of its own -------------------------------------------------------------

  predicate HasPlace(task: Task) {
    IsCommitted(task) || (task.Ending? && task.answer.Some? && !task.answer.value.Got?)
  }

  function PlaceOf(task: Task): nat
    requires HasPlace(task)
  {
    if task.Ending? then task.answer.value.at else task.at
  }

  ghost predicate TasksApart(tasks: map<nat, Task>) {
    forall t, u | t in tasks && u in tasks && t != u && HasPlace(tasks[t]) && HasPlace(tasks[u]) ::
      PlaceOf(tasks[t]) != PlaceOf(tasks[u])
  }

  ghost predicate AnswersApart(outcomes: seq<Outcome>) {
    forall i, j | 0 <= i < j < |outcomes| && !outcomes[i].answer.Got? && !outcomes[j].answer.Got? ::
      outcomes[i].answer.at != outcomes[j].answer.at
  }

  ghost predicate Unanswered(outcomes: seq<Outcome>, at: nat) {
    forall i | 0 <= i < |outcomes| && !outcomes[i].answer.Got? :: outcomes[i].answer.at != at
  }

  ghost predicate Apart(tasks: map<nat, Task>, outcomes: seq<Outcome>) {
    && TasksApart(tasks) && AnswersApart(outcomes)
    && forall t | t in tasks && HasPlace(tasks[t]) :: Unanswered(outcomes, PlaceOf(tasks[t]))
  }

  // A call without a place, or one that keeps its own, leaves the places apart.
  lemma TaskSetApart(tasks: map<nat, Task>, outcomes: seq<Outcome>, t: nat, task: Task)
    requires Apart(tasks, outcomes)
    requires HasPlace(task) ==> t in tasks && HasPlace(tasks[t]) && PlaceOf(task) == PlaceOf(tasks[t])
    ensures Apart(tasks[t := task], outcomes)
  {
  }

  // So does a call that takes the next place.
  lemma NewPlaceApart(s: State, t: nat, task: Task)
    requires Timely(s) && Apart(s.tasks, s.outcomes) && t in s.tasks && HasPlace(task) && PlaceOf(task) == |s.history|
    ensures Apart(s.tasks[t := task], s.outcomes)
  {
    forall u | u in s.tasks && HasPlace(s.tasks[u]) ensures PlaceOf(s.tasks[u]) < |s.history| {
      assert TaskTimely(s.calls, u, s.tasks[u], |s.history|);
    }
    forall i | 0 <= i < |s.outcomes| && !s.outcomes[i].answer.Got? ensures s.outcomes[i].answer.at < |s.history| {
      assert OutcomeTimely(s.outcomes, i, |s.history|);
    }
  }

  lemma AnswerApart(tasks: map<nat, Task>, outcomes: seq<Outcome>, t: nat, o: Outcome)
    requires Apart(tasks, outcomes) && t in tasks && tasks[t].Ending? && tasks[t].answer == Some(o.answer)
    ensures Apart(tasks - {t}, outcomes + [o])
  {
  }

  lemma ReadApart(tasks: map<nat, Task>, outcomes: seq<Outcome>, o: Outcome)
    requires Apart(tasks, outcomes) && o.answer.Got?
    ensures Apart(tasks, outcomes + [o])
  {
  }

  lemma GetApart(s: State, id: nat, part: GetStep)
    requires Timely(s) && Apart(s.tasks, s.outcomes) && GetEnabled(s, id, part) && ReadsGot(s.getCalls)
    ensures Apart(GetDo(s, id, part).tasks, GetDo(s, id, part).outcomes) && ReadsGot(GetDo(s, id, part).getCalls)
  {
    if part.Reply? {
      ReadApart(s.tasks, s.outcomes, Outcome(id, s.getCalls[id].answer, s.getCalls[id].called, |s.history|));
    }
  }

  predicate ReadsGot(getCalls: map<nat, GetCall>) {
    forall id | id in getCalls && getCalls[id].Ended? :: getCalls[id].answer.Got?
  }

  lemma CommitApart(s: State, step: Step)
    requires Timely(s) && Apart(s.tasks, s.outcomes) && Enabled(s, step)
    requires step.CommitPut? || step.CommitDelete? || step.CommitDeleteAll? || step.TxnValidate?
    ensures Apart(Do(s, step).tasks, Do(s, step).outcomes)
  {
    var task := Do(s, step).tasks[step.t];
    if HasPlace(task) {
      NewPlaceApart(s, step.t, task);
    } else {
      TaskSetApart(s.tasks, s.outcomes, step.t, task);
    }
  }

  lemma EndCallApart(s: State, t: nat)
    requires Apart(s.tasks, s.outcomes) && Enabled(s, EndCall(t))
    ensures Apart(DoEndCall(s, t).tasks, DoEndCall(s, t).outcomes)
  {
    if s.tasks[t].answer.Some? {
      AnswerApart(s.tasks, s.outcomes, t, Outcome(t, s.tasks[t].answer.value, s.calls[t], |s.history|));
    }
  }

  lemma GoOnApart(s: State, step: Step)
    requires Apart(s.tasks, s.outcomes) && Enabled(s, step)
    requires step.TxnBegin? || step.InTxn? || step.TxnThrow? || step.TxnEndRolledBack? || step.EndFlush?
    ensures Apart(Do(s, step).tasks, Do(s, step).outcomes)
  {
    TaskSetApart(s.tasks, s.outcomes, step.t, Do(s, step).tasks[step.t]);
  }

  lemma CallApart(s: State, task: Task)
    requires Apart(s.tasks, s.outcomes) && !HasPlace(task)
    ensures Apart(Call(s, task).tasks, Call(s, task).outcomes)
  {
    TaskSetApart(s.tasks, s.outcomes, s.nextTask, task);
  }

  lemma StepApart(s: State, step: Step)
    requires Timely(s) && Apart(s.tasks, s.outcomes) && ReadsGot(s.getCalls) && Enabled(s, step)
    ensures Apart(Do(s, step).tasks, Do(s, step).outcomes) && ReadsGot(Do(s, step).getCalls)
  {
    if step.CallPut? {
      CallApart(s, PutCalled(step.entries));
    } else if step.CallDelete? {
      CallApart(s, DeleteCalled(step.keys));
    } else if step.CallDeleteAll? || step.CallTransaction? {
      CallApart(s, if step.CallDeleteAll? then DeleteAllCalled else TxnCalled);
    } else if step.CommitPut? || step.CommitDelete? || step.CommitDeleteAll? || step.TxnValidate? {
      CommitApart(s, step);
    } else if step.EndCall? {
      EndCallApart(s, step.t);
    } else if step.InGet? {
      GetApart(s, step.id, step.part);
    } else if !step.BeginFlush? && !step.FlushStep? {
      GoOnApart(s, step);
    }
  }

  lemma {:induction false} RunApart(init: Store, steps: seq<Step>)
    requires IsRun(Initial(init), steps)
    ensures var s := After(Initial(init), steps); Apart(s.tasks, s.outcomes) && ReadsGot(s.getCalls)
    decreases |steps|
  {
    if steps != [] {
      RunApart(init, steps[..|steps| - 1]);
      RunTimely(init, steps[..|steps| - 1]);
      StepApart(After(Initial(init), steps[..|steps| - 1]), steps[|steps| - 1]);
    }
  }
}
