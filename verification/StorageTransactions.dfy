/** That a transaction that commits ran the operations its closure asked for, and was not rolled
    back. */
module StorageTransactions {
  import opened Common
  import opened Overlay
  import opened Serial
  import opened History
  import opened StorageSystem
  import opened StorageInvariant
  import opened StorageCalls
  import Flush

  // What a closure has been seen to ask of its transaction: the operations finished, in order,
  // the keys of those begun, the keys it had to read and those it asked to write, whether it
  // asked to roll back, and the number of commits when it began.
  datatype Wanted = Wanted(ops: seq<Op>, gets: map<nat, seq<Key>>, deleting: Option<seq<Key>>,
                           keysRead: set<Key>, keysWritten: set<Key>, rolledBack: bool, since: nat)

  const NOTHING := Wanted([], map[], None, {}, {}, false, 0)

  // `refused` tells that a delete was refused for too many keys, which finishes it at once.
  function Want(w: Wanted, step: TxnStep, refused: bool): Wanted {
    match step
    case GetBegin(id, keys) => w.(gets := w.gets[id := keys], keysRead := w.keysRead + set k | k in keys)
    case GetFetch(_, _) => w
    case GetEnd(id) => if id in w.gets then w.(ops := w.ops + [GetMany(w.gets[id])], gets := w.gets - {id}) else w
    case PutEntries(entries) => w.(ops := w.ops + [PutMany(entries)], keysWritten := w.keysWritten + entries.Keys)
    case DeleteBegin(keys) =>
      var asked := set k | k in keys;
      if refused then w.(ops := w.ops + [DeleteMany(keys)], keysWritten := w.keysWritten + asked)
      else w.(deleting := Some(keys), keysRead := w.keysRead + asked, keysWritten := w.keysWritten + asked)
    case DeleteFetch(_) => w
    case DeleteEnd => if w.deleting.Some? then w.(ops := w.ops + [DeleteMany(w.deleting.value)], deleting := None) else w
    case RollBack => w.(rolledBack := true)
  }

  // What was asked of transaction t in this run since it last began.
  ghost function WantedOf(init: Store, steps: seq<Step>, t: nat): Wanted
    requires IsRun(Initial(init), steps)
    decreases |steps|
  {
    if steps == [] then NOTHING
    else
      var before, step := steps[..|steps| - 1], steps[|steps| - 1];
      WantedAfter(WantedOf(init, before, t), step, After(Initial(init), steps), t)
  }

  // What a step that led to this state adds.
  function WantedAfter(w: Wanted, step: Step, s: State, t: nat): Wanted {
    if step == TxnBegin(t) then NOTHING.(since := |s.history|)
    else if step.InTxn? && step.t == t then Want(w, step.inside, Running(s, t) && s.tasks[t].txn.deleting.None?)
    else w
  }

  ghost predicate DoesWanted(x: Txn, w: Wanted) {
    && Ops(x.log) == w.ops && x.rolledBack == w.rolledBack && x.readSet == w.keysRead && x.writeSet == w.keysWritten && x.start == w.since
    && x.gets.Keys == w.gets.Keys && (forall id | id in x.gets :: x.gets[id].keys == w.gets[id])
    && (x.deleting.Some? <==> w.deleting.Some?) && (x.deleting.Some? ==> x.deleting.value.keys == w.deleting.value)
  }

  predicate RanWanted(answer: Answer, w: Wanted) {
    answer.Written? && answer.origin.FromTxn? ==> Ops(answer.origin.log) == w.ops && !w.rolledBack
  }

  ghost predicate TaskWanted(task: Task, w: Wanted) {
    && (task.TxnRunning? ==> DoesWanted(task.txn, w))
    && (task.TxnCommitted? ==> Ops(task.log) == w.ops && !w.rolledBack)
    && (task.Ending? && task.answer.Some? ==> RanWanted(task.answer.value, w))
  }

  ghost predicate AsWanted(s: State, t: nat, w: Wanted) {
    && (t in s.tasks ==> TaskWanted(s.tasks[t], w))
    && (forall i | 0 <= i < |s.outcomes| && s.outcomes[i].call == t :: RanWanted(s.outcomes[i].answer, w))
    && (t in s.getCalls && s.getCalls[t].Ended? ==> s.getCalls[t].answer.Got?)
  }

  lemma LogMore(log: seq<Event>, e: Event)
    ensures Ops(log + [e]) == Ops(log) + [e.op]
  {
    ExtendLog(map[], log, e);
  }

  lemma InsideWanted(x: Txn, w: Wanted, step: TxnStep, shadow: Copies, inner: Store)
    requires DoesWanted(x, w) && TxnEnabled(x, step)
    ensures var x' := TxnDo(x, step, shadow, inner); DoesWanted(x', Want(w, step, x'.deleting.None?))
  {
    if step.GetBegin? || step.GetFetch? || step.GetEnd? {
      GetInside(x, w, step, shadow, inner);
    } else {
      WriteInside(x, w, step, shadow, inner);
    }
  }

  lemma GetInside(x: Txn, w: Wanted, step: TxnStep, shadow: Copies, inner: Store)
    requires DoesWanted(x, w) && TxnEnabled(x, step) && (step.GetBegin? || step.GetFetch? || step.GetEnd?)
    ensures var x' := TxnDo(x, step, shadow, inner); DoesWanted(x', Want(w, step, x'.deleting.None?))
  {
    if step.GetEnd? {
      LogMore(x.log, TxnDo(x, step, shadow, inner).log[|x.log|]);
    }
  }

  lemma WriteInside(x: Txn, w: Wanted, step: TxnStep, shadow: Copies, inner: Store)
    requires DoesWanted(x, w) && TxnEnabled(x, step) && !step.GetBegin? && !step.GetFetch? && !step.GetEnd?
    ensures var x' := TxnDo(x, step, shadow, inner); DoesWanted(x', Want(w, step, x'.deleting.None?))
  {
    var x' := TxnDo(x, step, shadow, inner);
    if x'.log != x.log {
      LogMore(x.log, x'.log[|x.log|]);
    }
  }

  // A step of this call that gives no answer yet.
  lemma OwnStep(s: State, s': State, t: nat, w: Wanted, w': Wanted)
    requires Numbered(s) && AsWanted(s, t, w) && t in s.tasks && t in s'.tasks && TaskWanted(s'.tasks[t], w')
    requires s'.outcomes == s.outcomes && s'.getCalls == s.getCalls
    ensures AsWanted(s', t, w')
  {
    forall i | 0 <= i < |s.outcomes| ensures s.outcomes[i].call != t {
      assert IsOver(s, s.outcomes[i].call);
    }
  }

  lemma GoesOnWanted(s: State, t: nat, w: Wanted, step: Step)
    requires Numbered(s) && s.txnCount == |s.history| && AsWanted(s, t, w) && Enabled(s, step) && GoesOn(step)
    ensures AsWanted(Do(s, step), t, WantedAfter(w, step, Do(s, step), t))
  {
    var r := Do(s, step);
    OneGoesOn(s, step);
    if OneOf(step) == Some(t) {
      TaskGoesOn(s, t, w, step);
      OwnStep(s, r, t, w, WantedAfter(w, step, r, t));
    } else {
      OthersStep(s, r, t, w, OneOf(step));
    }
  }

  // A step of another call.
  lemma OthersStep(s: State, s': State, t: nat, w: Wanted, one: Option<nat>)
    requires AsWanted(s, t, w) && OneChanges(s, s', one) && one != Some(t)
    ensures AsWanted(s', t, w)
  {
  }

  lemma TaskGoesOn(s: State, t: nat, w: Wanted, step: Step)
    requires t in s.tasks && s.txnCount == |s.history| && TaskWanted(s.tasks[t], w) && Enabled(s, step) && GoesOn(step) && OneOf(step) == Some(t)
    ensures t in Do(s, step).tasks && TaskWanted(Do(s, step).tasks[t], WantedAfter(w, step, Do(s, step), t))
  {
    if step.InTxn? {
      InsideWanted(s.tasks[t].txn, w, step.inside, s.disk.copies, s.disk.inner);
    }
  }

  lemma EndCallWanted(s: State, t: nat, w: Wanted, u: nat)
    requires AsWanted(s, t, w) && Enabled(s, EndCall(u))
    ensures AsWanted(DoEndCall(s, u), t, w)
  {
  }

  lemma GetWanted(s: State, t: nat, w: Wanted, id: nat, part: GetStep)
    requires AsWanted(s, t, w) && GetEnabled(s, id, part)
    ensures AsWanted(GetDo(s, id, part), t, w)
  {
  }

  lemma CallWanted(s: State, t: nat, w: Wanted, task: Task)
    requires AsWanted(s, t, w) && !task.TxnRunning? && !task.TxnCommitted? && !task.Ending?
    ensures AsWanted(Call(s, task), t, w)
  {
    NewTaskWanted(s, Call(s, task), t, w, s.nextTask, task);
  }

  lemma NewTaskWanted(s: State, s': State, t: nat, w: Wanted, u: nat, task: Task)
    requires AsWanted(s, t, w) && !task.TxnRunning? && !task.TxnCommitted? && !task.Ending?
    requires s'.tasks == s.tasks[u := task] && s'.outcomes == s.outcomes && s'.getCalls == s.getCalls
    ensures AsWanted(s', t, w)
  {
  }

  lemma StepWanted(s: State, t: nat, w: Wanted, step: Step)
    requires Numbered(s) && s.txnCount == |s.history| && AsWanted(s, t, w) && Enabled(s, step)
    ensures AsWanted(Do(s, step), t, WantedAfter(w, step, Do(s, step), t))
  {
    if IsCall(step) {
      CallIs(s, step);
      CallWanted(s, t, w, FirstTask(step));
    } else if step.EndCall? {
      EndCallWanted(s, t, w, step.t);
    } else if step.InGet? {
      GetWanted(s, t, w, step.id, step.part);
    } else {
      GoesOnWanted(s, t, w, step);
    }
  }

  lemma {:induction false} RunWanted(init: Store, steps: seq<Step>, t: nat)
    requires IsRun(Initial(init), steps)
    ensures AsWanted(After(Initial(init), steps), t, WantedOf(init, steps, t))
    decreases |steps|
  {
    if steps != [] {
      var before := steps[..|steps| - 1];
      RunWanted(init, before, t);
      RunNumbered(init, before);
      RunInv(init, before);
      StepWanted(After(Initial(init), before), t, WantedOf(init, before, t), steps[|steps| - 1]);
    }
  }

  // A transaction that committed, whether it has been answered yet or not, ran in order just
  // the operations that its closure asked for since it last began, and did not roll back.
  lemma TransactionRan(init: Store, steps: seq<Step>, t: nat)
    requires IsRun(Initial(init), steps)
    ensures var s, w := After(Initial(init), steps), WantedOf(init, steps, t);
            && (t in s.tasks && s.tasks[t].TxnCommitted? ==> Ops(s.tasks[t].log) == w.ops && !w.rolledBack)
            && forall i | 0 <= i < |s.outcomes| && s.outcomes[i].call == t && s.outcomes[i].answer.Written?
                          && s.outcomes[i].answer.origin.FromTxn? ::
                 Ops(s.outcomes[i].answer.origin.log) == w.ops && !w.rolledBack
  {
    RunWanted(init, steps, t);
  }
}
