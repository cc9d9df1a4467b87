/** That no call gets stuck: whoever holds the lock can let go of it, and everybody else can go
    on once it is free. */
module StorageProgress {
  import opened Common
  import opened Overlay
  import opened Serial
  import opened History
  import opened StorageSystem
  import opened StorageInvariant
  import opened StorageTiming
  import opened StorageCalls
  import Flush

  // A call that flushes in the critical section of its commit has the lock until it is over.
  ghost predicate KeepsLock(tasks: map<nat, Task>, writer: Option<nat>) {
    forall t | t in tasks && (tasks[t].DeleteAllCommitted? || tasks[t].TxnCommitted?) :: writer == Some(t)
  }

  lemma OneKeepsLock(s: State, r: State, t: nat)
    requires KeepsLock(s.tasks, s.writer) && OneChanges(s, r, Some(t))
    requires r.tasks[t].DeleteAllCommitted? || r.tasks[t].TxnCommitted? ==> r.writer == Some(t)
    requires forall u | u in s.tasks && u != t && s.writer == Some(u) :: r.writer == Some(u)
    ensures KeepsLock(r.tasks, r.writer)
  {
  }

  lemma CommitKeepsLock(s: State, step: Step)
    requires KeepsLock(s.tasks, s.writer) && Enabled(s, step)
    requires step.CommitPut? || step.CommitDelete? || step.CommitDeleteAll? || step.TxnValidate?
    ensures KeepsLock(Do(s, step).tasks, Do(s, step).writer)
  {
    CommitGoesOn(s, step);
    OneKeepsLock(s, Do(s, step), step.t);
  }

  lemma FlushKeepsLock(s: State, step: Step)
    requires KeepsLock(s.tasks, s.writer) && Enabled(s, step) && (step.BeginFlush? || step.FlushStep? || step.EndFlush?)
    ensures KeepsLock(Do(s, step).tasks, Do(s, step).writer)
  {
    FlushGoesOn(s, step);
    if !step.FlushStep? {
      OneKeepsLock(s, Do(s, step), step.t);
    }
  }

  lemma TxnKeepsLock(s: State, step: Step)
    requires KeepsLock(s.tasks, s.writer) && Enabled(s, step)
    requires step.TxnBegin? || step.InTxn? || step.TxnThrow? || step.TxnEndRolledBack?
    ensures KeepsLock(Do(s, step).tasks, Do(s, step).writer)
  {
    TxnGoesOn(s, step);
    OneKeepsLock(s, Do(s, step), step.t);
  }

  lemma StepKeepsLock(s: State, step: Step)
    requires KeepsLock(s.tasks, s.writer) && Enabled(s, step)
    ensures KeepsLock(Do(s, step).tasks, Do(s, step).writer)
  {
    if IsCall(step) {
      CallTasks(s, step);
    } else if step.EndCall? || step.InGet? {
      EndTasks(s, step);
    } else if step.CommitPut? || step.CommitDelete? || step.CommitDeleteAll? || step.TxnValidate? {
      CommitKeepsLock(s, step);
    } else if step.BeginFlush? || step.FlushStep? || step.EndFlush? {
      FlushKeepsLock(s, step);
    } else {
      TxnKeepsLock(s, step);
    }
  }

  lemma CallTasks(s: State, step: Step)
    requires Enabled(s, step) && IsCall(step)
    ensures Do(s, step).writer == s.writer && Do(s, step).tasks == s.tasks[s.nextTask := FirstTask(step)]
  {
    CallIs(s, step);
  }

  lemma EndTasks(s: State, step: Step)
    requires Enabled(s, step) && (step.EndCall? || step.InGet?)
    ensures Do(s, step).writer == s.writer && Do(s, step).tasks == if step.EndCall? then s.tasks - {step.t} else s.tasks
  {
    if step.EndCall? {
      assert DoEndCall(s, step.t).tasks == s.tasks - {step.t};
    } else {
      assert GetDo(s, step.id, step.part).tasks == s.tasks;
    }
  }

  lemma {:induction false} RunKeepsLock(init: Store, steps: seq<Step>)
    requires IsRun(Initial(init), steps)
    ensures KeepsLock(After(Initial(init), steps).tasks, After(Initial(init), steps).writer)
    decreases |steps|
  {
    if steps != [] {
      RunKeepsLock(init, steps[..|steps| - 1]);
      StepKeepsLock(After(Initial(init), steps[..|steps| - 1]), steps[|steps| - 1]);
    }
  }

  // Reads of transactions have a place for each of their keys.
  predicate ReadsShaped(x: Txn) {
    && (forall id | id in x.gets :: |x.gets[id].got| == |x.gets[id].keys|)
    && (x.deleting.Some? ==> |x.deleting.value.got| == |x.deleting.value.keys|)
  }

  ghost predicate TxnsShaped(tasks: map<nat, Task>) {
    forall t | t in tasks && tasks[t].TxnRunning? :: ReadsShaped(tasks[t].txn)
  }

  lemma InsideShaped(x: Txn, step: TxnStep, shadow: Copies, inner: Store)
    requires ReadsShaped(x) && TxnEnabled(x, step)
    ensures ReadsShaped(TxnDo(x, step, shadow, inner))
  {
  }

  lemma OneShaped(s: State, step: Step)
    requires TxnsShaped(s.tasks) && Enabled(s, step) && GoesOn(step)
    ensures TxnsShaped(Do(s, step).tasks)
  {
    OneGoesOn(s, step);
    if step.InTxn? {
      InsideShaped(s.tasks[step.t].txn, step.inside, s.disk.copies, s.disk.inner);
    }
  }

  lemma StepShaped(s: State, step: Step)
    requires TxnsShaped(s.tasks) && Enabled(s, step)
    ensures TxnsShaped(Do(s, step).tasks)
  {
    if IsCall(step) {
      CallTasks(s, step);
    } else if GoesOn(step) {
      OneShaped(s, step);
    } else {
      EndTasks(s, step);
    }
  }

  lemma {:induction false} RunShaped(init: Store, steps: seq<Step>)
    requires IsRun(Initial(init), steps)
    ensures TxnsShaped(After(Initial(init), steps).tasks)
    decreases |steps|
  {
    if steps != [] {
      RunShaped(init, steps[..|steps| - 1]);
      StepShaped(After(Initial(init), steps[..|steps| - 1]), steps[|steps| - 1]);
    }
  }

  // --- Everybody can go on -----------------------------------------------------------------------

  // A step of call t that does not give it up.
  predicate Forward(step: Step, t: nat) {
    !IsCall(step) && !step.InGet? && !step.FlushStep? && !step.TxnThrow? && step.t == t
  }

  // A step of the read of this number.
  predicate ForwardRead(step: Step, id: nat) {
    step.InGet? && step.id == id && !step.part.Ask?
  }

  lemma FetchOrEnd(p: Pending)
    requires |p.got| == |p.keys|
    ensures AllRead(p) || exists i: nat :: CanFetch(p, i)
  {
    if !AllRead(p) {
      var i: nat :| i < |p.got| && !p.got[i].Read?;
      assert CanFetch(p, i);
    }
  }

  lemma TxnForward(s: State, t: nat)
    requires Running(s, t) && ReadsShaped(s.tasks[t].txn) && LockFree(s) && s.disk.phase.Idle?
    ensures exists step :: Enabled(s, step) && Forward(step, t)
  {
    var x := s.tasks[t].txn;
    if x.deleting.Some? {
      FetchOrEnd(x.deleting.value);
      if AllRead(x.deleting.value) {
        assert Enabled(s, InTxn(t, DeleteEnd)) && Forward(InTxn(t, DeleteEnd), t);
      } else {
        var i: nat :| CanFetch(x.deleting.value, i);
        assert Enabled(s, InTxn(t, DeleteFetch(i))) && Forward(InTxn(t, DeleteFetch(i)), t);
      }
    } else if x.rolledBack {
      assert Enabled(s, TxnEndRolledBack(t)) && Forward(TxnEndRolledBack(t), t);
    } else {
      assert Enabled(s, TxnValidate(t)) && Forward(TxnValidate(t), t);
    }
  }

  lemma TaskForward(s: State, t: nat)
    requires t in s.tasks && !s.tasks[t].TxnRunning? && LockFree(s) && s.disk.phase.Idle?
    requires KeepsLock(s.tasks, s.writer) && (s.tasks[t].Ending? ==> t in s.calls && s.pendingFlushes > 0)
    ensures exists step :: Enabled(s, step) && Forward(step, t)
  {
    var step :=
      match s.tasks[t]
      case PutCalled(_) => CommitPut(t)
      case DeleteCalled(_) => CommitDelete(t)
      case DeleteAllCalled => CommitDeleteAll(t)
      case TxnCalled => TxnBegin(t)
      case Ending(_) => EndCall(t)
      case _ => BeginFlush(t);
    assert Enabled(s, step) && Forward(step, t);
  }

  // While nobody holds the lock, every unfinished call can go on, without being given up.
  lemma CallsGoOn(init: Store, steps: seq<Step>, t: nat)
    requires IsRun(Initial(init), steps) && LockFree(After(Initial(init), steps)) && t in After(Initial(init), steps).tasks
    ensures exists step :: Enabled(After(Initial(init), steps), step) && Forward(step, t)
  {
    RunInv(init, steps);
    RunTimely(init, steps);
    RunKeepsLock(init, steps);
    RunShaped(init, steps);
    CallGoesOn(init, After(Initial(init), steps), t);
  }

  lemma CallGoesOn(init: Store, s: State, t: nat)
    requires Inv(init, s) && Timely(s) && KeepsLock(s.tasks, s.writer) && TxnsShaped(s.tasks) && LockFree(s) && t in s.tasks
    ensures exists step :: Enabled(s, step) && Forward(step, t)
  {
    if s.tasks[t].TxnRunning? {
      TxnForward(s, t);
    } else {
      assert t in s.tasks.Keys && t in s.calls.Keys;
      TaskForward(s, t);
    }
  }

  // A read that was asked for can go on as long as no writer has the lock, so that readers
  // always let go of it.
  lemma ReadsGoOn(init: Store, steps: seq<Step>, id: nat)
    requires IsRun(Initial(init), steps) && id in After(Initial(init), steps).getCalls
    requires After(Initial(init), steps).writer.None? || After(Initial(init), steps).getCalls[id].Ended?
    ensures exists step :: Enabled(After(Initial(init), steps), step) && ForwardRead(step, id)
  {
    RunInv(init, steps);
    RunTimely(init, steps);
    ReadGoesOn(After(Initial(init), steps), id);
  }

  lemma ReadGoesOn(s: State, id: nat)
    requires Readers(s.readers, Flush.Logical(s.disk), s.disk.copies.Keys) && id in s.getCalls
    requires s.writer.None? || s.getCalls[id].Ended?
    requires id in s.readers ==> s.getCalls[id].Asked?
    ensures exists step :: Enabled(s, step) && ForwardRead(step, id)
  {
    if s.getCalls[id].Ended? {
      assert Enabled(s, InGet(id, Reply)) && ForwardRead(InGet(id, Reply), id);
    } else if id !in s.readers {
      assert Enabled(s, InGet(id, Begin)) && ForwardRead(InGet(id, Begin), id);
    } else {
      FetchOrEnd(s.readers[id]);
      if AllRead(s.readers[id]) {
        assert Enabled(s, InGet(id, End)) && ForwardRead(InGet(id, End), id);
      } else {
        var i: nat :| CanFetch(s.readers[id], i);
        assert Enabled(s, InGet(id, Fetch(i))) && ForwardRead(InGet(id, Fetch(i)), id);
      }
    }
  }

  // Inside a running transaction whose delete is over every operation may be asked for.
  lemma TransactionsMayWork(s: State, t: nat, keys: seq<Key>, entries: Store, id: nat)
    requires Running(s, t) && s.tasks[t].txn.deleting.None? && |keys| <= MAX_KEYS && |entries.Keys| <= MAX_KEYS
    ensures id !in s.tasks[t].txn.gets ==> Enabled(s, InTxn(t, GetBegin(id, keys)))
    ensures s.tasks[t].txn.gets == map[] ==> Enabled(s, InTxn(t, PutEntries(entries))) && Enabled(s, InTxn(t, DeleteBegin(keys)))
    ensures Enabled(s, InTxn(t, RollBack))
  {
  }
}
