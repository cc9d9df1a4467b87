/** What the backing store is sure to hold: the commits flushed so far, and with them every
    write that has been acknowledged. */
module StorageDurability {
  import opened Common
  import opened Overlay
  import opened Serial
  import opened History
  import opened StorageSystem
  import opened StorageInvariant
  import Flush

  ghost predicate WrittenSince(history: seq<Commit>, from: nat, k: Key) {
    exists i :: from <= i < |history| && k in history[i].writes
  }

  predicate Acknowledges(answer: Option<Answer>) {
    answer.Some? && !answer.value.Got?
  }

  // Copies are of keys written since the last flush ended, and between flushes the backing
  // store is the plain map there was then.
  ghost predicate Shadowed(init: Store, history: seq<Commit>, flushed: nat, disk: Flush.Disk) {
    && flushed <= |history|
    && (forall k | k in disk.copies :: WrittenSince(history, flushed, k))
    && (disk.phase.Idle? ==> disk.inner == StateAt(init, history, flushed))
  }

  ghost predicate AnswersFlushed(tasks: map<nat, Task>, outcomes: seq<Outcome>, flushed: nat) {
    && (forall t | t in tasks && tasks[t].Ending? && Acknowledges(tasks[t].answer) :: tasks[t].answer.value.at < flushed)
    && (forall i | 0 <= i < |outcomes| && !outcomes[i].answer.Got? :: outcomes[i].answer.at < flushed)
  }

  ghost predicate GetsOnly(getCalls: map<nat, GetCall>) {
    forall id | id in getCalls && getCalls[id].Ended? :: getCalls[id].answer.Got?
  }

  ghost predicate Kept(init: Store, s: State) {
    Shadowed(init, s.history, s.flushed, s.disk) && AnswersFlushed(s.tasks, s.outcomes, s.flushed) && GetsOnly(s.getCalls)
  }

  // --- Every step keeps it -----------------------------------------------------------------------

  lemma CommitShadowed(init: Store, history: seq<Commit>, flushed: nat, disk: Flush.Disk, c: Commit, disk': Flush.Disk)
    requires Shadowed(init, history, flushed, disk) && disk'.copies.Keys <= disk.copies.Keys + c.writes.Keys
    requires disk'.phase.Idle? ==> disk.phase.Idle? && disk'.inner == disk.inner
    ensures Shadowed(init, history + [c], flushed, disk')
  {
    var longer := history + [c];
    StateAtPrefix(init, history, c, flushed);
    forall k | k in disk'.copies ensures WrittenSince(longer, flushed, k) {
      if k in c.writes {
        assert longer[|history|] == c;
      } else {
        var i :| flushed <= i < |history| && k in history[i].writes;
        assert longer[i] == history[i];
      }
    }
  }

  // A call that does not end with an answer to a write.
  lemma TaskKept(tasks: map<nat, Task>, t: nat, task: Task, outcomes: seq<Outcome>, flushed: nat)
    requires AnswersFlushed(tasks, outcomes, flushed) && (task.Ending? ==> !Acknowledges(task.answer))
    ensures AnswersFlushed(tasks[t := task], outcomes, flushed)
  {
  }

  lemma CommitPutKept(init: Store, s: State, t: nat)
    requires Kept(init, s) && Enabled(s, CommitPut(t))
    ensures Kept(init, Do(s, CommitPut(t)))
  {
    var entries, r := s.tasks[t].entries, Do(s, CommitPut(t));
    TaskKept(s.tasks, t, PutCommitted(entries, |s.history|), s.outcomes, s.flushed);
    CommitShadowed(init, s.history, s.flushed, s.disk, Commit(Puts(entries), entries.Keys, FromPut(entries)), r.disk);
  }

  lemma CommitDeleteKept(init: Store, s: State, t: nat)
    requires Kept(init, s) && Enabled(s, CommitDelete(t))
    ensures Kept(init, Do(s, CommitDelete(t)))
  {
    var keys, r := s.tasks[t].keys, Do(s, CommitDelete(t));
    TaskKept(s.tasks, t, r.tasks[t], s.outcomes, s.flushed);
    CommitShadowed(init, s.history, s.flushed, s.disk, Commit(Deletes(ToSet(keys)), ToSet(keys), FromDelete(keys)), r.disk);
  }

  lemma CommitDeleteAllKept(init: Store, s: State, t: nat)
    requires Kept(init, s) && Enabled(s, CommitDeleteAll(t))
    ensures Kept(init, Do(s, CommitDeleteAll(t)))
  {
    var names, r := Flush.Logical(s.disk).Keys, Do(s, CommitDeleteAll(t));
    TaskKept(s.tasks, t, DeleteAllCommitted(|s.history|), s.outcomes, s.flushed);
    CommitShadowed(init, s.history, s.flushed, s.disk, Commit(Deletes(names), names, FromDeleteAll), r.disk);
  }

  lemma ValidateKept(init: Store, s: State, t: nat)
    requires Kept(init, s) && Enabled(s, TxnValidate(t))
    ensures Kept(init, Do(s, TxnValidate(t)))
  {
    var x := s.tasks[t].txn;
    var r := DoValidate(s, t, x);
    TaskKept(s.tasks, t, r.tasks[t], s.outcomes, s.flushed);
    if Validates(s.txnWriteSets, x.start, s.txnCount, x.readSet) {
      CommitShadowed(init, s.history, s.flushed, s.disk, Commit(x.copies, x.writeSet, FromTxn(x.log)), r.disk);
    }
  }

  lemma FlushKept(init: Store, s: State, step: Flush.Step)
    requires Inv(init, s) && Kept(init, s) && Flush.Enabled(s.disk, step)
    ensures Kept(init, s.(disk := Flush.Do(s.disk, step)))
  {
    Flush.StepInv(s.disk, step);
    Flush.StepShrinks(s.disk, step);
  }

  // A flush that ends has made the backing store the plain map of all commits so far.
  lemma FlushedAll(init: Store, history: seq<Commit>, disk: Flush.Disk)
    requires Flush.Inv(disk) && disk.phase.Finished? && Flush.Logical(disk) == StateAt(init, history, |history|)
    ensures disk.copies == map[] && disk.inner == StateAt(init, history, |history|)
  {
    ViewEmpty(disk.inner);
  }

  lemma AnswerPlace(task: Task, t: nat, results: map<nat, nat>)
    ensures var answer := AnswerOf(task, t, results);
            answer.Some? ==> IsCommitted(task) && !answer.value.Got? && answer.value.at == task.at
  {
  }

  lemma MoreFlushed(tasks: map<nat, Task>, t: nat, task: Task, outcomes: seq<Outcome>, flushed: nat, flushed': nat)
    requires AnswersFlushed(tasks, outcomes, flushed) && flushed <= flushed'
    requires task.Ending? && Acknowledges(task.answer) ==> task.answer.value.at < flushed'
    ensures AnswersFlushed(tasks[t := task], outcomes, flushed')
  {
  }

  lemma EndFlushKept(init: Store, s: State, t: nat)
    requires Inv(init, s) && Kept(init, s) && Enabled(s, EndFlush(t))
    ensures Kept(init, Do(s, EndFlush(t)))
  {
    FlushedAll(init, s.history, s.disk);
    AnswerPlace(s.tasks[t], t, s.disk.results);
    MoreFlushed(s.tasks, t, Ending(AnswerOf(s.tasks[t], t, s.disk.results)), s.outcomes, s.flushed, |s.history|);
  }

  lemma EndCallKept(init: Store, s: State, t: nat)
    requires Kept(init, s) && Enabled(s, EndCall(t))
    ensures Kept(init, Do(s, EndCall(t)))
  {
  }

  lemma LockKept(init: Store, s: State, step: Step)
    requires Inv(init, s) && Kept(init, s) && Enabled(s, step) && IsLockStep(step)
    ensures Kept(init, Do(s, step))
  {
    match step
    case CommitPut(t) => CommitPutKept(init, s, t);
    case CommitDelete(t) => CommitDeleteKept(init, s, t);
    case CommitDeleteAll(t) => CommitDeleteAllKept(init, s, t);
    case BeginFlush(_) =>
    case FlushStep(inside) => FlushKept(init, s, inside);
    case EndFlush(t) => EndFlushKept(init, s, t);
    case EndCall(t) => EndCallKept(init, s, t);
  }

  lemma CallKept(init: Store, s: State, task: Task)
    requires Kept(init, s) && !task.Ending?
    ensures Kept(init, Call(s, task))
  {
    TaskKept(s.tasks, s.nextTask, task, s.outcomes, s.flushed);
  }

  lemma TxnKept(init: Store, s: State, t: nat, task: Task)
    requires Kept(init, s) && (task.Ending? ==> task.answer.None?)
    ensures Kept(init, SetTask(s, t, task))
  {
    TaskKept(s.tasks, t, task, s.outcomes, s.flushed);
  }

  lemma GetKept(init: Store, s: State, id: nat, part: GetStep)
    requires Kept(init, s) && GetEnabled(s, id, part)
    ensures Kept(init, GetDo(s, id, part))
  {
  }

  lemma StepKept(init: Store, s: State, step: Step)
    requires Inv(init, s) && Kept(init, s) && Enabled(s, step)
    ensures Kept(init, Do(s, step))
  {
    if IsLockStep(step) {
      LockKept(init, s, step);
    } else {
      match step
      case CallPut(entries) => CallKept(init, s, PutCalled(entries));
      case CallDelete(keys) => CallKept(init, s, DeleteCalled(keys));
      case CallDeleteAll => CallKept(init, s, DeleteAllCalled);
      case CallTransaction => CallKept(init, s, TxnCalled);
      case TxnBegin(t) => TxnKept(init, s, t, TxnRunning(NewTxn(s)));
      case InTxn(t, inside) => TxnKept(init, s, t, TxnRunning(TxnDo(s.tasks[t].txn, inside, s.disk.copies, s.disk.inner)));
      case TxnThrow(t) => TxnKept(init, s, t, Ending(None));
      case TxnEndRolledBack(t) => TxnKept(init, s, t, Ending(None));
      case TxnValidate(t) => ValidateKept(init, s, t);
      case InGet(id, part) => GetKept(init, s, id, part);
    }
  }

  lemma {:induction false} RunKept(init: Store, steps: seq<Step>)
    requires IsRun(Initial(init), steps)
    ensures Kept(init, After(Initial(init), steps))
    decreases |steps|
  {
    if steps != [] {
      var before := steps[..|steps| - 1];
      RunKept(init, before);
      RunInv(init, before);
      StepKept(init, After(Initial(init), before), steps[|steps| - 1]);
    }
  }

  // --- What commits leave alone ------------------------------------------------------------------

  lemma CommitLeaves(init: Store, history: seq<Commit>, n: nat, k: Key)
    requires n < |history| && CommitOkAt(init, history, n) && k !in history[n].writes
    ensures Lookup(StateAt(init, history, n + 1), k) == Lookup(StateAt(init, history, n), k)
  {
    ViewElsewhere(history[n].writes, StateAt(init, history, n), k);
  }

  lemma ViewElsewhere(copies: Copies, inner: Store, k: Key)
    requires k !in copies
    ensures Lookup(View(copies, inner), k) == Lookup(inner, k)
  {
  }

  lemma {:induction false} UnwrittenStays(init: Store, history: seq<Commit>, low: nat, high: nat, k: Key)
    requires HistoryOk(init, history) && low <= high <= |history|
    requires forall i | low <= i < high :: k !in history[i].writes
    ensures Lookup(StateAt(init, history, high), k) == Lookup(StateAt(init, history, low), k)
    decreases high
  {
    if low < high {
      UnwrittenStays(init, history, low, high - 1, k);
      assert CommitOkAt(init, history, high - 1);
      CommitLeaves(init, history, high - 1, k);
    }
  }

  // A key that nobody wrote after a flushed commit is in the backing store as that left it.
  lemma FlushedHolds(init: Store, history: seq<Commit>, flushed: nat, disk: Flush.Disk, at: nat, k: Key)
    requires HistoryOk(init, history) && Flush.Logical(disk) == StateAt(init, history, |history|)
    requires Shadowed(init, history, flushed, disk) && at < flushed
    requires forall j | at < j < |history| :: k !in history[j].writes
    ensures Lookup(disk.inner, k) == Lookup(StateAt(init, history, at + 1), k)
  {
    UnwrittenStays(init, history, at + 1, |history|, k);
    assert k !in disk.copies;
    ViewElsewhere(disk.copies, disk.inner, k);
  }
}
