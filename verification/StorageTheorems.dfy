/** What the storage promises its callers, over every run of the step system. */
module StorageTheorems {
  import opened Common
  import opened Overlay
  import opened Serial
  import opened History
  import opened StorageSystem
  import opened StorageInvariant
  import opened StorageTiming
  import opened StorageDurability
  import Flush

  // Serializability: each committed transaction got the replies, and wrote the values, that
  // the same operations get when run alone on the plain map left by the commits before it;
  // puts, deletes and deleteAll take their place in the same order; and what the overlay
  // shows now is that serial order's last state.
  lemma Serializable(init: Store, steps: seq<Step>, c: nat)
    requires IsRun(Initial(init), steps) && c < |After(Initial(init), steps).history|
    ensures var s := After(Initial(init), steps);
            && Flush.Logical(s.disk) == StateAt(init, s.history, |s.history|)
            && View(s.history[c].writes, StateAt(init, s.history, c)) == StateAt(init, s.history, c + 1)
            && (s.history[c].origin.FromTxn? ==>
                  var log := s.history[c].origin.log;
                  && RunAlone(StateAt(init, s.history, c), Ops(log)).1 == Replies(log)
                  && RunAlone(StateAt(init, s.history, c), Ops(log)).0.m == StateAt(init, s.history, c + 1))
            && TakesEffect(StateAt(init, s.history, c), s.history[c].origin, StateAt(init, s.history, c + 1))
  {
    RunInv(init, steps);
    var s := After(Initial(init), steps);
    assert CommitOkAt(init, s.history, c);
    EffectTaken(StateAt(init, s.history, c), s.history[c].origin);
  }

  // What a put, a delete and a deleteAll do to a plain map, key by key.
  ghost predicate TakesEffect(m: Store, origin: Origin, m': Store) {
    match origin
    case FromPut(entries) => forall k :: Lookup(m', k) == if k in entries then Some(entries[k]) else Lookup(m, k)
    case FromDelete(keys) => forall k :: Lookup(m', k) == if k in keys then None else Lookup(m, k)
    case FromDeleteAll => forall k :: Lookup(m', k) == None
    case FromTxn(_) => true
  }

  lemma EffectTaken(m: Store, origin: Origin)
    ensures TakesEffect(m, origin, SerialEffect(m, origin))
  {
  }

  // What a finished call's answer ought to be: the operation of a put, deleteAll or committed
  // transaction is in the serial order; a delete counts the distinct keys it was given that
  // the plain map held just before its commit; a get has the values at one commit count.
  ghost predicate AnsweredRight(init: Store, history: seq<Commit>, answer: Answer) {
    match answer
    case Deleted(keys, count, at) =>
      && at < |history| && history[at].origin == FromDelete(keys)
      && count == |set k | k in keys && k in StateAt(init, history, at)|
    case Written(origin, at) =>
      at < |history| && history[at].origin == origin
    case Got(keys, values, at) =>
      && at <= |history| && |values| == |keys|
      && forall j | 0 <= j < |keys| :: values[j] == Lookup(StateAt(init, history, at), keys[j])
  }

  // Every call that has finished was answered right, with its place in the serial order
  // between the moment it was made and the moment it was answered.
  lemma AnswersExact(init: Store, steps: seq<Step>, i: nat)
    requires IsRun(Initial(init), steps) && i < |After(Initial(init), steps).outcomes|
    ensures var s := After(Initial(init), steps);
            var o := s.outcomes[i];
            && AnsweredRight(init, s.history, o.answer)
            && o.called.commits <= o.answer.at <= o.answered <= |s.history|
            && (!o.answer.Got? ==> o.answer.at < o.answered)
  {
    RunInv(init, steps);
    RunTimely(init, steps);
    var s := After(Initial(init), steps);
    assert AnswerOk(init, s.history, s.outcomes[i].answer);
    AnswerExact(init, s.history, s.outcomes[i].answer);
    assert OutcomeTimely(s.outcomes, i, |s.history|);
  }

  lemma AnswerExact(init: Store, history: seq<Commit>, answer: Answer)
    requires AnswerOk(init, history, answer)
    ensures AnsweredRight(init, history, answer)
  {
    if answer.Deleted? {
      var m := StateAt(init, history, answer.at);
      assert Found(m, ToSet(answer.keys)) == set k | k in answer.keys && k in m;
    }
  }

  // The serial order agrees with real time: a call made after another was answered comes
  // after it, and reads the state it left or a later one.
  lemma RealTimeOrder(init: Store, steps: seq<Step>, i: nat, j: nat)
    requires IsRun(Initial(init), steps) && j < |After(Initial(init), steps).outcomes|
    requires i < After(Initial(init), steps).outcomes[j].called.answers
    ensures var outcomes := After(Initial(init), steps).outcomes;
            && i < j && outcomes[i].answer.at <= outcomes[j].answer.at
            && (!outcomes[i].answer.Got? ==> outcomes[i].answer.at < outcomes[j].answer.at)
  {
    RunTimely(init, steps);
    var s := After(Initial(init), steps);
    assert OutcomeTimely(s.outcomes, j, |s.history|);
    assert OutcomeTimely(s.outcomes, i, |s.history|);
  }

  // What one caller put another reads: a get asked for after a put was answered has the value
  // put, unless some commit in between wrote the key.
  lemma PutIsRead(init: Store, steps: seq<Step>, i: nat, j: nat, n: nat)
    requires IsRun(Initial(init), steps) && j < |After(Initial(init), steps).outcomes|
    requires i < After(Initial(init), steps).outcomes[j].called.answers
    requires var outcomes := After(Initial(init), steps).outcomes;
             i < |outcomes| && IsPut(outcomes[i].answer) && outcomes[j].answer.Got? && n < |outcomes[j].answer.keys|
    requires Untouched(After(Initial(init), steps), i, j, n)
    ensures ReadsPut(After(Initial(init), steps), i, j, n)
  {
    RunInv(init, steps);
    AnswersExact(init, steps, i);
    AnswersExact(init, steps, j);
    RealTimeOrder(init, steps, i, j);
    RunTimely(init, steps);
    PutHeldUntil(init, After(Initial(init), steps), i, j, n);
  }

  predicate IsPut(answer: Answer) {
    answer.Written? && answer.origin.FromPut?
  }

  // No commit between outcomes i and j wrote the n-th key of j.
  ghost predicate Untouched(s: State, i: nat, j: nat, n: nat)
    requires i < |s.outcomes| && j < |s.outcomes| && s.outcomes[j].answer.Got? && n < |s.outcomes[j].answer.keys|
  {
    forall c | s.outcomes[i].answer.at < c < s.outcomes[j].answer.at && c < |s.history| :: s.outcomes[j].answer.keys[n] !in s.history[c].writes
  }

  predicate ReadsPut(s: State, i: nat, j: nat, n: nat)
    requires i < |s.outcomes| && j < |s.outcomes| && IsPut(s.outcomes[i].answer)
    requires s.outcomes[j].answer.Got? && n < |s.outcomes[j].answer.keys|
  {
    var entries, got := s.outcomes[i].answer.origin.entries, s.outcomes[j].answer;
    got.keys[n] in entries ==> n < |got.values| && got.values[n] == Some(entries[got.keys[n]])
  }

  lemma PutHeldUntil(init: Store, s: State, i: nat, j: nat, n: nat)
    requires HistoryOk(init, s.history) && i < |s.outcomes| && j < |s.outcomes| && IsPut(s.outcomes[i].answer)
    requires s.outcomes[j].answer.Got? && n < |s.outcomes[j].answer.keys| && s.outcomes[i].answer.at < s.outcomes[j].answer.at
    requires AnsweredRight(init, s.history, s.outcomes[i].answer) && AnsweredRight(init, s.history, s.outcomes[j].answer)
    requires Untouched(s, i, j, n)
    ensures ReadsPut(s, i, j, n)
  {
    var put, got := s.outcomes[i].answer, s.outcomes[j].answer;
    EffectTaken(StateAt(init, s.history, put.at), put.origin);
    UnwrittenStays(init, s.history, put.at + 1, got.at, got.keys[n]);
  }

  // No two calls that wrote share a place in the serial order.
  lemma OnePlaceEach(init: Store, steps: seq<Step>, i: nat, j: nat)
    requires IsRun(Initial(init), steps) && i < j < |After(Initial(init), steps).outcomes|
    requires !After(Initial(init), steps).outcomes[i].answer.Got? && !After(Initial(init), steps).outcomes[j].answer.Got?
    ensures After(Initial(init), steps).outcomes[i].answer.at != After(Initial(init), steps).outcomes[j].answer.at
  {
    RunApart(init, steps);
  }

  ghost predicate Durable(init: Store, s: State) {
    && s.disk.copies == map[] && s.disk.pending == map[] && s.disk.results == map[]
    && s.disk.inner == StateAt(init, s.history, |s.history|)
  }

  lemma NothingPending(init: Store, s: State)
    requires Inv(init, s) && s.tasks == map[]
    ensures Durable(init, s)
  {
    ViewEmpty(s.disk.inner);
    assert forall o :: o in s.disk.pending || o in s.disk.results ==> Flush.Due(s.disk, o);
    assert s.disk.pending.Keys == {} && s.disk.results.Keys == {};
  }

  // No pending flush means that everything written is in the backing store.
  lemma DurableWhenNothingPending(init: Store, steps: seq<Step>)
    requires IsRun(Initial(init), steps) && After(Initial(init), steps).pendingFlushes == 0
    ensures Durable(init, After(Initial(init), steps))
  {
    RunInv(init, steps);
    var s := After(Initial(init), steps);
    assert s.tasks.Keys == {};
    NothingPending(init, s);
  }

  ghost predicate UnwrittenAfter(history: seq<Commit>, at: nat, k: Key) {
    forall j | at < j < |history| :: k !in history[j].writes
  }

  // The backing store holds at this key what the commit at this place left there.
  ghost predicate HeldSince(init: Store, s: State, at: nat, k: Key) {
    at < |s.history| && Lookup(s.disk.inner, k) == Lookup(StateAt(init, s.history, at + 1), k)
  }

  // An acknowledged write is durable: once a put, delete, deleteAll or transaction has been
  // answered, the backing store holds what it left at every key that no later commit wrote,
  // at any moment, in the middle of flushes too.
  lemma AcknowledgedDurable(init: Store, steps: seq<Step>, i: nat, k: Key)
    requires IsRun(Initial(init), steps) && i < |After(Initial(init), steps).outcomes|
    requires !After(Initial(init), steps).outcomes[i].answer.Got?
    requires UnwrittenAfter(After(Initial(init), steps).history, After(Initial(init), steps).outcomes[i].answer.at, k)
    ensures HeldSince(init, After(Initial(init), steps), After(Initial(init), steps).outcomes[i].answer.at, k)
  {
    RunInv(init, steps);
    RunKept(init, steps);
    AnswerHeld(init, After(Initial(init), steps), i, k);
  }

  lemma AnswerHeld(init: Store, s: State, i: nat, k: Key)
    requires HistoryOk(init, s.history) && Flush.Logical(s.disk) == StateAt(init, s.history, |s.history|)
    requires Kept(init, s) && i < |s.outcomes| && !s.outcomes[i].answer.Got?
    requires UnwrittenAfter(s.history, s.outcomes[i].answer.at, k)
    ensures HeldSince(init, s, s.outcomes[i].answer.at, k)
  {
    FlushedHolds(init, s.history, s.flushed, s.disk, s.outcomes[i].answer.at, k);
  }

  // Between flushes the backing store is the plain map of a commit count that takes in every
  // acknowledged write.
  lemma RestingStore(init: Store, steps: seq<Step>)
    requires IsRun(Initial(init), steps) && After(Initial(init), steps).writer.None?
    ensures var s := After(Initial(init), steps);
            && s.flushed <= |s.history| && s.disk.inner == StateAt(init, s.history, s.flushed)
            && forall i | 0 <= i < |s.outcomes| && !s.outcomes[i].answer.Got? :: s.outcomes[i].answer.at < s.flushed
  {
    RunInv(init, steps);
    RunKept(init, steps);
  }

  // sync() finds its promise resolved already exactly when no write call is unfinished, and
  // then the backing store holds every committed write.
  lemma SyncResolvedAtOnce(init: Store, steps: seq<Step>)
    requires IsRun(Initial(init), steps)
    ensures var s := After(Initial(init), steps);
            && (Sync(s).None? <==> s.tasks == map[])
            && (Sync(s).None? ==> Durable(init, s))
  {
    RunInv(init, steps);
    if After(Initial(init), steps).tasks == map[] {
      NothingPending(init, After(Initial(init), steps));
    }
  }

  // The promise sync() returned resolves only in a step after which no write call made
  // before it is unfinished and the backing store holds every committed write.
  lemma SyncMeansDurable(init: Store, steps: seq<Step>, step: Step)
    requires IsRun(Initial(init), steps) && Enabled(After(Initial(init), steps), step)
    requires Sync(After(Initial(init), steps)).Some?
    requires Sync(Do(After(Initial(init), steps), step)) != Sync(After(Initial(init), steps))
    ensures Do(After(Initial(init), steps), step).tasks == map[]
    ensures Durable(init, Do(After(Initial(init), steps), step))
  {
    var s := After(Initial(init), steps);
    RunInv(init, steps);
    StepInv(init, s, step);
    PromiseStays(s, step);
    NothingPending(init, Do(s, step));
  }

  lemma PromiseStays(s: State, step: Step)
    requires Enabled(s, step) && s.noPendingFlushesPromise.Some?
    ensures Do(s, step).noPendingFlushesPromise == s.noPendingFlushesPromise || Do(s, step).noPendingFlushesPromise.None?
  {
    assert step.EndCall? ==> Do(s, step).noPendingFlushesPromise == Settle(s, step.t).noPendingFlushesPromise;
  }

  // The source's assertions hold in every reachable state: a call that ends finds a positive
  // count and a promise to resolve; a flush with nothing to write finds no pending deletes;
  // a delete that ends its flush finds its keys no longer pending and its count recorded.
  lemma AssertionsHold(init: Store, steps: seq<Step>, t: nat)
    requires IsRun(Initial(init), steps) && t in After(Initial(init), steps).tasks
    ensures var s := After(Initial(init), steps);
            && s.pendingFlushes > 0 && s.noPendingFlushesPromise.Some?
            && (s.tasks[t].Ending? ==> Enabled(s, EndCall(t)))
            && (LockFree(s) ==> s.disk.phase.Idle?)
            && (s.disk.copies == map[] ==> s.disk.pending == map[])
            && (s.writer == Some(t) && s.disk.phase.Finished? && s.tasks[t].DeleteCommitted? && s.tasks[t].checks ==>
                  t !in s.disk.pending && t in s.disk.results)
  {
    RunInv(init, steps);
    RunTimely(init, steps);
    var s := After(Initial(init), steps);
    assert t in s.tasks.Keys;
    if s.disk.pending != map[] {
      Flush.PendingMeansCopies(s.disk.pending, s.disk.copies.Keys);
    }
    if s.tasks[t].DeleteCommitted? {
      assert DeleteOk(t, s.tasks[t], init, s.history, s.disk);
    }
  }

  // The holder of the write lock can always take its next step, down to letting go of it.
  lemma LockHolderProceeds(init: Store, steps: seq<Step>)
    requires IsRun(Initial(init), steps) && After(Initial(init), steps).writer.Some?
    ensures var s := After(Initial(init), steps);
            Enabled(s, EndFlush(s.writer.value)) || exists step :: Flush.Enabled(s.disk, step)
  {
    RunInv(init, steps);
    HolderProceeds(After(Initial(init), steps));
  }

  lemma HolderProceeds(s: State)
    requires Accounting(s.tasks, s.nextTask, s.pendingFlushes, s.noPendingFlushesPromise) && s.writer.Some?
    requires Locking(s.disk, s.writer, s.readers) && Flushers(s.tasks, s.writer, s.disk.copies)
    ensures Enabled(s, EndFlush(s.writer.value)) || exists step :: Flush.Enabled(s.disk, step)
  {
    if s.disk.phase.Finished? {
      assert s.writer.value in s.tasks.Keys;
    } else {
      Flush.FlushProgress(s.disk);
    }
  }

  // The write sets kept are those of precisely the last min(n, 16) commits, and a validation
  // against them accepts exactly when at most 16 commits happened since the transaction
  // began and none of them, in the whole history, wrote a key the transaction read.
  lemma BoundedHistoryExact(init: Store, steps: seq<Step>, t: nat)
    requires IsRun(Initial(init), steps) && Running(After(Initial(init), steps), t)
    ensures var s := After(Initial(init), steps);
            var x := s.tasks[t].txn;
            && |s.txnWriteSets.Keys| == (if |s.history| < TXN_WRITE_SETS_MAX_SIZE then |s.history| else TXN_WRITE_SETS_MAX_SIZE)
            && (Validates(s.txnWriteSets, x.start, s.txnCount, x.readSet) <==>
                  && |s.history| - x.start <= TXN_WRITE_SETS_MAX_SIZE
                  && forall i | x.start <= i < |s.history| :: s.history[i].writeSet !! x.readSet)
  {
    RunInv(init, steps);
    var s := After(Initial(init), steps);
    WindowExact(s.history, s.txnWriteSets, s.tasks[t].txn.start, s.tasks[t].txn.readSet);
    WindowSize(s.history, s.txnWriteSets);
  }
}
