/** The invariant of the storage step system and its preservation by every step. */
module StorageInvariant {
  import opened Common
  import opened Overlay
  import opened Serial
  import opened History
  import opened StorageSystem
  import Flush

  predicate IsCommitted(task: Task) {
    task.PutCommitted? || task.DeleteCommitted? || task.DeleteAllCommitted? || task.TxnCommitted?
  }

  // One pending flush per unfinished write call, and a promise exactly while there are any.
  ghost predicate Accounting(tasks: map<nat, Task>, nextTask: nat, pendingFlushes: nat, promise: Option<nat>) {
    && pendingFlushes == |tasks.Keys|
    && (promise.None? <==> tasks == map[])
    && (forall t | t in tasks :: t < nextTask)
  }

  // The overlay shows what the commits so far make of a plain map, run one after another.
  ghost predicate Commits(init: Store, history: seq<Commit>, txnCount: nat, sets: Window, logical: Store) {
    && txnCount == |history|
    && WindowOk(history, sets)
    && HistoryOk(init, history)
    && logical == StateAt(init, history, |history|)
  }

  ghost predicate Locking(disk: Flush.Disk, writer: Option<nat>, readers: map<nat, Pending>) {
    && Flush.Inv(disk)
    && (disk.phase.Idle? <==> writer.None?)
    && (disk.phase.Idle? ==> disk.entries == map[])
    && (writer.Some? ==> readers == map[])
  }

  function OriginOf(task: Task): Origin
    requires IsCommitted(task)
  {
    match task
    case PutCommitted(entries, _) => FromPut(entries)
    case DeleteCommitted(keys, _, _, _) => FromDelete(keys)
    case DeleteAllCommitted(_) => FromDeleteAll
    case TxnCommitted(log, _) => FromTxn(log)
  }

  // Each committed call has its own operation at its place in the history.
  ghost predicate Placed(tasks: map<nat, Task>, history: seq<Commit>) {
    forall t | t in tasks && IsCommitted(tasks[t]) ::
      tasks[t].at < |history| && history[tasks[t].at].origin == OriginOf(tasks[t])
  }

  // The lock is held for flushing by a call whose write is committed, and copies that are
  // not yet durable have such a call still to come.
  ghost predicate Flushers(tasks: map<nat, Task>, writer: Option<nat>, copies: Copies) {
    && (writer.Some? ==> writer.value in tasks && IsCommitted(tasks[writer.value]))
    && (copies != map[] ==> exists t :: t in tasks && IsCommitted(tasks[t]))
  }

  ghost predicate DeleteOk(t: nat, task: Task, init: Store, history: seq<Commit>, disk: Flush.Disk)
    requires task.DeleteCommitted?
  {
    && task.at < |history| && history[task.at].origin == FromDelete(task.keys)
    && (task.checks ==> Flush.Due(disk, t))
    && task.deleted + (if task.checks then Flush.Owed(disk, t) else 0)
       == Present(StateAt(init, history, task.at), ToSet(task.keys))
  }

  ghost predicate DeleteCounts(tasks: map<nat, Task>, init: Store, history: seq<Commit>, disk: Flush.Disk) {
    && (forall t | t in tasks && tasks[t].DeleteCommitted? :: DeleteOk(t, tasks[t], init, history, disk))
    && (forall t | Flush.Due(disk, t) :: t in tasks && tasks[t].DeleteCommitted? && tasks[t].checks)
  }

  ghost predicate AnswerOk(init: Store, history: seq<Commit>, a: Answer) {
    match a
    case Deleted(keys, count, at) =>
      && at < |history| && history[at].origin == FromDelete(keys)
      && count == Present(StateAt(init, history, at), ToSet(keys))
    case Written(origin, at) =>
      at < |history| && history[at].origin == origin
    case Got(keys, values, at) =>
      at <= |history| && values == LookupAll(StateAt(init, history, at), keys)
  }

  ghost predicate Outcomes(init: Store, history: seq<Commit>, outcomes: seq<Outcome>) {
    forall i | 0 <= i < |outcomes| :: AnswerOk(init, history, outcomes[i].answer)
  }

  // The answers of calls that have not settled yet.
  ghost predicate Answered(init: Store, history: seq<Commit>, tasks: map<nat, Task>, getCalls: map<nat, GetCall>) {
    && (forall t | t in tasks && tasks[t].Ending? && tasks[t].answer.Some? :: AnswerOk(init, history, tasks[t].answer.value))
    && (forall id | id in getCalls && getCalls[id].Ended? :: AnswerOk(init, history, getCalls[id].answer))
  }

  // A read in progress has right values so far, and no copy hides a key still to fetch.
  ghost predicate ReadOk(p: Pending, m: Store, hidden: set<Key>) {
    && |p.got| == |p.keys|
    && (forall i | 0 <= i < |p.got| && p.got[i].Read? :: p.got[i].value == Lookup(m, p.keys[i]))
    && (forall i | 0 <= i < |p.got| && p.got[i].Unread? :: p.keys[i] !in hidden)
  }

  ghost predicate Readers(readers: map<nat, Pending>, logical: Store, hidden: set<Key>) {
    forall id | id in readers :: ReadOk(readers[id], logical, hidden)
  }

  ghost predicate Recorded(x: Txn) {
    && EffectsOf(Ops(x.log)).copies == x.copies
    && x.writeSet == EffectsOf(Ops(x.log)).written + (if x.deleting.Some? then ToSet(x.deleting.value.keys) else {})
    && ReadsWithin(x.log, x.readSet)
    && (forall id | id in x.gets :: ToSet(x.gets[id].keys) <= x.readSet)
    && (x.deleting.Some? ==> x.gets == map[] && ToSet(x.deleting.value.keys) <= x.readSet && |x.writeSet| <= MAX_KEYS)
  }

  // Everything the transaction has seen is what it would have seen running alone on m.
  ghost predicate Consistent(x: Txn, m: Store, hidden: set<Key>) {
    && Explains(m, x.log)
    && (forall id | id in x.gets :: ReadOk(x.gets[id], View(x.copies, m), x.copies.Keys + hidden))
    && (x.deleting.Some? ==> ReadOk(x.deleting.value, View(x.copies, m), x.copies.Keys + hidden))
  }

  ghost predicate TxnOk(x: Txn, history: seq<Commit>, m: Store, hidden: set<Key>) {
    && x.start <= |history|
    && Recorded(x)
    && (Unconflicted(history, x.start, x.readSet) ==> Consistent(x, m, hidden))
  }

  ghost predicate Txns(tasks: map<nat, Task>, history: seq<Commit>, logical: Store, hidden: set<Key>) {
    forall t | t in tasks && tasks[t].TxnRunning? :: TxnOk(tasks[t].txn, history, logical, hidden)
  }

  ghost predicate Inv(init: Store, s: State) {
    && Accounting(s.tasks, s.nextTask, s.pendingFlushes, s.noPendingFlushesPromise)
    && Commits(init, s.history, s.txnCount, s.txnWriteSets, Flush.Logical(s.disk))
    && Locking(s.disk, s.writer, s.readers)
    && Flushers(s.tasks, s.writer, s.disk.copies)
    && DeleteCounts(s.tasks, init, s.history, s.disk)
    && Placed(s.tasks, s.history)
    && Outcomes(init, s.history, s.outcomes)
    && Answered(init, s.history, s.tasks, s.getCalls)
    && Readers(s.readers, Flush.Logical(s.disk), s.disk.copies.Keys)
    && Txns(s.tasks, s.history, Flush.Logical(s.disk), s.disk.copies.Keys)
  }

  lemma InitialInv(init: Store)
    ensures Inv(init, Initial(init))
  {
    ViewEmpty(init);
  }

  // --- Single reads ----------------------------------------------------------------------------

  lemma BeginReadOk(keys: seq<Key>, first: Copies, shadow: Copies, inner: Store)
    ensures ReadOk(BeginRead(keys, first, shadow), View(first, View(shadow, inner)), first.Keys + shadow.Keys)
  {
  }

  lemma FetchOk(p: Pending, i: nat, first: Copies, shadow: Copies, inner: Store)
    requires ReadOk(p, View(first, View(shadow, inner)), first.Keys + shadow.Keys) && CanFetch(p, i)
    ensures ReadOk(FetchOne(p, i, inner), View(first, View(shadow, inner)), first.Keys + shadow.Keys)
  {
    assert Lookup(View(first, View(shadow, inner)), p.keys[i]) == Lookup(inner, p.keys[i]);
  }

  lemma ReadValuesOk(p: Pending, m: Store, hidden: set<Key>)
    requires ReadOk(p, m, hidden) && AllRead(p)
    ensures ReadValues(p) == LookupAll(m, p.keys)
  {
  }

  // --- Transactions ------------------------------------------------------------------------------

  lemma NewTxnOk(s: State)
    requires s.txnCount == |s.history|
    ensures TxnOk(NewTxn(s), s.history, Flush.Logical(s.disk), s.disk.copies.Keys)
  {
  }

  lemma BeginGetOk(x: Txn, id: nat, keys: seq<Key>, history: seq<Commit>, shadow: Copies, inner: Store)
    requires TxnOk(x, history, View(shadow, inner), shadow.Keys) && x.deleting.None?
    ensures TxnOk(TxnDoBeginGet(x, id, keys, shadow), history, View(shadow, inner), shadow.Keys)
  {
    BeginReadOk(keys, x.copies, shadow, inner);
  }

  lemma TxnFetchOk(x: Txn, id: nat, i: nat, history: seq<Commit>, shadow: Copies, inner: Store)
    requires TxnOk(x, history, View(shadow, inner), shadow.Keys) && id in x.gets && CanFetch(x.gets[id], i)
    ensures TxnOk(x.(gets := x.gets[id := FetchOne(x.gets[id], i, inner)]), history, View(shadow, inner), shadow.Keys)
  {
    if Unconflicted(history, x.start, x.readSet) {
      FetchOk(x.gets[id], i, x.copies, shadow, inner);
    }
  }

  lemma FetchDeleteOk(x: Txn, i: nat, history: seq<Commit>, shadow: Copies, inner: Store)
    requires TxnOk(x, history, View(shadow, inner), shadow.Keys) && x.deleting.Some? && CanFetch(x.deleting.value, i)
    ensures TxnOk(x.(deleting := Some(FetchOne(x.deleting.value, i, inner))), history, View(shadow, inner), shadow.Keys)
  {
    if Unconflicted(history, x.start, x.readSet) {
      FetchOk(x.deleting.value, i, x.copies, shadow, inner);
    }
  }

  // Appending an event that a lone run on m would produce too.
  lemma AppendEvent(x: Txn, e: Event, m: Store)
    requires EffectsOf(Ops(x.log)).copies == x.copies && ReadsWithin(x.log, x.readSet) && EventReads(e) <= x.readSet
    ensures EffectsOf(Ops(x.log + [e])) == Effect(EffectsOf(Ops(x.log)), e.op)
    ensures ReadsWithin(x.log + [e], x.readSet)
    ensures Explains(m, x.log) && Perform(Alone(View(x.copies, m), EffectsOf(Ops(x.log)).written), e.op).1 == e.reply
        ==> Explains(m, x.log + [e])
  {
    ExtendLog(m, x.log, e);
    EffectsSufficient(m, Ops(x.log));
    assert Ops(x.log + [e])[..|x.log|] == Ops(x.log);
  }

  lemma EndGetOk(x: Txn, id: nat, history: seq<Commit>, m: Store, hidden: set<Key>)
    requires TxnOk(x, history, m, hidden) && id in x.gets && AllRead(x.gets[id])
    ensures TxnOk(TxnDoEndGet(x, id), history, m, hidden)
  {
    var p := x.gets[id];
    AppendEvent(x, Event(GetMany(p.keys), Values(ReadValues(p))), m);
    if Unconflicted(history, x.start, x.readSet) {
      ReadValuesOk(p, View(x.copies, m), x.copies.Keys + hidden);
    }
  }

  lemma PutOk(x: Txn, entries: Store, history: seq<Commit>, m: Store, hidden: set<Key>)
    requires TxnOk(x, history, m, hidden) && x.deleting.None? && x.gets == map[]
    ensures TxnOk(TxnDoPut(x, entries), history, m, hidden)
  {
    var reply := if |x.writeSet + entries.Keys| > MAX_KEYS then Rejected else Done;
    AppendEvent(x, Event(PutMany(entries), reply), m);
  }

  lemma RejectDeleteOk(x: Txn, keys: seq<Key>, history: seq<Commit>, m: Store, hidden: set<Key>)
    requires TxnOk(x, history, m, hidden) && x.deleting.None? && |x.writeSet + ToSet(keys)| > MAX_KEYS
    ensures TxnOk(x.(writeSet := x.writeSet + ToSet(keys), log := x.log + [Event(DeleteMany(keys), Rejected)]), history, m, hidden)
  {
    AppendEvent(x, Event(DeleteMany(keys), Rejected), m);
    LogAppended(x, Event(DeleteMany(keys), Rejected), x.writeSet + ToSet(keys), history, m, hidden);
  }

  // An event that writes nothing.
  lemma LogAppended(x: Txn, e: Event, written: set<Key>, history: seq<Commit>, m: Store, hidden: set<Key>)
    requires TxnOk(x, history, m, hidden) && x.deleting.None?
    requires EffectsOf(Ops(x.log + [e])) == Effects(x.copies, written) && ReadsWithin(x.log + [e], x.readSet)
    requires Explains(m, x.log) ==> Explains(m, x.log + [e])
    ensures TxnOk(x.(writeSet := written, log := x.log + [e]), history, m, hidden)
  {
  }

  lemma BeginDeleteOk(x: Txn, keys: seq<Key>, history: seq<Commit>, shadow: Copies, inner: Store)
    requires TxnOk(x, history, View(shadow, inner), shadow.Keys) && x.deleting.None? && x.gets == map[]
    ensures TxnOk(TxnDoBeginDelete(x, keys, shadow), history, View(shadow, inner), shadow.Keys)
  {
    if |x.writeSet + ToSet(keys)| > MAX_KEYS {
      RejectDeleteOk(x, keys, history, View(shadow, inner), shadow.Keys);
    } else {
      BeginReadOk(keys, x.copies, shadow, inner);
    }
  }

  lemma EndDeleteOk(x: Txn, history: seq<Commit>, m: Store, hidden: set<Key>)
    requires TxnOk(x, history, m, hidden) && x.deleting.Some? && AllRead(x.deleting.value)
    ensures TxnOk(TxnDoEndDelete(x), history, m, hidden)
  {
    var p := x.deleting.value;
    AppendEvent(x, Event(DeleteMany(p.keys), Count(CountFound(ReadValues(p)))), m);
    if Unconflicted(history, x.start, x.readSet) {
      ReadValuesOk(p, View(x.copies, m), x.copies.Keys + hidden);
    }
  }

  // A commit by somebody else either conflicts with the transaction or changes nothing that
  // it has read or is about to fetch.
  lemma CommitBesideTxn(x: Txn, history: seq<Commit>, m: Store, hidden: set<Key>, c: Commit)
    requires TxnOk(x, history, m, hidden) && c.writes.Keys <= c.writeSet
    ensures TxnOk(x, history + [c], View(c.writes, m), hidden + c.writes.Keys)
  {
    var longer := history + [c];
    if Unconflicted(longer, x.start, x.readSet) {
      assert longer[|history|] == c;
      assert c.writeSet !! x.readSet;
      forall i | x.start <= i < |history| ensures history[i].writeSet !! x.readSet {
        assert longer[i] == history[i];
      }
      assert AgreeOn(x.readSet, m, View(c.writes, m));
      ExplainsOnReads(m, View(c.writes, m), x.log, x.readSet);
      forall id | id in x.gets
        ensures ReadOk(x.gets[id], View(x.copies, View(c.writes, m)), x.copies.Keys + (hidden + c.writes.Keys))
      {
        CommitBesideRead(x.gets[id], x, m, hidden, c);
      }
      if x.deleting.Some? {
        CommitBesideRead(x.deleting.value, x, m, hidden, c);
      }
    }
  }

  lemma CommitBesideRead(p: Pending, x: Txn, m: Store, hidden: set<Key>, c: Commit)
    requires ReadOk(p, View(x.copies, m), x.copies.Keys + hidden)
    requires ToSet(p.keys) <= x.readSet && c.writes.Keys <= c.writeSet && c.writeSet !! x.readSet
    ensures ReadOk(p, View(x.copies, View(c.writes, m)), x.copies.Keys + (hidden + c.writes.Keys))
  {
    forall i | 0 <= i < |p.keys| ensures p.keys[i] !in c.writes {
      assert p.keys[i] in ToSet(p.keys);
    }
  }

  // --- Steps of one transaction --------------------------------------------------------------------

  lemma FlushersStay(tasks: map<nat, Task>, tasks': map<nat, Task>, writer: Option<nat>, copies: Copies)
    requires Flushers(tasks, writer, copies)
    requires forall t | t in tasks && IsCommitted(tasks[t]) :: t in tasks' && IsCommitted(tasks'[t])
    ensures Flushers(tasks', writer, copies)
  {
    if copies != map[] {
      var t :| t in tasks && IsCommitted(tasks[t]);
      assert t in tasks' && IsCommitted(tasks'[t]);
    }
  }

  // What a call of transaction() may turn into without committing.
  ghost predicate Fits(task: Task, history: seq<Commit>, m: Store, hidden: set<Key>) {
    task.TxnCalled? || task == Ending(None) || (task.TxnRunning? && TxnOk(task.txn, history, m, hidden))
  }

  predicate IsOpen(task: Task) {
    task.TxnCalled? || task.TxnRunning?
  }

  lemma SetTxnOk(init: Store, s: State, t: nat, x: Txn)
    requires Inv(init, s) && Running(s, t) && TxnOk(x, s.history, Flush.Logical(s.disk), s.disk.copies.Keys)
    ensures Inv(init, SetTask(s, t, TxnRunning(x)))
  {
    SetOpenOk(init, s, t, TxnRunning(x));
  }

  lemma SetOpenOk(init: Store, s: State, t: nat, task: Task)
    requires Inv(init, s) && t in s.tasks && IsOpen(s.tasks[t])
    requires Fits(task, s.history, Flush.Logical(s.disk), s.disk.copies.Keys)
    ensures Inv(init, SetTask(s, t, task))
  {
    SetOpenTasks(s.tasks, t, task, s.nextTask, s.pendingFlushes, s.noPendingFlushesPromise, s.writer, s.disk.copies, s.history);
    SetOpenReads(init, s.tasks, t, task, s.history, s.disk);
    AnswerAdded(init, s.history, s.tasks, s.getCalls, t, task);
    TasksOk(init, s, s.tasks[t := task]);
  }

  // Only the calls change.
  lemma TasksOk(init: Store, s: State, tasks: map<nat, Task>)
    requires Inv(init, s) && Accounting(tasks, s.nextTask, s.pendingFlushes, s.noPendingFlushesPromise)
    requires Flushers(tasks, s.writer, s.disk.copies) && Placed(tasks, s.history) && DeleteCounts(tasks, init, s.history, s.disk)
    requires Txns(tasks, s.history, Flush.Logical(s.disk), s.disk.copies.Keys) && Answered(init, s.history, tasks, s.getCalls)
    ensures Inv(init, s.(tasks := tasks))
  {
  }

  lemma SetOpenTasks(tasks: map<nat, Task>, t: nat, task: Task, nextTask: nat, pendingFlushes: nat, promise: Option<nat>,
                     writer: Option<nat>, copies: Copies, history: seq<Commit>)
    requires t in tasks && !IsCommitted(tasks[t]) && !IsCommitted(task) && Accounting(tasks, nextTask, pendingFlushes, promise)
    requires Flushers(tasks, writer, copies) && Placed(tasks, history)
    ensures var tasks' := tasks[t := task];
            && Accounting(tasks', nextTask, pendingFlushes, promise) && Flushers(tasks', writer, copies) && Placed(tasks', history)
  {
    var tasks' := tasks[t := task];
    assert tasks'.Keys == tasks.Keys;
    FlushersStay(tasks, tasks', writer, copies);
  }

  lemma SetOpenReads(init: Store, tasks: map<nat, Task>, t: nat, task: Task, history: seq<Commit>, disk: Flush.Disk)
    requires t in tasks && IsOpen(tasks[t]) && DeleteCounts(tasks, init, history, disk)
    requires Txns(tasks, history, Flush.Logical(disk), disk.copies.Keys) && Fits(task, history, Flush.Logical(disk), disk.copies.Keys)
    ensures DeleteCounts(tasks[t := task], init, history, disk)
    ensures Txns(tasks[t := task], history, Flush.Logical(disk), disk.copies.Keys)
  {
  }

  lemma TxnDoOk(x: Txn, step: TxnStep, history: seq<Commit>, shadow: Copies, inner: Store)
    requires TxnOk(x, history, View(shadow, inner), shadow.Keys) && TxnEnabled(x, step)
    ensures TxnOk(TxnDo(x, step, shadow, inner), history, View(shadow, inner), shadow.Keys)
  {
    match step
    case GetBegin(id, keys) => BeginGetOk(x, id, keys, history, shadow, inner);
    case GetFetch(id, i) => TxnFetchOk(x, id, i, history, shadow, inner);
    case GetEnd(id) => EndGetOk(x, id, history, View(shadow, inner), shadow.Keys);
    case PutEntries(entries) => PutOk(x, entries, history, View(shadow, inner), shadow.Keys);
    case DeleteBegin(keys) => BeginDeleteOk(x, keys, history, shadow, inner);
    case DeleteFetch(i) => FetchDeleteOk(x, i, history, shadow, inner);
    case DeleteEnd => EndDeleteOk(x, history, View(shadow, inner), shadow.Keys);
    case RollBack =>
  }

  lemma InTxnOk(init: Store, s: State, t: nat, inside: TxnStep)
    requires Inv(init, s) && Enabled(s, InTxn(t, inside))
    ensures Inv(init, Do(s, InTxn(t, inside)))
  {
    TxnDoOk(s.tasks[t].txn, inside, s.history, s.disk.copies, s.disk.inner);
    SetTxnOk(init, s, t, TxnDo(s.tasks[t].txn, inside, s.disk.copies, s.disk.inner));
  }

  // --- Calls beginning and ending --------------------------------------------------------------------

  lemma CallAccounting(s: State, task: Task)
    requires Accounting(s.tasks, s.nextTask, s.pendingFlushes, s.noPendingFlushesPromise)
    ensures var s' := Call(s, task); Accounting(s'.tasks, s'.nextTask, s'.pendingFlushes, s'.noPendingFlushesPromise)
  {
    var tasks' := s.tasks[s.nextTask := task];
    assert tasks'.Keys == s.tasks.Keys + {s.nextTask};
    assert s.nextTask in tasks';
  }

  lemma AddTask(init: Store, tasks: map<nat, Task>, t: nat, task: Task, s: State)
    requires t !in tasks && !IsCommitted(task) && !task.TxnRunning?
    requires Flushers(tasks, s.writer, s.disk.copies) && DeleteCounts(tasks, init, s.history, s.disk) && Placed(tasks, s.history)
    requires Txns(tasks, s.history, Flush.Logical(s.disk), s.disk.copies.Keys)
    ensures Flushers(tasks[t := task], s.writer, s.disk.copies) && DeleteCounts(tasks[t := task], init, s.history, s.disk)
    ensures Placed(tasks[t := task], s.history)
    ensures Txns(tasks[t := task], s.history, Flush.Logical(s.disk), s.disk.copies.Keys)
  {
    FlushersStay(tasks, tasks[t := task], s.writer, s.disk.copies);
  }

  lemma CallOk(init: Store, s: State, task: Task)
    requires Inv(init, s) && !IsCommitted(task) && !task.TxnRunning? && !task.Ending?
    ensures Inv(init, Call(s, task))
  {
    CallAccounting(s, task);
    assert s.nextTask !in s.tasks;
    AnswerAdded(init, s.history, s.tasks, s.getCalls, s.nextTask, task);
    AddTask(init, s.tasks, s.nextTask, task, s);
  }

  lemma SettleAccounting(s: State, t: nat)
    requires Accounting(s.tasks, s.nextTask, s.pendingFlushes, s.noPendingFlushesPromise) && t in s.tasks
    ensures s.pendingFlushes > 0
    ensures var s' := Settle(s, t); Accounting(s'.tasks, s'.nextTask, s'.pendingFlushes, s'.noPendingFlushesPromise)
  {
    var tasks' := s.tasks - {t};
    assert s.tasks.Keys == tasks'.Keys + {t};
    if s.pendingFlushes == 1 {
      assert tasks'.Keys == {};
    }
  }

  lemma SettleOk(init: Store, s: State, t: nat)
    requires Inv(init, s) && t in s.tasks && s.tasks[t].Ending?
    ensures s.pendingFlushes > 0 && Inv(init, Settle(s, t))
  {
    SettleAccounting(s, t);
    FlushersStay(s.tasks, s.tasks - {t}, s.writer, s.disk.copies);
  }

  lemma EndCallOk(init: Store, s: State, t: nat)
    requires Inv(init, s) && Enabled(s, EndCall(t))
    ensures Inv(init, Do(s, EndCall(t)))
  {
    SettleOk(init, s, t);
    if s.tasks[t].answer.Some? {
      AddOutcome(init, s.history, s.outcomes, Outcome(t, s.tasks[t].answer.value, s.calls[t], |s.history|));
    }
  }

  // --- Reads of the storage itself ---------------------------------------------------------------------

  // Only the reads of the storage itself, and their answers, change.
  lemma GetsOk(init: Store, s: State, readers: map<nat, Pending>, getCalls: map<nat, GetCall>, outcomes: seq<Outcome>)
    requires Inv(init, s) && (s.writer.Some? ==> readers == map[])
    requires Readers(readers, Flush.Logical(s.disk), s.disk.copies.Keys)
    requires Outcomes(init, s.history, outcomes) && Answered(init, s.history, s.tasks, getCalls)
    ensures Inv(init, s.(readers := readers, getCalls := getCalls, outcomes := outcomes))
  {
  }

  lemma SetReaderOk(init: Store, s: State, id: nat, p: Pending)
    requires Inv(init, s) && s.writer.None? && ReadOk(p, Flush.Logical(s.disk), s.disk.copies.Keys)
    ensures Inv(init, s.(readers := s.readers[id := p]))
  {
    GetsOk(init, s, s.readers[id := p], s.getCalls, s.outcomes);
  }

  lemma NoCopies(shadow: Copies, inner: Store)
    ensures View(map[], View(shadow, inner)) == View(shadow, inner)
    ensures var none: Copies := map[]; none.Keys + shadow.Keys == shadow.Keys
  {
    ViewEmpty(View(shadow, inner));
  }

  lemma AskOk(init: Store, s: State, id: nat, keys: seq<Key>)
    requires Inv(init, s) && GetEnabled(s, id, Ask(keys))
    ensures Inv(init, GetDo(s, id, Ask(keys)))
  {
    GetsOk(init, s, s.readers, s.getCalls[id := Asked(keys, Now(s))], s.outcomes);
    NextNumber(init, s.(getCalls := s.getCalls[id := Asked(keys, Now(s))]));
  }

  lemma NextNumber(init: Store, s: State)
    requires Inv(init, s)
    ensures Inv(init, s.(nextTask := s.nextTask + 1))
  {
  }

  lemma BeginOk(init: Store, s: State, id: nat)
    requires Inv(init, s) && GetEnabled(s, id, Begin)
    ensures Inv(init, GetDo(s, id, Begin))
  {
    var keys := s.getCalls[id].keys;
    NoCopies(s.disk.copies, s.disk.inner);
    BeginReadOk(keys, map[], s.disk.copies, s.disk.inner);
    SetReaderOk(init, s, id, BeginRead(keys, map[], s.disk.copies));
  }

  lemma FetchGetOk(init: Store, s: State, id: nat, i: nat)
    requires Inv(init, s) && GetEnabled(s, id, Fetch(i))
    ensures Inv(init, GetDo(s, id, Fetch(i)))
  {
    NoCopies(s.disk.copies, s.disk.inner);
    FetchOk(s.readers[id], i, map[], s.disk.copies, s.disk.inner);
    SetReaderOk(init, s, id, FetchOne(s.readers[id], i, s.disk.inner));
  }

  lemma AddOutcome(init: Store, history: seq<Commit>, outcomes: seq<Outcome>, o: Outcome)
    requires Outcomes(init, history, outcomes) && AnswerOk(init, history, o.answer)
    ensures Outcomes(init, history, outcomes + [o])
  {
  }

  lemma EndOk(init: Store, s: State, id: nat)
    requires Inv(init, s) && GetEnabled(s, id, End)
    ensures Inv(init, GetDo(s, id, End))
  {
    var answer := Got(s.readers[id].keys, ReadValues(s.readers[id]), |s.history|);
    ReadValuesOk(s.readers[id], Flush.Logical(s.disk), s.disk.copies.Keys);
    assert AnswerOk(init, s.history, answer);
    GetsOk(init, s, s.readers - {id}, s.getCalls[id := Ended(answer, s.getCalls[id].called)], s.outcomes);
  }

  lemma ReplyOk(init: Store, s: State, id: nat)
    requires Inv(init, s) && GetEnabled(s, id, Reply)
    ensures Inv(init, GetDo(s, id, Reply))
  {
    var outcome := Outcome(id, s.getCalls[id].answer, s.getCalls[id].called, |s.history|);
    AddOutcome(init, s.history, s.outcomes, outcome);
    GetsOk(init, s, s.readers, s.getCalls - {id}, s.outcomes + [outcome]);
  }

  lemma GetDoOk(init: Store, s: State, id: nat, part: GetStep)
    requires Inv(init, s) && GetEnabled(s, id, part)
    ensures Inv(init, GetDo(s, id, part))
  {
    match part
    case Ask(keys) => AskOk(init, s, id, keys);
    case Begin => BeginOk(init, s, id);
    case Fetch(i) => FetchGetOk(init, s, id, i);
    case End => EndOk(init, s, id);
    case Reply => ReplyOk(init, s, id);
  }

  // --- Commits -------------------------------------------------------------------------------------------

  lemma CommitHistory(init: Store, s: State, c: Commit)
    requires Commits(init, s.history, s.txnCount, s.txnWriteSets, Flush.Logical(s.disk))
    requires CommitOk(Flush.Logical(s.disk), c)
    ensures var s' := RecordCommit(s, c);
            && Flush.Logical(s'.disk) == View(c.writes, Flush.Logical(s.disk))
            && Commits(init, s'.history, s'.txnCount, s'.txnWriteSets, Flush.Logical(s'.disk))
  {
    HistoryExtends(init, s.history, c);
    RecordKeepsWindow(s.history, s.txnWriteSets, c);
    ViewMerge(s.disk.copies, c.writes, s.disk.inner);
  }

  lemma CommitAnswer(init: Store, history: seq<Commit>, a: Answer, c: Commit)
    requires AnswerOk(init, history, a)
    ensures AnswerOk(init, history + [c], a)
  {
    StateAtPrefix(init, history, c, a.at);
  }

  lemma CommitOutcomes(init: Store, history: seq<Commit>, tasks: map<nat, Task>, getCalls: map<nat, GetCall>, outcomes: seq<Outcome>, c: Commit)
    requires Outcomes(init, history, outcomes) && Answered(init, history, tasks, getCalls)
    ensures Outcomes(init, history + [c], outcomes) && Answered(init, history + [c], tasks, getCalls)
  {
    forall a | AnswerOk(init, history, a) ensures AnswerOk(init, history + [c], a) {
      CommitAnswer(init, history, a, c);
    }
  }

  lemma CommitDeletes(tasks: map<nat, Task>, init: Store, history: seq<Commit>, disk: Flush.Disk, c: Commit)
    requires DeleteCounts(tasks, init, history, disk)
    ensures DeleteCounts(tasks, init, history + [c], disk.(copies := disk.copies + c.writes))
  {
    var disk' := disk.(copies := disk.copies + c.writes);
    forall t | t in tasks && tasks[t].DeleteCommitted? ensures DeleteOk(t, tasks[t], init, history + [c], disk') {
      assert DeleteOk(t, tasks[t], init, history, disk);
      StateAtPrefix(init, history, c, tasks[t].at);
    }
    forall t | Flush.Due(disk', t) ensures t in tasks && tasks[t].DeleteCommitted? && tasks[t].checks {
      assert Flush.Due(disk, t);
    }
  }

  lemma CommitTxns(tasks: map<nat, Task>, history: seq<Commit>, m: Store, copies: Copies, c: Commit)
    requires Txns(tasks, history, m, copies.Keys) && c.writes.Keys <= c.writeSet
    ensures Txns(tasks, history + [c], View(c.writes, m), (copies + c.writes).Keys)
  {
    forall t | t in tasks && tasks[t].TxnRunning? ensures TxnOk(tasks[t].txn, history + [c], View(c.writes, m), (copies + c.writes).Keys) {
      CommitBesideTxn(tasks[t].txn, history, m, copies.Keys, c);
      assert (copies + c.writes).Keys == copies.Keys + c.writes.Keys;
    }
  }

  // A call turns into a committed one.
  lemma TasksCommitted(init: Store, tasks: map<nat, Task>, t: nat, task: Task, s: State)
    requires t in tasks && !IsCommitted(tasks[t]) && IsCommitted(task) && !task.DeleteCommitted?
    requires DeleteCounts(tasks, init, s.history, s.disk)
    requires Txns(tasks, s.history, Flush.Logical(s.disk), s.disk.copies.Keys)
    ensures DeleteCounts(tasks[t := task], init, s.history, s.disk)
    ensures Txns(tasks[t := task], s.history, Flush.Logical(s.disk), s.disk.copies.Keys)
  {
  }

  lemma CopiesGrow(disk: Flush.Disk, writes: Copies)
    requires Flush.Inv(disk) && disk.phase.Idle?
    ensures Flush.Inv(disk.(copies := disk.copies + writes))
  {
  }

  lemma CommitPlaced(tasks: map<nat, Task>, t: nat, task: Task, history: seq<Commit>, c: Commit)
    requires Placed(tasks, history) && IsCommitted(task) && task.at == |history| && OriginOf(task) == c.origin
    ensures Placed(tasks[t := task], history + [c])
  {
  }

  lemma RecordOk(init: Store, s: State, t: nat, task: Task, c: Commit)
    requires Inv(init, s) && LockFree(s) && t in s.tasks && !IsCommitted(s.tasks[t])
    requires IsCommitted(task) && !task.DeleteCommitted? && CommitOk(Flush.Logical(s.disk), c)
    requires task.at == |s.history| && OriginOf(task) == c.origin
    ensures Inv(init, RecordCommit(SetTask(s, t, task), c))
  {
    var tasks' := s.tasks[t := task];
    assert tasks'.Keys == s.tasks.Keys;
    CommitHistory(init, SetTask(s, t, task), c);
    TasksCommitted(init, s.tasks, t, task, s);
    CommitDeletes(tasks', init, s.history, s.disk, c);
    CommitOutcomes(init, s.history, tasks', s.getCalls, s.outcomes, c);
    CommitPlaced(s.tasks, t, task, s.history, c);
    CopiesGrow(s.disk, c.writes);
    assert IsCommitted(tasks'[t]);
    CommitTxns(tasks', s.history, Flush.Logical(s.disk), s.disk.copies, c);
  }

  lemma LockOk(init: Store, s: State, t: nat)
    requires Inv(init, s) && LockFree(s) && t in s.tasks && IsCommitted(s.tasks[t])
    ensures s.disk.phase.Idle? && Inv(init, LockAndFlush(s, t))
  {
    Flush.StartOk(s.disk);
    DiskStepDeletes(s.tasks, init, s.history, s.disk, Flush.Start(s.disk));
  }

  // --- Flush steps ---------------------------------------------------------------------------------------

  lemma DiskStepDeletes(tasks: map<nat, Task>, init: Store, history: seq<Commit>, disk: Flush.Disk, disk': Flush.Disk)
    requires DeleteCounts(tasks, init, history, disk)
    requires forall o :: Flush.Due(disk', o) == Flush.Due(disk, o)
    requires forall o :: Flush.Due(disk, o) ==> Flush.Owed(disk', o) == Flush.Owed(disk, o)
    ensures DeleteCounts(tasks, init, history, disk')
  {
    forall t | t in tasks && tasks[t].DeleteCommitted? ensures DeleteOk(t, tasks[t], init, history, disk') {
      assert DeleteOk(t, tasks[t], init, history, disk);
      assert Flush.Due(disk', t) == Flush.Due(disk, t);
    }
  }

  lemma FewerHidden(x: Txn, history: seq<Commit>, m: Store, hidden: set<Key>, hidden': set<Key>)
    requires TxnOk(x, history, m, hidden) && hidden' <= hidden
    ensures TxnOk(x, history, m, hidden')
  {
  }

  lemma FlushStepOk(init: Store, s: State, step: Flush.Step)
    requires Inv(init, s) && Flush.Enabled(s.disk, step)
    ensures Inv(init, s.(disk := Flush.Do(s.disk, step)))
  {
    var disk' := Flush.Do(s.disk, step);
    Flush.StepInv(s.disk, step);
    Flush.StepInvisible(s.disk, step);
    forall o ensures Flush.Due(disk', o) == Flush.Due(s.disk, o) && (Flush.Due(s.disk, o) ==> Flush.Owed(disk', o) == Flush.Owed(s.disk, o)) {
      Flush.StepOwed(s.disk, step, o);
    }
    DiskStepDeletes(s.tasks, init, s.history, s.disk, disk');
    Flush.StepShrinks(s.disk, step);
    forall t | t in s.tasks && s.tasks[t].TxnRunning? ensures TxnOk(s.tasks[t].txn, s.history, Flush.Logical(disk'), disk'.copies.Keys) {
      FewerHidden(s.tasks[t].txn, s.history, Flush.Logical(s.disk), s.disk.copies.Keys, disk'.copies.Keys);
    }
  }

  // --- The critical section of a delete ---------------------------------------------------------------------

  // What the copies know for sure plus what the backing store holds of the other keys is
  // what the overlay shows.
  lemma KnownPlusUnknown(copies: Copies, inner: Store, keys: set<Key>)
    ensures |KnownPut(copies, keys)| + Present(inner, Unknown(copies, keys)) == Present(View(copies, inner), keys)
  {
    var known, found := KnownPut(copies, keys), Found(inner, Unknown(copies, keys));
    assert Found(View(copies, inner), keys) == known + found;
    CountApart(known, found);
  }

  lemma CountApart<T>(a: set<T>, b: set<T>)
    requires a !! b
    ensures |a + b| == |a| + |b|
  {
  }

  lemma NewPendingInv(disk: Flush.Disk, t: nat, keys: set<Key>)
    requires Flush.Inv(disk) && disk.phase.Idle? && t !in disk.results && t !in disk.pending && keys != {}
    ensures Flush.Inv(DeleteOnDisk(disk, t, keys))
  {
    var unknown := Unknown(disk.copies, keys);
    forall o | o in disk.pending ensures disk.pending[o] !! unknown {
      assert disk.pending[o] <= disk.copies.Keys;
    }
  }

  lemma NewPendingOwed(disk: Flush.Disk, t: nat, keys: set<Key>)
    requires disk.phase.Idle? && !Flush.Due(disk, t)
    ensures var disk' := DeleteOnDisk(disk, t, keys);
            && (Flush.Due(disk', t) <==> Unknown(disk.copies, keys) != {})
            && (Unknown(disk.copies, keys) != {} ==> Flush.Owed(disk', t) == Present(disk.inner, Unknown(disk.copies, keys)))
            && (forall o | o != t :: Flush.Due(disk', o) == Flush.Due(disk, o) && Flush.Owed(disk', o) == Flush.Owed(disk, o))
  {
  }

  lemma OthersKeepCounts(tasks: map<nat, Task>, t: nat, task: Task, init: Store, history: seq<Commit>, disk: Flush.Disk, disk': Flush.Disk)
    requires DeleteCounts(tasks, init, history, disk) && !Flush.Due(disk, t)
    requires forall o | o != t :: Flush.Due(disk', o) == Flush.Due(disk, o) && Flush.Owed(disk', o) == Flush.Owed(disk, o)
    requires task.DeleteCommitted? && (Flush.Due(disk', t) ==> task.checks)
    requires DeleteOk(t, task, init, history, disk')
    ensures DeleteCounts(tasks[t := task], init, history, disk')
  {
    forall o | o in tasks && o != t && tasks[o].DeleteCommitted? ensures DeleteOk(o, tasks[o], init, history, disk') {
      assert DeleteOk(o, tasks[o], init, history, disk);
      assert Flush.Due(disk', o) == Flush.Due(disk, o);
    }
    forall o | Flush.Due(disk', o) && o != t ensures o in tasks && tasks[o].DeleteCommitted? && tasks[o].checks {
      assert Flush.Due(disk, o);
    }
  }

  // The answer promised at the critical section is the number of keys then present.
  lemma DeleteCountRight(t: nat, keys: seq<Key>, init: Store, history: seq<Commit>, disk: Flush.Disk, c: Commit)
    requires disk.phase.Idle? && !Flush.Due(disk, t) && c.origin == FromDelete(keys)
    requires Flush.Logical(disk) == StateAt(init, history, |history|)
    ensures var unknown := Unknown(disk.copies, ToSet(keys));
            DeleteOk(t, DeleteCommitted(keys, |KnownPut(disk.copies, ToSet(keys))|, unknown != {}, |history|),
                     init, history + [c], DeleteOnDisk(disk, t, ToSet(keys)))
  {
    NewPendingOwed(disk, t, ToSet(keys));
    KnownPlusUnknown(disk.copies, disk.inner, ToSet(keys));
    StateAtPrefix(init, history, c, |history|);
    assert Unknown(disk.copies, ToSet(keys)) == {} ==> Present(disk.inner, Unknown(disk.copies, ToSet(keys))) == 0;
  }

  lemma DeleteRecorded(tasks: map<nat, Task>, t: nat, keys: seq<Key>, init: Store, history: seq<Commit>, disk: Flush.Disk, c: Commit)
    requires DeleteCounts(tasks, init, history, disk) && (t in tasks ==> !tasks[t].DeleteCommitted?)
    requires disk.phase.Idle? && Flush.Logical(disk) == StateAt(init, history, |history|)
    requires c == Commit(Deletes(ToSet(keys)), ToSet(keys), FromDelete(keys))
    ensures var unknown := Unknown(disk.copies, ToSet(keys));
            DeleteCounts(tasks[t := DeleteCommitted(keys, |KnownPut(disk.copies, ToSet(keys))|, unknown != {}, |history|)],
                         init, history + [c], DeleteOnDisk(disk, t, ToSet(keys)))
  {
    var ks := ToSet(keys);
    var task := DeleteCommitted(keys, |KnownPut(disk.copies, ks)|, Unknown(disk.copies, ks) != {}, |history|);
    assert !Flush.Due(disk, t);
    CommitDeletes(tasks, init, history, disk, c);
    DeleteCountRight(t, keys, init, history, disk, c);
    NewPendingOwed(disk, t, ks);
    OthersKeepCounts(tasks, t, task, init, history + [c], disk.(copies := disk.copies + c.writes), DeleteOnDisk(disk, t, ks));
  }

  lemma CommitDeleteLocking(disk: Flush.Disk, t: nat, keys: set<Key>)
    requires Flush.Inv(disk) && disk.phase.Idle? && !Flush.Due(disk, t)
    ensures Flush.Inv(DeleteOnDisk(disk, t, keys))
  {
    if keys != {} {
      NewPendingInv(disk, t, keys);
    }
  }

  lemma CommitDeleteTasks(s: State, t: nat, keys: seq<Key>, init: Store)
    requires Inv(init, s) && Enabled(s, CommitDelete(t)) && keys == s.tasks[t].keys
    ensures var s' := DoCommitDelete(s, t, keys);
            && Accounting(s'.tasks, s'.nextTask, s'.pendingFlushes, s'.noPendingFlushesPromise)
            && Flushers(s'.tasks, s'.writer, s'.disk.copies)
            && Placed(s'.tasks, s'.history)
            && Txns(s'.tasks, s'.history, View(Deletes(ToSet(keys)), Flush.Logical(s.disk)), s'.disk.copies.Keys)
  {
    var task := DoCommitDelete(s, t, keys).tasks[t];
    var c := Commit(Deletes(ToSet(keys)), ToSet(keys), FromDelete(keys));
    CommittedTask(s.tasks, t, task, s.nextTask, s.pendingFlushes, s.noPendingFlushesPromise, DoCommitDelete(s, t, keys).disk.copies);
    CommitPlaced(s.tasks, t, task, s.history, c);
    CommittedTxns(s.tasks, t, task, s.history, Flush.Logical(s.disk), s.disk.copies.Keys);
    CommitTxns(s.tasks[t := task], s.history, Flush.Logical(s.disk), s.disk.copies, c);
  }

  lemma CommittedTask(tasks: map<nat, Task>, t: nat, task: Task, nextTask: nat, pendingFlushes: nat, promise: Option<nat>, copies: Copies)
    requires t in tasks && IsCommitted(task) && Accounting(tasks, nextTask, pendingFlushes, promise)
    ensures Accounting(tasks[t := task], nextTask, pendingFlushes, promise) && Flushers(tasks[t := task], None, copies)
  {
    assert tasks[t := task].Keys == tasks.Keys && t in tasks[t := task] && IsCommitted(tasks[t := task][t]);
  }

  lemma CommittedTxns(tasks: map<nat, Task>, t: nat, task: Task, history: seq<Commit>, m: Store, hidden: set<Key>)
    requires IsCommitted(task) && Txns(tasks, history, m, hidden)
    ensures Txns(tasks[t := task], history, m, hidden)
  {
  }

  lemma CommitDeleteRest(s: State, t: nat, keys: seq<Key>, init: Store)
    requires Inv(init, s) && Enabled(s, CommitDelete(t)) && keys == s.tasks[t].keys
    ensures var s' := DoCommitDelete(s, t, keys);
            && Commits(init, s'.history, s'.txnCount, s'.txnWriteSets, Flush.Logical(s'.disk))
            && Locking(s'.disk, s'.writer, s'.readers)
            && Flush.Logical(s'.disk) == View(Deletes(ToSet(keys)), Flush.Logical(s.disk))
  {
    var ks := ToSet(keys);
    var c := Commit(Deletes(ks), ks, FromDelete(keys));
    ViewDeletes(ks, Flush.Logical(s.disk));
    CommitHistory(init, s, c);
    CommitDeleteLocking(s.disk, t, ks);
  }

  lemma CommitDeleteAnswers(s: State, t: nat, keys: seq<Key>, init: Store)
    requires Outcomes(init, s.history, s.outcomes) && Answered(init, s.history, s.tasks, s.getCalls)
    ensures var s' := DoCommitDelete(s, t, keys);
            Outcomes(init, s'.history, s'.outcomes) && Answered(init, s'.history, s'.tasks, s'.getCalls)
  {
    var s' := DoCommitDelete(s, t, keys);
    CommitOutcomes(init, s.history, s'.tasks, s.getCalls, s.outcomes, Commit(Deletes(ToSet(keys)), ToSet(keys), FromDelete(keys)));
  }

  lemma CommitDeleteOk(init: Store, s: State, t: nat)
    requires Inv(init, s) && Enabled(s, CommitDelete(t))
    ensures Inv(init, Do(s, CommitDelete(t)))
  {
    var keys := s.tasks[t].keys;
    CommitDeleteTasks(s, t, keys, init);
    CommitDeleteRest(s, t, keys, init);
    CommitDeleteAnswers(s, t, keys, init);
    DeleteRecorded(s.tasks, t, keys, init, s.history, s.disk, Commit(Deletes(ToSet(keys)), ToSet(keys), FromDelete(keys)));
  }

  // --- The end of a flush ------------------------------------------------------------------------------------

  lemma EndFlushDisk(disk: Flush.Disk, results: map<nat, nat>)
    requires Flush.Inv(disk) && disk.phase.Finished? && results.Keys <= disk.results.Keys
    ensures Flush.Inv(disk.(phase := Flush.Idle, entries := map[], results := results))
  {
  }

  // Letting go, a call takes its own count with it and no other.
  lemma EndFlushDeletes(tasks: map<nat, Task>, t: nat, task: Task, init: Store, history: seq<Commit>, disk: Flush.Disk)
    requires DeleteCounts(tasks, init, history, disk) && disk.phase.Finished? && disk.pending == map[] && t in tasks
    requires !task.DeleteCommitted?
    ensures DeleteCounts(tasks[t := task], init, history, disk.(phase := Flush.Idle, entries := map[], results := disk.results - {t}))
    ensures !Flush.Due(disk, t) ==> disk.results - {t} == disk.results
    ensures Flush.Due(disk, t) <==> tasks[t].DeleteCommitted? && tasks[t].checks
    ensures Flush.Due(disk, t) <==> t in disk.results
    ensures tasks[t].DeleteCommitted? ==>
      AnswerOk(init, history, Deleted(tasks[t].keys, tasks[t].deleted + if tasks[t].checks then disk.results[t] else 0, tasks[t].at))
  {
    var disk' := disk.(phase := Flush.Idle, entries := map[], results := disk.results - {t});
    forall o | o in tasks && o != t && tasks[o].DeleteCommitted? ensures DeleteOk(o, tasks[o], init, history, disk') {
      assert DeleteOk(o, tasks[o], init, history, disk);
    }
    forall o | Flush.Due(disk', o) ensures o in tasks && o != t && tasks[o].DeleteCommitted? && tasks[o].checks {
      assert Flush.Due(disk, o);
    }
    if tasks[t].DeleteCommitted? {
      assert DeleteOk(t, tasks[t], init, history, disk);
    }
  }

  lemma EndFlushAnswer(init: Store, s: State, t: nat)
    requires Enabled(s, EndFlush(t)) && DeleteCounts(s.tasks, init, s.history, s.disk)
    requires s.disk.pending == map[] && Placed(s.tasks, s.history)
    ensures var answer := AnswerOf(s.tasks[t], t, s.disk.results);
            answer.Some? ==> AnswerOk(init, s.history, answer.value)
    ensures DoEndFlush(s, t).disk == s.disk.(phase := Flush.Idle, entries := map[], results := s.disk.results - {t})
  {
    EndFlushDeletes(s.tasks, t, TxnCalled, init, s.history, s.disk);
  }

  // The invariant after a flush ended, for any state that differs as DoEndFlush makes it.
  ghost predicate FlushEnded(s: State, t: nat, task: Task, s': State) {
    && t in s.tasks && s.disk.phase.Finished? && task.Ending?
    && s'.disk == s.disk.(phase := Flush.Idle, entries := map[], results := s.disk.results - {t})
    && s'.history == s.history && s'.txnCount == s.txnCount && s'.txnWriteSets == s.txnWriteSets
    && s'.tasks == s.tasks[t := task] && s'.writer == None && s'.readers == s.readers
  }

  lemma EndFlushTasks(tasks: map<nat, Task>, t: nat, task: Task, history: seq<Commit>)
    requires Placed(tasks, history) && !IsCommitted(task)
    ensures Flushers(tasks[t := task], None, map[]) && Placed(tasks[t := task], history)
  {
  }

  // Once a flush is through there is nothing left to flush.
  lemma NothingToFlush(init: Store, s: State)
    requires Inv(init, s) && s.disk.phase.Finished?
    ensures DeleteCounts(s.tasks, init, s.history, s.disk) && Placed(s.tasks, s.history)
    ensures s.disk.copies == map[] && s.disk.pending == map[]
  {
  }

  lemma EndFlushCounts(init: Store, s: State, t: nat, task: Task, s': State)
    requires DeleteCounts(s.tasks, init, s.history, s.disk) && Placed(s.tasks, s.history)
    requires FlushEnded(s, t, task, s') && s.disk.copies == map[] && s.disk.pending == map[]
    ensures Flushers(s'.tasks, s'.writer, s'.disk.copies)
    ensures DeleteCounts(s'.tasks, init, s'.history, s'.disk)
    ensures Placed(s'.tasks, s'.history)
  {
    EndFlushDeletes(s.tasks, t, task, init, s.history, s.disk);
    EndFlushTasks(s.tasks, t, task, s.history);
  }

  lemma EndFlushTxns(init: Store, s: State, t: nat, task: Task, s': State)
    requires Inv(init, s) && FlushEnded(s, t, task, s')
    ensures Txns(s'.tasks, s'.history, Flush.Logical(s'.disk), s'.disk.copies.Keys)
  {
  }

  lemma EndFlushRest(init: Store, s: State, t: nat, task: Task, s': State)
    requires Inv(init, s) && FlushEnded(s, t, task, s')
    ensures Commits(init, s'.history, s'.txnCount, s'.txnWriteSets, Flush.Logical(s'.disk))
    ensures Locking(s'.disk, s'.writer, s'.readers)
    ensures Readers(s'.readers, Flush.Logical(s'.disk), s'.disk.copies.Keys)
  {
    EndFlushDisk(s.disk, s.disk.results - {t});
  }

  lemma EndFlushOk(init: Store, s: State, t: nat)
    requires Inv(init, s) && Enabled(s, EndFlush(t))
    ensures Inv(init, Do(s, EndFlush(t)))
  {
    var s', task := DoEndFlush(s, t), Ending(AnswerOf(s.tasks[t], t, s.disk.results));
    EndFlushAnswer(init, s, t);
    AnswerAdded(init, s.history, s.tasks, s.getCalls, t, task);
    assert s'.tasks.Keys == s.tasks.Keys;
    NothingToFlush(init, s);
    EndFlushCounts(init, s, t, task, s');
    EndFlushTxns(init, s, t, task, s');
    EndFlushRest(init, s, t, task, s');
  }

  lemma AnswerAdded(init: Store, history: seq<Commit>, tasks: map<nat, Task>, getCalls: map<nat, GetCall>, t: nat, task: Task)
    requires Answered(init, history, tasks, getCalls)
    requires task.Ending? && task.answer.Some? ==> AnswerOk(init, history, task.answer.value)
    ensures Answered(init, history, tasks[t := task], getCalls)
  {
  }

  // --- Critical sections that flush at once, and the dispatch ------------------------------------------------

  lemma CommitDeleteAllOk(init: Store, s: State, t: nat)
    requires Inv(init, s) && Enabled(s, CommitDeleteAll(t))
    ensures Inv(init, Do(s, CommitDeleteAll(t)))
  {
    var m := Flush.Logical(s.disk);
    var c := Commit(Deletes(m.Keys), m.Keys, FromDeleteAll);
    ViewDeletes(m.Keys, m);
    assert m - m.Keys == map[];
    RecordOk(init, s, t, DeleteAllCommitted(|s.history|), c);
    LockOk(init, RecordCommit(SetTask(s, t, DeleteAllCommitted(|s.history|)), c), t);
  }

  lemma CommitPutOk(init: Store, s: State, t: nat)
    requires Inv(init, s) && Enabled(s, CommitPut(t))
    ensures Inv(init, Do(s, CommitPut(t)))
  {
    var entries := s.tasks[t].entries;
    ViewPuts(entries, Flush.Logical(s.disk));
    RecordOk(init, s, t, PutCommitted(entries, |s.history|), Commit(Puts(entries), entries.Keys, FromPut(entries)));
  }

  // A transaction that passes validation has seen exactly what it would have seen alone on
  // the state it now commits to.
  lemma ValidatedCommitOk(x: Txn, history: seq<Commit>, sets: Window, m: Store, hidden: set<Key>)
    requires TxnOk(x, history, m, hidden) && x.deleting.None? && WindowOk(history, sets)
    requires Validates(sets, x.start, |history|, x.readSet)
    ensures CommitOk(m, Commit(x.copies, x.writeSet, FromTxn(x.log)))
  {
    WindowExact(history, sets, x.start, x.readSet);
    EffectsSufficient(m, Ops(x.log));
    EffectsWritten(Ops(x.log));
  }

  lemma ValidateOk(init: Store, s: State, t: nat)
    requires Inv(init, s) && Enabled(s, TxnValidate(t))
    ensures Inv(init, Do(s, TxnValidate(t)))
  {
    var x := s.tasks[t].txn;
    if Validates(s.txnWriteSets, x.start, s.txnCount, x.readSet) {
      var c := Commit(x.copies, x.writeSet, FromTxn(x.log));
      ValidatedCommitOk(x, s.history, s.txnWriteSets, Flush.Logical(s.disk), s.disk.copies.Keys);
      RecordOk(init, s, t, TxnCommitted(x.log, |s.history|), c);
      LockOk(init, RecordCommit(SetTask(s, t, TxnCommitted(x.log, |s.history|)), c), t);
    } else {
      SetOpenOk(init, s, t, TxnCalled);
    }
  }

  predicate IsCall(step: Step) {
    step.CallPut? || step.CallDelete? || step.CallDeleteAll? || step.CallTransaction?
  }

  lemma CallInv(init: Store, s: State, step: Step)
    requires Inv(init, s) && Enabled(s, step) && IsCall(step)
    ensures Inv(init, Do(s, step))
  {
    match step
    case CallPut(entries) => CallOk(init, s, PutCalled(entries));
    case CallDelete(keys) => CallOk(init, s, DeleteCalled(keys));
    case CallDeleteAll => CallOk(init, s, DeleteAllCalled);
    case CallTransaction => CallOk(init, s, TxnCalled);
  }

  predicate IsLockStep(step: Step) {
    || step.CommitPut? || step.CommitDelete? || step.CommitDeleteAll?
    || step.BeginFlush? || step.FlushStep? || step.EndFlush? || step.EndCall?
  }

  lemma LockInv(init: Store, s: State, step: Step)
    requires Inv(init, s) && Enabled(s, step) && IsLockStep(step)
    ensures Inv(init, Do(s, step))
  {
    match step
    case CommitPut(t) => CommitPutOk(init, s, t);
    case CommitDelete(t) => CommitDeleteOk(init, s, t);
    case CommitDeleteAll(t) => CommitDeleteAllOk(init, s, t);
    case BeginFlush(t) => LockOk(init, s, t);
    case FlushStep(step) => FlushStepOk(init, s, step);
    case EndFlush(t) => EndFlushOk(init, s, t);
    case EndCall(t) => EndCallOk(init, s, t);
  }

  lemma StepInv(init: Store, s: State, step: Step)
    requires Inv(init, s) && Enabled(s, step)
    ensures Inv(init, Do(s, step))
  {
    if IsCall(step) {
      CallInv(init, s, step);
    } else if IsLockStep(step) {
      LockInv(init, s, step);
    } else {
      match step
      case TxnBegin(t) => NewTxnOk(s); SetOpenOk(init, s, t, TxnRunning(NewTxn(s)));
      case InTxn(t, inside) => InTxnOk(init, s, t, inside);
      case TxnThrow(t) => SetOpenOk(init, s, t, Ending(None));
      case TxnEndRolledBack(t) => SetOpenOk(init, s, t, Ending(None));
      case TxnValidate(t) => ValidateOk(init, s, t);
      case InGet(id, part) => GetDoOk(init, s, id, part);
    }
  }

  lemma {:induction false} RunInv(init: Store, steps: seq<Step>)
    requires IsRun(Initial(init), steps)
    ensures Inv(init, After(Initial(init), steps))
    decreases |steps|
  {
    if steps == [] {
      InitialInv(init);
    } else {
      var before := steps[..|steps| - 1];
      RunInv(init, before);
      StepInv(init, After(Initial(init), before), steps[|steps| - 1]);
    }
  }
}
