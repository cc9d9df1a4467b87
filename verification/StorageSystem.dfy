/** A storage instance with all its concurrent calls, as a labelled step system. One step is
    what runs without interruption between two points where other callbacks may run: a
    critical section, one backing-store operation of a flush, one fetch of a read. */
module StorageSystem {
  import opened Common
  import opened Overlay
  import opened Serial
  import opened History
  import Flush

  // A read looks for all its keys in the copies at once and fetches the others later, one
  // by one, from the backing store.
  datatype Fetched = Unread | Read(value: Option<Value>)
  datatype Pending = Pending(keys: seq<Key>, got: seq<Fetched>)

  datatype Txn = Txn(
    start: nat,
    copies: Copies,
    readSet: set<Key>,
    writeSet: set<Key>,
    log: seq<Event>,
    gets: map<nat, Pending>,
    deleting: Option<Pending>,
    rolledBack: bool)

  // What a call answers, and the number of commits before its own.
  datatype Answer =
    | Written(origin: Origin, at: nat)
    | Deleted(keys: seq<Key>, count: nat, at: nat)
    | Got(keys: seq<Key>, values: seq<Option<Value>>, at: nat)

  // A call that is over for the lock, whether it has an answer or threw, still has to settle.
  datatype Task =
    | PutCalled(entries: Store)
    | PutCommitted(entries: Store, at: nat)
    | DeleteCalled(keys: seq<Key>)
    | DeleteCommitted(keys: seq<Key>, deleted: nat, checks: bool, at: nat)
    | DeleteAllCalled
    | DeleteAllCommitted(at: nat)
    | TxnCalled
    | TxnRunning(txn: Txn)
    | TxnCommitted(log: seq<Event>, at: nat)
    | Ending(answer: Option<Answer>)

  // How many commits, and how many answers, there had been when a call was made.
  datatype Called = Called(commits: nat, answers: nat)

  // A read of the storage itself.
  datatype GetCall = Asked(keys: seq<Key>, called: Called) | Ended(answer: Answer, called: Called)

  // An answer handed out to the call of this number, and how many commits there had been by
  // then.
  datatype Outcome = Outcome(call: nat, answer: Answer, called: Called, answered: nat)

  // `flushed` is the number of commits there were when the last flush ended.
  datatype State = State(
    disk: Flush.Disk,
    history: seq<Commit>,
    flushed: nat,
    txnCount: nat,
    txnWriteSets: Window,
    tasks: map<nat, Task>,
    nextTask: nat,
    pendingFlushes: nat,
    noPendingFlushesPromise: Option<nat>,
    promisesMade: nat,
    writer: Option<nat>,
    readers: map<nat, Pending>,
    calls: map<nat, Called>,
    getCalls: map<nat, GetCall>,
    outcomes: seq<Outcome>)

  // What happens inside a running transaction.
  datatype TxnStep =
    | GetBegin(id: nat, keys: seq<Key>)
    | GetFetch(id: nat, i: nat)
    | GetEnd(id: nat)
    | PutEntries(entries: Store)
    | DeleteBegin(keys: seq<Key>)
    | DeleteFetch(i: nat)
    | DeleteEnd
    | RollBack

  // What happens in a read of the storage itself.
  datatype GetStep =
    | Ask(keys: seq<Key>)
    | Begin
    | Fetch(i: nat)
    | End
    | Reply

  datatype Step =
    | CallPut(entries: Store)
    | CallDelete(keys: seq<Key>)
    | CallDeleteAll
    | CallTransaction
    | CommitPut(t: nat)
    | CommitDelete(t: nat)
    | CommitDeleteAll(t: nat)
    | BeginFlush(t: nat)
    | FlushStep(step: Flush.Step)
    | EndFlush(t: nat)
    | EndCall(t: nat)
    | TxnBegin(t: nat)
    | InTxn(t: nat, inside: TxnStep)
    | TxnThrow(t: nat)
    | TxnEndRolledBack(t: nat)
    | TxnValidate(t: nat)
    | InGet(id: nat, part: GetStep)

  function Initial(init: Store): State {
    State(Flush.Disk(init, map[], map[], map[], map[], Flush.Idle), [], 0, 0, map[], map[], 0,
          0, None, 0, None, map[], map[], map[], [])
  }

  // --- Reads -----------------------------------------------------------------------------

  function FromCopies(first: Copies, second: Copies, k: Key): Fetched {
    if k in first then Read(first[k]) else if k in second then Read(second[k]) else Unread
  }

  function BeginRead(keys: seq<Key>, first: Copies, second: Copies): Pending {
    Pending(keys, seq(|keys|, i requires 0 <= i < |keys| => FromCopies(first, second, keys[i])))
  }

  predicate CanFetch(p: Pending, i: nat) {
    i < |p.got| && i < |p.keys| && p.got[i].Unread?
  }

  function FetchOne(p: Pending, i: nat, inner: Store): Pending
    requires CanFetch(p, i)
  {
    p.(got := p.got[i := Read(Lookup(inner, p.keys[i]))])
  }

  predicate AllRead(p: Pending) {
    forall i | 0 <= i < |p.got| :: p.got[i].Read?
  }

  function ReadValues(p: Pending): seq<Option<Value>>
    requires AllRead(p)
  {
    seq(|p.got|, i requires 0 <= i < |p.got| => p.got[i].value)
  }

  // --- Calls and the count of pending flushes ----------------------------------------------

  function Now(s: State): Called {
    Called(|s.history|, |s.outcomes|)
  }

  function Call(s: State, task: Task): State {
    var s' := s.(tasks := s.tasks[s.nextTask := task], calls := s.calls[s.nextTask := Now(s)],
                 nextTask := s.nextTask + 1, pendingFlushes := s.pendingFlushes + 1);
    if s.noPendingFlushesPromise.None?
    then s'.(noPendingFlushesPromise := Some(s.promisesMade), promisesMade := s.promisesMade + 1)
    else s'
  }

  // The end of a write call, whether it returned or threw.
  function Settle(s: State, t: nat): State
    requires s.pendingFlushes > 0
  {
    s.(tasks := s.tasks - {t}, calls := s.calls - {t}, pendingFlushes := s.pendingFlushes - 1,
       noPendingFlushesPromise := if s.pendingFlushes == 1 then None else s.noPendingFlushesPromise)
  }

  // The promise that sync() hands out; None stands for one already resolved.
  function Sync(s: State): Option<nat> {
    s.noPendingFlushesPromise
  }

  // --- Critical sections -----------------------------------------------------------------------

  function RecordCommit(s: State, c: Commit): State {
    s.(disk := s.disk.(copies := s.disk.copies + c.writes),
       history := s.history + [c],
       txnCount := s.txnCount + 1,
       txnWriteSets := Record(s.txnCount, s.txnWriteSets, c.writeSet))
  }

  function SetTask(s: State, t: nat, task: Task): State {
    s.(tasks := s.tasks[t := task])
  }

  // Keys a delete must check in the backing store, and keys it knows it deletes.
  function Unknown(copies: Copies, keys: set<Key>): set<Key> {
    keys - copies.Keys
  }

  function KnownPut(copies: Copies, keys: set<Key>): set<Key> {
    set k | k in keys && k in copies && copies[k].Some?
  }

  // The shadow after a delete of these keys: each is marked deleted, and those that had no
  // copy are noted for the next flush to count.
  function DeleteOnDisk(disk: Flush.Disk, t: nat, keys: set<Key>): Flush.Disk {
    var unknown := Unknown(disk.copies, keys);
    disk.(copies := disk.copies + Deletes(keys),
          pending := if unknown == {} then disk.pending else disk.pending[t := unknown])
  }

  function DoCommitDelete(s: State, t: nat, keys: seq<Key>): State {
    var ks := ToSet(keys);
    var task := DeleteCommitted(keys, |KnownPut(s.disk.copies, ks)|, Unknown(s.disk.copies, ks) != {}, |s.history|);
    RecordCommit(SetTask(s, t, task), Commit(Deletes(ks), ks, FromDelete(keys))).(disk := DeleteOnDisk(s.disk, t, ks))
  }

  function LockAndFlush(s: State, t: nat): State
    requires s.disk.phase.Idle?
  {
    s.(writer := Some(t), disk := Flush.Start(s.disk))
  }

  function DoCommitDeleteAll(s: State, t: nat): State
    requires s.disk.phase.Idle?
  {
    var names := Flush.Logical(s.disk).Keys;
    LockAndFlush(RecordCommit(SetTask(s, t, DeleteAllCommitted(|s.history|)), Commit(Deletes(names), names, FromDeleteAll)), t)
  }

  function NewTxn(s: State): Txn {
    Txn(s.txnCount, map[], {}, {}, [], map[], None, false)
  }

  function DoValidate(s: State, t: nat, txn: Txn): State
    requires s.disk.phase.Idle?
  {
    if Validates(s.txnWriteSets, txn.start, s.txnCount, txn.readSet) then
      LockAndFlush(RecordCommit(SetTask(s, t, TxnCommitted(txn.log, |s.history|)), Commit(txn.copies, txn.writeSet, FromTxn(txn.log))), t)
    else
      // Other commits may come before the transaction begins again.
      SetTask(s, t, TxnCalled)
  }

  function AnswerOf(task: Task, t: nat, results: map<nat, nat>): Option<Answer> {
    match task
    case PutCommitted(entries, at) => Some(Written(FromPut(entries), at))
    case DeleteAllCommitted(at) => Some(Written(FromDeleteAll, at))
    case TxnCommitted(log, at) => Some(Written(FromTxn(log), at))
    case DeleteCommitted(keys, deleted, checks, at) =>
      Some(Deleted(keys, deleted + (if checks && t in results then results[t] else 0), at))
    case _ => None
  }

  // The lock is let go with the answer made up; the call settles later.
  function DoEndFlush(s: State, t: nat): State
    requires t in s.tasks
  {
    var task, disk := s.tasks[t], s.disk;
    var results := if task.DeleteCommitted? && task.checks then disk.results - {t} else disk.results;
    SetTask(s, t, Ending(AnswerOf(task, t, disk.results)))
      .(writer := None, flushed := |s.history|, disk := disk.(phase := Flush.Idle, entries := map[], results := results))
  }

  function DoEndCall(s: State, t: nat): State
    requires t in s.tasks && s.tasks[t].Ending? && t in s.calls && s.pendingFlushes > 0
  {
    match s.tasks[t].answer
    case None => Settle(s, t)
    case Some(answer) => Settle(s, t).(outcomes := s.outcomes + [Outcome(t, answer, s.calls[t], |s.history|)])
  }

  // --- Operations of a running transaction --------------------------------------------------

  function TxnDoBeginGet(x: Txn, id: nat, keys: seq<Key>, shadow: Copies): Txn {
    x.(readSet := x.readSet + ToSet(keys), gets := x.gets[id := BeginRead(keys, x.copies, shadow)])
  }

  function TxnDoEndGet(x: Txn, id: nat): Txn
    requires id in x.gets && AllRead(x.gets[id])
  {
    var p := x.gets[id];
    x.(gets := x.gets - {id}, log := x.log + [Event(GetMany(p.keys), Values(ReadValues(p)))])
  }

  function TxnDoPut(x: Txn, entries: Store): Txn {
    var written := x.writeSet + entries.Keys;
    if |written| > MAX_KEYS then
      x.(writeSet := written, log := x.log + [Event(PutMany(entries), Rejected)])
    else
      x.(writeSet := written, copies := x.copies + Puts(entries), log := x.log + [Event(PutMany(entries), Done)])
  }

  function TxnDoBeginDelete(x: Txn, keys: seq<Key>, shadow: Copies): Txn {
    var written := x.writeSet + ToSet(keys);
    if |written| > MAX_KEYS then
      x.(writeSet := written, log := x.log + [Event(DeleteMany(keys), Rejected)])
    else
      x.(writeSet := written, readSet := x.readSet + ToSet(keys), deleting := Some(BeginRead(keys, x.copies, shadow)))
  }

  function TxnDoEndDelete(x: Txn): Txn
    requires x.deleting.Some? && AllRead(x.deleting.value)
  {
    var p := x.deleting.value;
    x.(deleting := None, copies := x.copies + Deletes(ToSet(p.keys)),
       log := x.log + [Event(DeleteMany(p.keys), Count(CountFound(ReadValues(p))))])
  }

  // --- The step relation -------------------------------------------------------------------------

  predicate LockFree(s: State) {
    s.writer.None? && s.readers == map[]
  }

  predicate Running(s: State, t: nat) {
    t in s.tasks && s.tasks[t].TxnRunning?
  }

  // A call made before rollback() may still be queued on the transaction's own lock and run
  // after it, so a rolled back transaction is not stopped from working here.
  predicate TxnEnabled(x: Txn, step: TxnStep) {
    match step
    case GetBegin(id, keys) => x.deleting.None? && id !in x.gets && |keys| <= MAX_KEYS
    case GetFetch(id, i) => id in x.gets && CanFetch(x.gets[id], i)
    case GetEnd(id) => id in x.gets && AllRead(x.gets[id])
    case PutEntries(entries) => x.deleting.None? && x.gets == map[] && |entries.Keys| <= MAX_KEYS
    case DeleteBegin(keys) => x.deleting.None? && x.gets == map[] && |keys| <= MAX_KEYS
    case DeleteFetch(i) => x.deleting.Some? && CanFetch(x.deleting.value, i)
    case DeleteEnd => x.deleting.Some? && AllRead(x.deleting.value)
    case RollBack => true
  }

  function TxnDo(x: Txn, step: TxnStep, shadow: Copies, inner: Store): Txn
    requires TxnEnabled(x, step)
  {
    match step
    case GetBegin(id, keys) => TxnDoBeginGet(x, id, keys, shadow)
    case GetFetch(id, i) => x.(gets := x.gets[id := FetchOne(x.gets[id], i, inner)])
    case GetEnd(id) => TxnDoEndGet(x, id)
    case PutEntries(entries) => TxnDoPut(x, entries)
    case DeleteBegin(keys) => TxnDoBeginDelete(x, keys, shadow)
    case DeleteFetch(i) => x.(deleting := Some(FetchOne(x.deleting.value, i, inner)))
    case DeleteEnd => TxnDoEndDelete(x)
    case RollBack => x.(rolledBack := true)
  }

  predicate GetEnabled(s: State, id: nat, step: GetStep) {
    match step
    // Reads are numbered together with the other calls.
    case Ask(keys) => id == s.nextTask && |keys| <= MAX_KEYS
    case Begin => s.writer.None? && id in s.getCalls && s.getCalls[id].Asked? && id !in s.readers
    case Fetch(i) => id in s.readers && CanFetch(s.readers[id], i)
    case End => id in s.readers && AllRead(s.readers[id]) && id in s.getCalls
    case Reply => id in s.getCalls && s.getCalls[id].Ended?
  }

  function GetDo(s: State, id: nat, step: GetStep): State
    requires GetEnabled(s, id, step)
  {
    match step
    case Ask(keys) => s.(getCalls := s.getCalls[id := Asked(keys, Now(s))], nextTask := s.nextTask + 1)
    case Begin => s.(readers := s.readers[id := BeginRead(s.getCalls[id].keys, map[], s.disk.copies)])
    case Fetch(i) => s.(readers := s.readers[id := FetchOne(s.readers[id], i, s.disk.inner)])
    case End =>
      var answer := Got(s.readers[id].keys, ReadValues(s.readers[id]), |s.history|);
      s.(readers := s.readers - {id}, getCalls := s.getCalls[id := Ended(answer, s.getCalls[id].called)])
    case Reply =>
      s.(getCalls := s.getCalls - {id},
         outcomes := s.outcomes + [Outcome(id, s.getCalls[id].answer, s.getCalls[id].called, |s.history|)])
  }

  predicate Enabled(s: State, step: Step) {
    match step
    // A call with too many keys is refused before it does anything.
    case CallPut(entries) => |entries.Keys| <= MAX_KEYS
    case CallDelete(keys) => |keys| <= MAX_KEYS
    case CallDeleteAll => true
    case CallTransaction => true
    case CommitPut(t) => t in s.tasks && s.tasks[t].PutCalled? && LockFree(s)
    case CommitDelete(t) => t in s.tasks && s.tasks[t].DeleteCalled? && LockFree(s)
    case CommitDeleteAll(t) => t in s.tasks && s.tasks[t].DeleteAllCalled? && LockFree(s) && s.disk.phase.Idle?
    case BeginFlush(t) => t in s.tasks && (s.tasks[t].PutCommitted? || s.tasks[t].DeleteCommitted?) && LockFree(s) && s.disk.phase.Idle?
    case FlushStep(step) => Flush.Enabled(s.disk, step)
    case EndFlush(t) => s.writer == Some(t) && t in s.tasks && s.disk.phase.Finished?
    case EndCall(t) => t in s.tasks && s.tasks[t].Ending? && t in s.calls && s.pendingFlushes > 0
    case TxnBegin(t) => t in s.tasks && s.tasks[t].TxnCalled?
    case InTxn(t, inside) => Running(s, t) && TxnEnabled(s.tasks[t].txn, inside)
    case TxnThrow(t) => Running(s, t)
    // Writes still in progress hold up the end of the closure; reads do not.
    case TxnEndRolledBack(t) => Running(s, t) && s.tasks[t].txn.rolledBack && s.tasks[t].txn.deleting.None?
    case TxnValidate(t) => Running(s, t) && !s.tasks[t].txn.rolledBack && s.tasks[t].txn.deleting.None? && LockFree(s) && s.disk.phase.Idle?
    case InGet(id, part) => GetEnabled(s, id, part)
  }

  function Do(s: State, step: Step): State
    requires Enabled(s, step)
  {
    match step
    case CallPut(entries) => Call(s, PutCalled(entries))
    case CallDelete(keys) => Call(s, DeleteCalled(keys))
    case CallDeleteAll => Call(s, DeleteAllCalled)
    case CallTransaction => Call(s, TxnCalled)
    case CommitPut(t) =>
      var entries := s.tasks[t].entries;
      RecordCommit(SetTask(s, t, PutCommitted(entries, |s.history|)), Commit(Puts(entries), entries.Keys, FromPut(entries)))
    case CommitDelete(t) => DoCommitDelete(s, t, s.tasks[t].keys)
    case CommitDeleteAll(t) => DoCommitDeleteAll(s, t)
    case BeginFlush(t) => LockAndFlush(s, t)
    case FlushStep(step) => s.(disk := Flush.Do(s.disk, step))
    case EndFlush(t) => DoEndFlush(s, t)
    case EndCall(t) => DoEndCall(s, t)
    case TxnBegin(t) => SetTask(s, t, TxnRunning(NewTxn(s)))
    case InTxn(t, inside) => SetTask(s, t, TxnRunning(TxnDo(s.tasks[t].txn, inside, s.disk.copies, s.disk.inner)))
    case TxnThrow(t) => SetTask(s, t, Ending(None))
    case TxnEndRolledBack(t) => SetTask(s, t, Ending(None))
    case TxnValidate(t) => DoValidate(s, t, s.tasks[t].txn)
    case InGet(id, part) => GetDo(s, id, part)
  }

  ghost predicate IsRun(s: State, steps: seq<Step>)
    decreases |steps|, 0
  {
    steps == [] || (IsRun(s, steps[..|steps| - 1]) && Enabled(After(s, steps[..|steps| - 1]), steps[|steps| - 1]))
  }

  ghost function After(s: State, steps: seq<Step>): State
    requires IsRun(s, steps)
    decreases |steps|, 1
  {
    if steps == [] then s else Do(After(s, steps[..|steps| - 1]), steps[|steps| - 1])
  }
}
