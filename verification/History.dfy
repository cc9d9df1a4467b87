/** The commit history of a storage and the bounded window of write sets kept from it. */
module History {
  import opened Common
  import opened Overlay
  import opened Serial

  // Write sets kept for validating transactions.
  const TXN_WRITE_SETS_MAX_SIZE := 16

  datatype Origin =
    | FromPut(entries: Store)
    | FromDelete(keys: seq<Key>)
    | FromDeleteAll
    | FromTxn(log: seq<Event>)

  // `writes` goes into the shadow copies, `writeSet` is what later validations check.
  datatype Commit = Commit(writes: Copies, writeSet: set<Key>, origin: Origin)

  // What the committed operation does to a plain map when nothing else is going on.
  function SerialEffect(m: Store, origin: Origin): Store {
    match origin
    case FromPut(entries) => m + entries
    case FromDelete(keys) => m - ToSet(keys)
    case FromDeleteAll => map[]
    case FromTxn(log) => RunAlone(m, Ops(log)).0.m
  }

  // The plain map after the first n commits, run one after another.
  function StateAt(init: Store, history: seq<Commit>, n: nat): Store
    requires n <= |history|
  {
    if n == 0 then init else SerialEffect(StateAt(init, history, n - 1), history[n - 1].origin)
  }

  ghost predicate CommitOk(m: Store, c: Commit) {
    && View(c.writes, m) == SerialEffect(m, c.origin)
    && c.writes.Keys <= c.writeSet
    && (c.origin.FromTxn? ==> Explains(m, c.origin.log))
  }

  ghost predicate CommitOkAt(init: Store, history: seq<Commit>, n: nat)
    requires n < |history|
  {
    CommitOk(StateAt(init, history, n), history[n])
  }

  ghost predicate HistoryOk(init: Store, history: seq<Commit>) {
    forall n | 0 <= n < |history| :: CommitOkAt(init, history, n)
  }

  lemma {:induction false} StateAtPrefix(init: Store, history: seq<Commit>, c: Commit, n: nat)
    requires n <= |history|
    ensures StateAt(init, history + [c], n) == StateAt(init, history, n)
  {
    if n != 0 {
      StateAtPrefix(init, history, c, n - 1);
    }
  }

  lemma HistoryExtends(init: Store, history: seq<Commit>, c: Commit)
    requires HistoryOk(init, history) && CommitOk(StateAt(init, history, |history|), c)
    ensures HistoryOk(init, history + [c])
    ensures StateAt(init, history + [c], |history| + 1) == View(c.writes, StateAt(init, history, |history|))
  {
    var longer := history + [c];
    StateAtPrefix(init, history, c, |history|);
    forall n | 0 <= n < |longer| ensures CommitOkAt(init, longer, n) {
      StateAtPrefix(init, history, c, n);
      if n < |history| {
        assert longer[n] == history[n];
        assert CommitOkAt(init, history, n);
      }
    }
  }

  // --- The window ----------------------------------------------------------------------------

  type Window = map<int, set<Key>>

  function Record(count: nat, sets: Window, writeSet: set<Key>): Window {
    sets[count + 1 := writeSet] - {count + 1 - TXN_WRITE_SETS_MAX_SIZE}
  }

  // The window holds the write sets of precisely the last 16 commits, or of all if fewer.
  ghost predicate WindowOk(history: seq<Commit>, sets: Window) {
    && (forall t :: t in sets <==> 1 <= t <= |history| && |history| - TXN_WRITE_SETS_MAX_SIZE < t)
    && (forall t | t in sets :: sets[t] == history[t - 1].writeSet)
  }

  lemma RecordKeepsWindow(history: seq<Commit>, sets: Window, c: Commit)
    requires WindowOk(history, sets)
    ensures WindowOk(history + [c], Record(|history|, sets, c.writeSet))
  {
  }

  predicate Validates(sets: Window, start: nat, finish: nat, readSet: set<Key>) {
    forall t | start < t <= finish :: t in sets && sets[t] !! readSet
  }

  // Nothing the transaction read was written by any commit since it started.
  ghost predicate Unconflicted(history: seq<Commit>, start: nat, readSet: set<Key>) {
    forall i | start <= i < |history| :: history[i].writeSet !! readSet
  }

  // Validation against the window accepts exactly when at most 16 commits happened since
  // the start and a check of the whole history would accept too.
  lemma WindowExact(history: seq<Commit>, sets: Window, start: nat, readSet: set<Key>)
    requires WindowOk(history, sets) && start <= |history|
    ensures Validates(sets, start, |history|, readSet)
       <==> |history| - start <= TXN_WRITE_SETS_MAX_SIZE && Unconflicted(history, start, readSet)
  {
    if Validates(sets, start, |history|, readSet) {
      assert start < |history| ==> start + 1 in sets;
      forall i | start <= i < |history| ensures history[i].writeSet !! readSet {
        assert sets[i + 1] !! readSet;
      }
    } else {
      var t :| start < t <= |history| && !(t in sets && sets[t] !! readSet);
      if t in sets {
        assert !(history[t - 1].writeSet !! readSet);
      }
    }
  }

  lemma WindowSize(history: seq<Commit>, sets: Window)
    requires WindowOk(history, sets)
    ensures |sets.Keys| == if |history| < TXN_WRITE_SETS_MAX_SIZE then |history| else TXN_WRITE_SETS_MAX_SIZE
  {
    var low := if |history| < TXN_WRITE_SETS_MAX_SIZE then 0 else |history| - TXN_WRITE_SETS_MAX_SIZE;
    assert sets.Keys == Interval(low, |history|);
  }

  ghost function Interval(low: int, high: int): (ts: set<int>)
    requires low <= high
    ensures |ts| == high - low && forall t :: t in ts <==> low < t <= high
    decreases high - low
  {
    if low == high then {} else Interval(low, high - 1) + {high}
  }
}
