/** What a transaction's validation comes to: which keys commits mark as written, and that it
    commits exactly when none of those it read is among them. */
module StorageDecisions {
  import opened Common
  import opened Overlay
  import opened Serial
  import opened History
  import opened StorageSystem
  import opened StorageInvariant
  import opened StorageCalls
  import opened StorageTransactions
  import Flush

  predicate OpAsksFor(op: Op, k: Key) {
    match op
    case GetMany(_) => false
    case PutMany(entries) => k in entries
    case DeleteMany(keys) => k in keys
  }

  // The keys that a commit of this origin marks as written: those it was given, or all there
  // were; for a transaction those of its puts and deletes, refused ones too.
  ghost predicate Marks(m: Store, origin: Origin, k: Key) {
    match origin
    case FromPut(entries) => k in entries
    case FromDelete(keys) => k in keys
    case FromDeleteAll => k in m
    case FromTxn(log) => exists i :: 0 <= i < |log| && OpAsksFor(log[i].op, k)
  }

  ghost predicate MarkedAt(init: Store, history: seq<Commit>, n: nat)
    requires n < |history|
  {
    forall k :: k in history[n].writeSet <==> Marks(StateAt(init, history, n), history[n].origin, k)
  }

  ghost predicate AllMarked(init: Store, history: seq<Commit>) {
    forall n | 0 <= n < |history| :: MarkedAt(init, history, n)
  }

  lemma {:induction false} WrittenExact(log: seq<Event>, k: Key)
    ensures k in EffectsOf(Ops(log)).written <==> exists i :: 0 <= i < |log| && OpAsksFor(log[i].op, k)
  {
    if log != [] {
      var before, e := log[..|log| - 1], log[|log| - 1];
      WrittenExact(before, k);
      ExtendLog(map[], before, e);
      assert log == before + [e] && Ops(log)[..|before|] == Ops(before);
      OneMoreWritten(EffectsOf(Ops(before)), e.op, k);
      OneMoreAsks(before, e, k);
    }
  }

  lemma OneMoreWritten(e: Effects, op: Op, k: Key)
    ensures k in Effect(e, op).written <==> k in e.written || OpAsksFor(op, k)
  {
  }

  lemma OneMoreAsks(log: seq<Event>, e: Event, k: Key)
    ensures (exists i :: 0 <= i < |log + [e]| && OpAsksFor((log + [e])[i].op, k))
       <==> (exists i :: 0 <= i < |log| && OpAsksFor(log[i].op, k)) || OpAsksFor(e.op, k)
  {
    var longer := log + [e];
    assert longer[|log|] == e;
    if i :| 0 <= i < |log| && OpAsksFor(log[i].op, k) {
      assert OpAsksFor(longer[i].op, k);
    }
  }

  lemma CommitMarked(init: Store, history: seq<Commit>, c: Commit)
    requires AllMarked(init, history)
    requires forall k :: k in c.writeSet <==> Marks(StateAt(init, history, |history|), c.origin, k)
    ensures AllMarked(init, history + [c])
  {
    var longer := history + [c];
    forall n | 0 <= n < |longer| ensures MarkedAt(init, longer, n) {
      StateAtPrefix(init, history, c, n);
      if n < |history| {
        assert MarkedAt(init, history, n);
        assert longer[n] == history[n];
      }
    }
  }

  lemma ValidateMarked(init: Store, s: State, t: nat)
    requires Inv(init, s) && AllMarked(init, s.history) && Enabled(s, TxnValidate(t))
    ensures AllMarked(init, Do(s, TxnValidate(t)).history)
  {
    var x := s.tasks[t].txn;
    assert TxnOk(x, s.history, Flush.Logical(s.disk), s.disk.copies.Keys);
    if Validates(s.txnWriteSets, x.start, s.txnCount, x.readSet) {
      var c := Commit(x.copies, x.writeSet, FromTxn(x.log));
      TxnMarked(init, s.history, x);
      CommitMarked(init, s.history, c);
    }
  }

  lemma TxnMarked(init: Store, history: seq<Commit>, x: Txn)
    requires Recorded(x) && x.deleting.None?
    ensures forall k :: k in x.writeSet <==> Marks(StateAt(init, history, |history|), FromTxn(x.log), k)
  {
    forall k ensures k in x.writeSet <==> Marks(StateAt(init, history, |history|), FromTxn(x.log), k) {
      WrittenExact(x.log, k);
    }
  }

  lemma PutMarked(init: Store, s: State, t: nat)
    requires AllMarked(init, s.history) && Enabled(s, CommitPut(t))
    ensures AllMarked(init, Do(s, CommitPut(t)).history)
  {
    var entries := s.tasks[t].entries;
    CommitMarked(init, s.history, Commit(Puts(entries), entries.Keys, FromPut(entries)));
  }

  lemma DeleteMarked(init: Store, s: State, t: nat)
    requires AllMarked(init, s.history) && Enabled(s, CommitDelete(t))
    ensures AllMarked(init, Do(s, CommitDelete(t)).history)
  {
    var keys := s.tasks[t].keys;
    CommitMarked(init, s.history, Commit(Deletes(ToSet(keys)), ToSet(keys), FromDelete(keys)));
  }

  lemma DeleteAllMarked(init: Store, s: State, t: nat)
    requires Flush.Logical(s.disk) == StateAt(init, s.history, |s.history|)
    requires AllMarked(init, s.history) && Enabled(s, CommitDeleteAll(t))
    ensures AllMarked(init, Do(s, CommitDeleteAll(t)).history)
  {
    var names := Flush.Logical(s.disk).Keys;
    CommitMarked(init, s.history, Commit(Deletes(names), names, FromDeleteAll));
  }

  lemma StepMarked(init: Store, s: State, step: Step)
    requires Inv(init, s) && AllMarked(init, s.history) && Enabled(s, step)
    ensures AllMarked(init, Do(s, step).history)
  {
    if step.TxnValidate? {
      ValidateMarked(init, s, step.t);
    } else if step.CommitPut? {
      PutMarked(init, s, step.t);
    } else if step.CommitDelete? {
      DeleteMarked(init, s, step.t);
    } else if step.CommitDeleteAll? {
      DeleteAllMarked(init, s, step.t);
    } else {
      HistoryStays(s, step);
    }
  }

  lemma HistoryStays(s: State, step: Step)
    requires Enabled(s, step) && !step.CommitPut? && !step.CommitDelete? && !step.CommitDeleteAll? && !step.TxnValidate?
    ensures Do(s, step).history == s.history
  {
    if IsCall(step) {
      CallIs(s, step);
    } else if step.InGet? {
      assert GetDo(s, step.id, step.part).history == s.history;
    } else if step.EndCall? {
      assert DoEndCall(s, step.t).history == s.history;
    }
  }

  lemma {:induction false} RunMarked(init: Store, steps: seq<Step>)
    requires IsRun(Initial(init), steps)
    ensures AllMarked(init, After(Initial(init), steps).history)
    decreases |steps|
  {
    if steps != [] {
      var before := steps[..|steps| - 1];
      RunMarked(init, before);
      RunInv(init, before);
      StepMarked(init, After(Initial(init), before), steps[|steps| - 1]);
    }
  }

  // A transaction commits exactly when at most 16 commits happened since it began and none of
  // them wrote a key that it was asked to read; else it is to begin again, and nothing else
  // changes.
  ghost predicate DecidedRight(s: State, r: State, t: nat, since: nat, keysRead: set<Key>) {
    && since <= |s.history| && t in s.tasks && t in r.tasks
    && (r.tasks[t].TxnCommitted? <==>
          && |s.history| - since <= TXN_WRITE_SETS_MAX_SIZE
          && forall n, k | since <= n < |s.history| && k in keysRead :: k !in s.history[n].writeSet)
    && (!r.tasks[t].TxnCommitted? ==> r == s.(tasks := s.tasks[t := TxnCalled]))
  }

  lemma ValidationDecides(init: Store, steps: seq<Step>, t: nat)
    requires IsRun(Initial(init), steps) && Enabled(After(Initial(init), steps), TxnValidate(t))
    ensures var w := WantedOf(init, steps, t);
            DecidedRight(After(Initial(init), steps), Do(After(Initial(init), steps), TxnValidate(t)), t, w.since, w.keysRead)
  {
    RunInv(init, steps);
    RunWanted(init, steps, t);
    Decides(init, After(Initial(init), steps), t, WantedOf(init, steps, t));
  }

  lemma Decides(init: Store, s: State, t: nat, w: Wanted)
    requires Inv(init, s) && AsWanted(s, t, w) && Enabled(s, TxnValidate(t))
    ensures DecidedRight(s, Do(s, TxnValidate(t)), t, w.since, w.keysRead)
  {
    var x := s.tasks[t].txn;
    assert TxnOk(x, s.history, Flush.Logical(s.disk), s.disk.copies.Keys);
    WindowExact(s.history, s.txnWriteSets, x.start, x.readSet);
  }

  // The commits since a transaction began mark just the keys they were given to write.
  lemma MarksExact(init: Store, steps: seq<Step>, n: nat, k: Key)
    requires IsRun(Initial(init), steps) && n < |After(Initial(init), steps).history|
    ensures var h := After(Initial(init), steps).history;
            k in h[n].writeSet <==> Marks(StateAt(init, h, n), h[n].origin, k)
  {
    RunMarked(init, steps);
    assert MarkedAt(init, After(Initial(init), steps).history, n);
  }
}
