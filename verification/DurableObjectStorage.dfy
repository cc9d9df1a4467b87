/** The storage and transaction objects a Durable Object works with: the code of their critical
    sections, of validation and of the flush, each of which runs without interruption by
    another holder of the write lock. */
module DurableObjectStorage {
  import opened Common
  import opened Overlay
  import opened Serial
  import opened History
  import opened ShadowStorage
  import Flush
  import Listing
  import LimitedListing
  import Order
  import System = StorageSystem

  // `NotUsable` is the error of a rolled back or finished transaction, `TooMany` that of a
  // call with too many keys.
  datatype Answer = NotUsable | TooMany | Replied(reply: Reply)

  class DurableObjectTransaction {
    const inner: ShadowStorage
    const startTxnCount: nat
    var rolledback: bool
    var committed: bool
    var writeSet: set<Key>

    ghost predicate Valid()
      reads this, inner
    {
      inner.Wired() && inner.recordReads && inner.under != null
    }

    // The transaction as a lone worker on a plain map.
    ghost function Alone(): Alone
      reads this, inner, inner.Below()
    {
      Serial.Alone(inner.Shown(), writeSet)
    }

    predicate Usable()
      reads this
    {
      !rolledback && !committed
    }

    constructor (shadow: ShadowStorage, startTxnCount: nat)
      requires shadow.Wired() && shadow.under == null && !shadow.recordReads
      ensures Valid() && fresh(inner) && inner.under == shadow && this.startTxnCount == startTxnCount
      ensures Usable() && writeSet == {} && inner.copies == map[] && inner.readSet == {}
    {
      inner := new ShadowStorage.OverShadow(shadow);
      this.startTxnCount := startTxnCount;
      rolledback, committed, writeSet := false, false, {};
    }

    method MarkWritten(keys: set<Key>) returns (ok: bool)
      modifies this`writeSet
      ensures writeSet == old(writeSet) + keys && (ok <==> |writeSet| <= MAX_KEYS)
    {
      writeSet := writeSet + keys;
      ok := |writeSet| <= MAX_KEYS;
    }

    method Get(keys: seq<Key>) returns (r: Answer)
      requires Valid()
      modifies inner
      ensures Valid() && inner.copies == old(inner.copies)
      ensures !Usable() || |keys| > MAX_KEYS ==> r == (if Usable() then TooMany else NotUsable) && inner.readSet == old(inner.readSet)
      ensures Usable() && |keys| <= MAX_KEYS ==>
        && (Alone(), r) == (Perform(old(Alone()), GetMany(keys)).0, Replied(Perform(old(Alone()), GetMany(keys)).1))
        && inner.readSet == old(inner.readSet) + ToSet(keys)
    {
      if !Usable() {
        return NotUsable;
      }
      if |keys| > MAX_KEYS {
        return TooMany;
      }
      var values := inner.GetMany(keys);
      r := Replied(Values(values));
    }

    method Put(entries: seq<(Key, Value)>) returns (r: Answer)
      requires Valid()
      modifies this`writeSet, inner
      ensures Valid() && inner.readSet == old(inner.readSet)
      ensures !Usable() || |entries| > MAX_KEYS ==>
        r == (if Usable() then TooMany else NotUsable) && inner.copies == old(inner.copies) && writeSet == old(writeSet)
      ensures Usable() && |entries| <= MAX_KEYS ==>
        (Alone(), r) == (Perform(old(Alone()), PutMany(ToMap(entries))).0, Replied(Perform(old(Alone()), PutMany(ToMap(entries))).1))
    {
      if !Usable() {
        return NotUsable;
      }
      if |entries| > MAX_KEYS {
        return TooMany;
      }
      ToMapKeys(entries);
      var ok := MarkWritten(set i | 0 <= i < |entries| :: entries[i].0);
      if !ok {
        return Replied(Rejected);
      }
      PutAll(inner, entries);
      ViewAfterPut(old(inner.copies), ToMap(entries), inner.InnerView());
      r := Replied(Done);
    }

    method Delete(keys: seq<Key>) returns (r: Answer)
      requires Valid()
      modifies this`writeSet, inner
      ensures Valid()
      ensures !Usable() || |keys| > MAX_KEYS ==>
        && r == (if Usable() then TooMany else NotUsable)
        && inner.copies == old(inner.copies) && inner.readSet == old(inner.readSet) && writeSet == old(writeSet)
      ensures Usable() && |keys| <= MAX_KEYS ==>
        && (Alone(), r) == (Perform(old(Alone()), DeleteMany(keys)).0, Replied(Perform(old(Alone()), DeleteMany(keys)).1))
        && inner.readSet == if r == Replied(Rejected) then old(inner.readSet) else old(inner.readSet) + ToSet(keys)
    {
      if !Usable() {
        return NotUsable;
      }
      if |keys| > MAX_KEYS {
        return TooMany;
      }
      var ok := MarkWritten(ToSet(keys));
      if !ok {
        return Replied(Rejected);
      }
      var deleted := inner.DeleteMany(keys);
      ViewAfterDelete(old(inner.copies), ToSet(keys), inner.InnerView());
      r := Replied(Count(deleted));
    }

    // May be called again once rolled back, but not on a finished transaction.
    method Rollback() returns (ok: bool)
      modifies this`rolledback
      ensures ok <==> old(rolledback) || !committed
      ensures rolledback == (old(rolledback) || ok)
    {
      if rolledback {
        return true;
      }
      if committed {
        return false;
      }
      rolledback := true;
      ok := true;
    }
  }

  lemma {:induction false} ToMapKeys(entries: seq<(Key, Value)>)
    ensures ToMap(entries).Keys == set i | 0 <= i < |entries| :: entries[i].0
  {
    if entries != [] {
      var shorter := entries[..|entries| - 1];
      ToMapKeys(shorter);
      assert forall i | 0 <= i < |shorter| :: entries[i] == shorter[i];
    }
  }

  method PutAll(shadow: ShadowStorage, entries: seq<(Key, Value)>)
    modifies shadow`copies
    ensures shadow.copies == old(shadow.copies) + Puts(ToMap(entries))
  {
    for i := 0 to |entries|
      invariant shadow.copies == old(shadow.copies) + Puts(ToMap(entries[..i]))
    {
      assert entries[..i + 1][..i] == entries[..i];
      shadow.Put(entries[i].0, entries[i].1);
    }
    assert entries[..|entries|] == entries;
  }

  method Intersects(a: set<Key>, b: set<Key>) returns (r: bool)
    ensures r <==> !(a !! b)
  {
    var rest := a;
    while rest != {}
      invariant rest <= a && (a - rest) !! b
      decreases |rest|
    {
      var k :| k in rest;
      if k in b {
        return true;
      }
      rest := rest - {k};
    }
    r := false;
  }

  // The keys one delete call leaves for a flush to count; `call` tells such lists apart, as
  // references do.
  datatype DeletedKeySet = DeletedKeySet(call: nat, keys: seq<Key>)

  ghost predicate CallsDistinct(sets: seq<DeletedKeySet>) {
    forall i, j | 0 <= i < j < |sets| :: sets[i].call != sets[j].call
  }

  ghost function PendingOf(sets: seq<DeletedKeySet>): map<nat, set<Key>> {
    if sets == [] then map[]
    else PendingOf(sets[..|sets| - 1])[sets[|sets| - 1].call := ToSet(sets[|sets| - 1].keys)]
  }

  lemma {:induction false} PendingAt(sets: seq<DeletedKeySet>)
    requires CallsDistinct(sets)
    ensures forall i | 0 <= i < |sets| :: sets[i].call in PendingOf(sets) && PendingOf(sets)[sets[i].call] == ToSet(sets[i].keys)
    ensures forall c | c in PendingOf(sets) :: exists i :: 0 <= i < |sets| && sets[i].call == c
  {
    if sets != [] {
      var shorter := sets[..|sets| - 1];
      PendingAt(shorter);
      forall c | c in PendingOf(sets) ensures exists i :: 0 <= i < |sets| && sets[i].call == c {
        if c != sets[|sets| - 1].call {
          assert c in PendingOf(shorter);
          var i :| 0 <= i < |shorter| && shorter[i].call == c;
          assert sets[i].call == c;
        } else {
          assert sets[|sets| - 1].call == c;
        }
      }
    }
  }

  lemma PendingAppend(sets: seq<DeletedKeySet>, call: nat, keys: seq<Key>)
    requires CallsDistinct(sets) && call !in PendingOf(sets)
    ensures CallsDistinct(sets + [DeletedKeySet(call, keys)])
    ensures PendingOf(sets + [DeletedKeySet(call, keys)]) == PendingOf(sets)[call := ToSet(keys)]
  {
    PendingAt(sets);
    assert (sets + [DeletedKeySet(call, keys)])[..|sets|] == sets;
  }

  // What a flush records for these lists when the store holds `inner` before it deletes.
  ghost function ResultsOf(inner: Store, pending: map<nat, set<Key>>): map<nat, nat> {
    map c | c in pending :: Present(inner, pending[c])
  }

  ghost function KeysIn(sets: seq<DeletedKeySet>): set<Key> {
    set i, k | 0 <= i < |sets| && k in sets[i].keys :: k
  }

  class DurableObjectStorage {
    const backing: Backing
    const shadow: ShadowStorage
    var txnCount: nat
    var txnWriteSets: Window
    var deletedKeySets: seq<DeletedKeySet>
    var deletedKeyResults: map<nat, nat>
    var pendingFlushes: nat
    var noPendingFlushesPromise: Option<nat>
    var promisesMade: nat

    ghost predicate Valid()
      reads this, shadow, backing
    {
      && shadow.Wired() && shadow.under == null && !shadow.recordReads && shadow.backing == backing
      && CallsDistinct(deletedKeySets)
      && Flush.Inv(Disk())
    }

    // The state the flush works on, between flushes.
    ghost function Disk(): Flush.Disk
      reads this, shadow, backing
    {
      Flush.Disk(backing.entries, shadow.copies, PendingOf(deletedKeySets), deletedKeyResults, map[], Flush.Idle)
    }

    constructor (inner: Backing)
      ensures Valid() && fresh(shadow) && backing == inner
      ensures Disk() == Flush.Disk(inner.entries, map[], map[], map[], map[], Flush.Idle)
      ensures txnCount == 0 && txnWriteSets == map[] && Accounted() && pendingFlushes == 0
    {
      backing := inner;
      shadow := new ShadowStorage.OverBacking(inner);
      txnCount, txnWriteSets := 0, map[];
      deletedKeySets, deletedKeyResults := [], map[];
      pendingFlushes, noPendingFlushesPromise, promisesMade := 0, None, 0;
    }

    // There is a promise to wait for exactly while writes are in progress.
    predicate Accounted()
      reads this
    {
      && (noPendingFlushesPromise.Some? <==> pendingFlushes > 0)
      && (noPendingFlushesPromise.Some? ==> noPendingFlushesPromise.value < promisesMade)
    }

    method BeginWrite()
      requires Accounted()
      modifies this`pendingFlushes, this`noPendingFlushesPromise, this`promisesMade
      ensures Accounted() && pendingFlushes == old(pendingFlushes) + 1
      ensures noPendingFlushesPromise == if old(pendingFlushes) == 0 then Some(old(promisesMade)) else old(noPendingFlushesPromise)
    {
      pendingFlushes := pendingFlushes + 1;
      if noPendingFlushesPromise.None? {
        noPendingFlushesPromise, promisesMade := Some(promisesMade), promisesMade + 1;
      }
    }

    // The promise that resolves with this, if any, is the one every waiting sync() was given.
    method EndWrite() returns (resolved: Option<nat>)
      requires Accounted() && pendingFlushes > 0
      modifies this`pendingFlushes, this`noPendingFlushesPromise
      ensures Accounted() && pendingFlushes == old(pendingFlushes) - 1
      ensures if pendingFlushes == 0 then resolved == old(noPendingFlushesPromise) && resolved.Some?
              else resolved == None && noPendingFlushesPromise == old(noPendingFlushesPromise)
    {
      assert pendingFlushes > 0 && noPendingFlushesPromise.Some?;
      pendingFlushes := pendingFlushes - 1;
      resolved := None;
      if pendingFlushes == 0 {
        resolved, noPendingFlushesPromise := noPendingFlushesPromise, None;
      }
    }

    method RecordWriteSet(writeSet: set<Key>)
      modifies this`txnCount, this`txnWriteSets
      ensures txnCount == old(txnCount) + 1 && Disk() == old(Disk())
      ensures txnWriteSets == Record(old(txnCount), old(txnWriteSets), writeSet)
    {
      txnCount := txnCount + 1;
      txnWriteSets := txnWriteSets[txnCount := writeSet];
      txnWriteSets := txnWriteSets - {txnCount - TXN_WRITE_SETS_MAX_SIZE};
    }

    // The critical section of put.
    method CommitPut(entries: seq<(Key, Value)>)
      requires Valid()
      modifies this`txnCount, this`txnWriteSets, shadow`copies
      ensures Valid() && Disk() == old(Disk()).(copies := old(shadow.copies) + Puts(ToMap(entries)))
      ensures txnCount == old(txnCount) + 1
      ensures txnWriteSets == Record(old(txnCount), old(txnWriteSets), ToMap(entries).Keys)
    {
      PutAll(shadow, entries);
      ToMapKeys(entries);
      RecordWriteSet(set i | 0 <= i < |entries| :: entries[i].0);
    }

    // Marks keys as deleted, counting those known to be there and listing those not known of.
    method MarkDeleted(keys: seq<Key>) returns (deleted: nat, deletedKeySet: seq<Key>)
      modifies shadow`copies
      ensures shadow.copies == old(shadow.copies) + Deletes(ToSet(keys))
      ensures deleted == |System.KnownPut(old(shadow.copies), ToSet(keys))|
      ensures ToSet(deletedKeySet) == System.Unknown(old(shadow.copies), ToSet(keys))
    {
      ghost var before := shadow.copies;
      deleted, deletedKeySet := 0, [];
      for i := 0 to |keys|
        invariant shadow.copies == before + Deletes(ToSet(keys[..i]))
        invariant deleted == |System.KnownPut(before, ToSet(keys[..i]))|
        invariant ToSet(deletedKeySet) == System.Unknown(before, ToSet(keys[..i]))
      {
        MarkOneMore(before, keys, i);
        if keys[i] in shadow.copies {
          // A key given before, or deleted by an earlier call, is already gone.
          if shadow.copies[keys[i]].Some? {
            deleted := deleted + 1;
          }
        } else {
          ToSetAppend(deletedKeySet, keys[i]);
          deletedKeySet := deletedKeySet + [keys[i]];
        }
        shadow.copies := shadow.copies[keys[i] := None];
      }
      assert keys[..|keys|] == keys;
    }

    // Leaves keys for the next flush to count, if there are any.
    method NoteDeleted(call: nat, keys: seq<Key>)
      requires CallsDistinct(deletedKeySets) && call !in PendingOf(deletedKeySets)
      modifies this`deletedKeySets
      ensures CallsDistinct(deletedKeySets)
      ensures PendingOf(deletedKeySets) == if keys == [] then old(PendingOf(deletedKeySets)) else old(PendingOf(deletedKeySets))[call := ToSet(keys)]
    {
      if |keys| > 0 {
        PendingAppend(deletedKeySets, call, keys);
        deletedKeySets := deletedKeySets + [DeletedKeySet(call, keys)];
      }
    }

    // Marks the keys and leaves those not known of for the next flush to count.
    method MarkAndNote(call: nat, keys: seq<Key>) returns (deleted: nat, deletedKeySet: seq<Key>)
      requires CallsDistinct(deletedKeySets) && call !in PendingOf(deletedKeySets)
      modifies this`deletedKeySets, shadow`copies
      ensures CallsDistinct(deletedKeySets) && Disk() == System.DeleteOnDisk(old(Disk()), call, ToSet(keys))
      ensures deleted == |System.KnownPut(old(shadow.copies), ToSet(keys))|
      ensures ToSet(deletedKeySet) == System.Unknown(old(shadow.copies), ToSet(keys))
    {
      ghost var d := Disk();
      deleted, deletedKeySet := MarkDeleted(keys);
      NoteDeleted(call, deletedKeySet);
      DeletedDisk(d, call, ToSet(keys), deletedKeySet);
    }

    // The critical section of delete: what is known of the count, and the keys to check.
    method CommitDelete(call: nat, keys: seq<Key>) returns (deleted: nat, deletedKeySet: seq<Key>)
      requires Valid() && !Flush.Due(Disk(), call)
      modifies this`txnCount, this`txnWriteSets, this`deletedKeySets, shadow`copies
      ensures Valid() && Disk() == System.DeleteOnDisk(old(Disk()), call, ToSet(keys))
      ensures deleted == |System.KnownPut(old(shadow.copies), ToSet(keys))|
      ensures ToSet(deletedKeySet) == System.Unknown(old(shadow.copies), ToSet(keys))
      ensures txnCount == old(txnCount) + 1
      ensures txnWriteSets == Record(old(txnCount), old(txnWriteSets), ToSet(keys))
    {
      DeleteKeepsInv(Disk(), call, ToSet(keys));
      deleted, deletedKeySet := MarkAndNote(call, keys);
      RecordWriteSet(ToSet(keys));
    }

    method MarkAll(names: seq<Key>)
      modifies shadow`copies
      ensures shadow.copies == old(shadow.copies) + Deletes(ToSet(names))
    {
      for i := 0 to |names|
        invariant shadow.copies == old(shadow.copies) + Deletes(ToSet(names[..i]))
      {
        DeletesOneMore(old(shadow.copies), names, i);
        shadow.copies := shadow.copies[names[i] := None];
      }
      assert names[..|names|] == names;
    }

    // The second critical section of delete: flush, then collect what the store counted.
    method FinishDelete(call: nat, deleted: nat, deletedKeySet: seq<Key>) returns (count: nat)
      requires Valid() && (deletedKeySet != [] ==> Flush.Due(Disk(), call))
      modifies this`deletedKeySets, this`deletedKeyResults, shadow, backing
      ensures Valid()
      ensures count == deleted + if deletedKeySet == [] then 0 else Flush.Owed(old(Disk()), call)
      ensures Disk() == AfterFlush(old(Disk())).(results := Collected(AfterFlush(old(Disk())).results, call, deletedKeySet))
    {
      ghost var d := Disk();
      OwedIsFlushed(d, call);
      DoFlush();
      count := deleted;
      if deletedKeySet != [] {
        assert DeletedKeySet(call, deletedKeySet) !in deletedKeySets;
        count := count + deletedKeyResults[call];
        deletedKeyResults := deletedKeyResults - {call};
      }
    }

    // The critical section of deleteAll.
    method DeleteAll()
      requires Valid()
      modifies this`txnCount, this`txnWriteSets, this`deletedKeySets, this`deletedKeyResults, shadow, backing
      ensures Valid()
      ensures Disk() == AfterFlush(old(Disk()).(copies := old(shadow.copies) + Deletes(old(shadow.Shown()).Keys)))
      ensures txnCount == old(txnCount) + 1
      ensures txnWriteSets == Record(old(txnCount), old(txnWriteSets), old(shadow.Shown()).Keys)
    {
      ghost var d := Disk();
      var names := ListNames();
      MarkAll(names);
      MoreCopiesInv(d, shadow.copies);
      RecordWriteSet(ToSet(names));
      DoFlush();
    }

    method ListNames() returns (names: seq<Key>)
      requires Valid()
      ensures ToSet(names) == shadow.Shown().Keys
    {
      names := shadow.List(Listing.ListOptions(None, None, None, None, false, [], None, None));
      AllMatching(shadow.Shown().Keys);
    }

    // A transaction starts at the number of commits there are, on a shadow of its own over this
    // storage's.
    method BeginTransaction() returns (txn: DurableObjectTransaction)
      requires Valid()
      ensures fresh(txn) && fresh(txn.inner) && txn.Valid() && txn.Usable()
      ensures txn.startTxnCount == txnCount && txn.inner.under == shadow
      ensures txn.Alone() == Alone(shadow.Shown(), {}) && txn.inner.copies == map[] && txn.inner.readSet == {}
    {
      txn := new DurableObjectTransaction(shadow, txnCount);
      ViewEmpty(shadow.Shown());
    }

    // The closure is over: nothing more can be done with the transaction, whether or not it
    // will be committed.
    method EndClosure(txn: DurableObjectTransaction)
      modifies txn`committed
      ensures txn.committed && !txn.Usable() && txn.rolledback == old(txn.rolledback)
    {
      txn.committed := true;
    }

    // The validate phase: whether no commit since the start wrote what the transaction read,
    // as far as the window tells.
    method Validate(txn: DurableObjectTransaction) returns (valid: bool)
      requires Valid() && txn.Valid()
      ensures valid <==> Validates(txnWriteSets, txn.startTxnCount, txnCount, txn.inner.readSet)
    {
      var t := txn.startTxnCount + 1;
      while t <= txnCount
        invariant txn.startTxnCount < t
        invariant forall u | txn.startTxnCount < u < t && u <= txnCount :: u in txnWriteSets && txnWriteSets[u] !! txn.inner.readSet
        decreases txnCount + 1 - t
      {
        if t !in txnWriteSets {
          return false;
        }
        var conflict := Intersects(txnWriteSets[t], txn.inner.readSet);
        if conflict {
          return false;
        }
        t := t + 1;
      }
      valid := true;
    }

    // The validate and write phases; false means that the transaction must run again.
    method ValidateWrite(txn: DurableObjectTransaction) returns (done: bool)
      requires Valid() && txn.Valid() && txn.inner != shadow
      modifies this, shadow, backing
      ensures Valid()
      ensures done <==> txn.rolledback || old(Validates(txnWriteSets, txn.startTxnCount, txnCount, txn.inner.readSet))
      ensures txn.rolledback || !done ==> Disk() == old(Disk()) && txnCount == old(txnCount) && txnWriteSets == old(txnWriteSets)
      ensures !txn.rolledback && done ==>
        && Disk() == AfterFlush(old(Disk()).(copies := old(shadow.copies + txn.inner.copies)))
        && txnCount == old(txnCount) + 1
        && txnWriteSets == Record(old(txnCount), old(txnWriteSets), txn.writeSet)
    {
      if txn.rolledback {
        return true;
      }
      var valid := Validate(txn);
      if !valid {
        return false;
      }
      RecordWriteSet(txn.writeSet);
      CopyAll(txn.inner.copies);
      MoreCopiesInv(old(Disk()), shadow.copies);
      DoFlush();
      done := true;
    }

    method CopyAll(copies: Copies)
      modifies shadow`copies
      ensures shadow.copies == old(shadow.copies) + copies
    {
      var keys := KeysOf(copies);
      for i := 0 to |keys|
        invariant shadow.copies == old(shadow.copies) + Only(copies, ToSet(keys[..i]))
      {
        assert keys[i] in Order.Names(keys);
        OnlyOneMore(old(shadow.copies), copies, keys, i);
        shadow.copies := shadow.copies[keys[i] := copies[keys[i]]];
      }
      assert keys[..|keys|] == keys && ToSet(keys) == Order.Names(keys);
    }

    // A whole flush with the write lock held throughout.
    method DoFlush()
      requires Valid()
      modifies this`deletedKeySets, this`deletedKeyResults, shadow, backing
      ensures Valid() && Disk() == AfterFlush(old(Disk())) && deletedKeySets == []
    {
      ghost var d := Disk();
      FlushedInv(d);
      PendingNeedsCopies(deletedKeySets, shadow.copies.Keys);
      if shadow.copies == map[] {
        assert deletedKeySets == [];
        ViewEmpty(backing.entries);
        return;
      }
      PendingCovered(deletedKeySets, shadow.copies.Keys);
      var sets := deletedKeySets;
      deletedKeySets := [];
      var entries := shadow.copies;
      var keys := KeysOf(entries);
      assert ToSet(keys) == Order.Names(keys);
      var allDeletedKeys := DeletePending(sets);
      WriteEntries(d.inner, entries, keys, allDeletedKeys);
      ClearCopies(entries, keys);
    }

    // Deletes every pending list from the store and records how many of its keys were there.
    method DeletePending(sets: seq<DeletedKeySet>) returns (allDeletedKeys: set<Key>)
      requires CallsDistinct(sets) && Flush.Disjoint(PendingOf(sets))
      modifies this`deletedKeyResults, backing
      ensures backing.entries == old(backing.entries) - KeysIn(sets) && allDeletedKeys == KeysIn(sets)
      ensures deletedKeyResults == old(deletedKeyResults) + ResultsOf(old(backing.entries), PendingOf(sets))
    {
      ghost var inner := backing.entries;
      allDeletedKeys := {};
      for i := 0 to |sets|
        invariant allDeletedKeys == KeysIn(sets[..i]) && backing.entries == inner - KeysIn(sets[..i])
        invariant deletedKeyResults == old(deletedKeyResults) + ResultsOf(inner, PendingOf(sets[..i]))
      {
        KeysInOneMore(sets, i);
        ApartFromEarlier(sets, i);
        PresentApart(inner, KeysIn(sets[..i]), ToSet(sets[i].keys));
        ResultsOneMore(inner, sets, i, old(deletedKeyResults));
        var result := backing.DeleteMany(sets[i].keys);
        deletedKeyResults := deletedKeyResults[sets[i].call := result];
        allDeletedKeys := allDeletedKeys + ToSet(sets[i].keys);
      }
      assert sets[..|sets|] == sets;
    }

    // Puts what was put and deletes what was deleted but not yet removed with a pending list.
    method WriteEntries(ghost inner: Store, entries: Copies, keys: seq<Key>, allDeletedKeys: set<Key>)
      requires ToSet(keys) == entries.Keys && allDeletedKeys <= entries.Keys
      requires backing.entries == inner - allDeletedKeys
      modifies backing
      ensures backing.entries == View(entries, inner)
    {
      var putEntries, deleteKeys := Sift(entries, keys, allDeletedKeys);
      FlushedStore(inner, entries, allDeletedKeys, putEntries, deleteKeys);
      if putEntries != [] {
        backing.PutMany(putEntries);
      }
      if deleteKeys != [] {
        var ignored := backing.DeleteMany(deleteKeys);
      }
    }

    // Removes every copy that did not change while the flush was writing.
    method ClearCopies(entries: Copies, keys: seq<Key>)
      requires shadow.copies == entries && ToSet(keys) == entries.Keys
      modifies shadow`copies
      ensures shadow.copies == map[]
    {
      for i := 0 to |keys|
        invariant shadow.copies == entries - ToSet(keys[..i])
      {
        assert keys[..i + 1] == keys[..i] + [keys[i]];
        ToSetAppend(keys[..i], keys[i]);
        assert keys[i] in ToSet(keys);
        if keys[i] in shadow.copies && shadow.copies[keys[i]] == entries[keys[i]] {
          shadow.copies := shadow.copies - {keys[i]};
        }
      }
      assert keys[..|keys|] == keys;
    }
  }

  // The disk once a flush has run and the next may start.
  ghost function AfterFlush(d: Flush.Disk): Flush.Disk {
    Flush.Flushed(d).(phase := Flush.Idle)
  }

  ghost function Collected(results: map<nat, nat>, call: nat, deletedKeySet: seq<Key>): map<nat, nat> {
    if deletedKeySet == [] then results else results - {call}
  }

  // The answer a delete call is owed is the one the next flush records for it.
  lemma OwedIsFlushed(d: Flush.Disk, call: nat)
    requires Flush.Inv(d) && d.phase.Idle?
    ensures Flush.Due(d, call) ==> call in AfterFlush(d).results && AfterFlush(d).results[call] == Flush.Owed(d, call)
  {
  }

  lemma FlushedInv(d: Flush.Disk)
    requires Flush.Inv(d) && d.phase.Idle?
    ensures Flush.Inv(AfterFlush(d))
  {
  }

  lemma MoreCopiesInv(d: Flush.Disk, copies: Copies)
    requires Flush.Inv(d) && d.phase.Idle? && d.copies.Keys <= copies.Keys
    ensures Flush.Inv(d.(copies := copies))
  {
  }

  lemma PendingNeedsCopies(sets: seq<DeletedKeySet>, keys: set<Key>)
    requires Flush.Covered(PendingOf(sets), keys)
    ensures sets != [] ==> keys != {}
  {
    if sets != [] {
      assert sets[|sets| - 1].call in PendingOf(sets);
      Flush.PendingMeansCopies(PendingOf(sets), keys);
    }
  }

  function Only(copies: Copies, keys: set<Key>): Copies {
    map k | k in copies && k in keys :: copies[k]
  }

  lemma OnlyOneMore(base: Copies, copies: Copies, keys: seq<Key>, i: nat)
    requires i < |keys| && keys[i] in copies
    ensures base + Only(copies, ToSet(keys[..i + 1])) == (base + Only(copies, ToSet(keys[..i])))[keys[i] := copies[keys[i]]]
  {
    assert keys[..i + 1] == keys[..i] + [keys[i]];
    ToSetAppend(keys[..i], keys[i]);
    assert Only(copies, ToSet(keys[..i + 1])) == Only(copies, ToSet(keys[..i]))[keys[i] := copies[keys[i]]];
  }

  lemma ToSetAppend(keys: seq<Key>, k: Key)
    ensures ToSet(keys + [k]) == ToSet(keys) + {k}
  {
  }

  // One more key marked as deleted, judged by the copies as they are by then.
  lemma MarkOneMore(copies: Copies, keys: seq<Key>, i: nat)
    requires i < |keys|
    ensures var now := copies + Deletes(ToSet(keys[..i]));
            && now[keys[i] := None] == copies + Deletes(ToSet(keys[..i + 1]))
            && |System.KnownPut(copies, ToSet(keys[..i + 1]))| == |System.KnownPut(copies, ToSet(keys[..i]))|
               + (if keys[i] in now && now[keys[i]].Some? then 1 else 0)
            && System.Unknown(copies, ToSet(keys[..i + 1])) == System.Unknown(copies, ToSet(keys[..i]))
               + (if keys[i] !in now then {keys[i]} else {})
  {
    DeletesOneMore(copies, keys, i);
    KnownOneMore(copies, keys, i);
  }

  lemma AllMatching(keys: set<Key>)
    ensures ToSet(LimitedListing.FirstMatching(Listing.ListOptions(None, None, None, None, false, [], None, None), keys)) == keys
  {
    var all := Listing.ListOptions(None, None, None, None, false, [], None, None);
    assert LimitedListing.Matching(all, keys) == keys;
    assert ToSet(Order.InOrder(keys, false)) == Order.Names(Order.InOrder(keys, false));
  }

  lemma KeysInOneMore(sets: seq<DeletedKeySet>, i: nat)
    requires i < |sets|
    ensures KeysIn(sets[..i + 1]) == KeysIn(sets[..i]) + ToSet(sets[i].keys)
  {
    var longer, shorter := sets[..i + 1], sets[..i];
    forall k | k in KeysIn(shorter) + ToSet(sets[i].keys) ensures k in KeysIn(longer) {
      if k in ToSet(sets[i].keys) {
        assert k in longer[i].keys;
      } else {
        var j :| 0 <= j < |shorter| && k in shorter[j].keys;
        assert k in longer[j].keys;
      }
    }
    forall k | k in KeysIn(longer) ensures k in KeysIn(shorter) + ToSet(sets[i].keys) {
      var j :| 0 <= j < |longer| && k in longer[j].keys;
      assert j < i ==> k in shorter[j].keys;
    }
  }

  // None of the keys of a pending list was deleted for an earlier one.
  lemma ApartFromEarlier(sets: seq<DeletedKeySet>, i: nat)
    requires i < |sets| && CallsDistinct(sets) && Flush.Disjoint(PendingOf(sets))
    ensures ToSet(sets[i].keys) !! KeysIn(sets[..i])
  {
    PendingAt(sets);
    forall j, k | 0 <= j < i && k in sets[j].keys ensures k !in ToSet(sets[i].keys) {
      assert PendingOf(sets)[sets[j].call] !! PendingOf(sets)[sets[i].call];
      assert k in ToSet(sets[j].keys);
    }
  }

  lemma PresentApart(inner: Store, gone: set<Key>, keys: set<Key>)
    requires keys !! gone
    ensures Present(inner - gone, keys) == Present(inner, keys)
  {
    assert Found(inner - gone, keys) == Found(inner, keys);
  }

  lemma ResultsOneMore(inner: Store, sets: seq<DeletedKeySet>, i: nat, before: map<nat, nat>)
    requires i < |sets|
    ensures before + ResultsOf(inner, PendingOf(sets[..i + 1]))
         == (before + ResultsOf(inner, PendingOf(sets[..i])))[sets[i].call := Present(inner, ToSet(sets[i].keys))]
  {
    assert sets[..i + 1][..i] == sets[..i];
  }

  // Sorts the copies into those to put and those still to delete.
  method Sift(entries: Copies, keys: seq<Key>, allDeletedKeys: set<Key>) returns (putEntries: seq<(Key, Value)>, deleteKeys: seq<Key>)
    requires ToSet(keys) == entries.Keys
    ensures ToMap(putEntries) == map k | k in entries && entries[k].Some? :: entries[k].value
    ensures ToSet(deleteKeys) == set k | k in entries && entries[k].None? && k !in allDeletedKeys
  {
    putEntries, deleteKeys := [], [];
    for i := 0 to |keys|
      invariant ToMap(putEntries) == map k | k in entries && k in ToSet(keys[..i]) && entries[k].Some? :: entries[k].value
      invariant ToSet(deleteKeys) == set k | k in entries && k in ToSet(keys[..i]) && entries[k].None? && k !in allDeletedKeys
    {
      assert keys[..i + 1] == keys[..i] + [keys[i]];
      ToSetAppend(keys[..i], keys[i]);
      assert keys[i] in ToSet(keys);
      match entries[keys[i]]
      case Some(value) =>
        assert (putEntries + [(keys[i], value)])[..|putEntries|] == putEntries;
        putEntries := putEntries + [(keys[i], value)];
      case None =>
        if keys[i] !in allDeletedKeys {
          ToSetAppend(deleteKeys, keys[i]);
          deleteKeys := deleteKeys + [keys[i]];
        }
    }
    assert keys[..|keys|] == keys;
  }

  // Deleting the pending keys, putting the puts and deleting the rest makes the view.
  lemma FlushedStore(inner: Store, entries: Copies, deleted: set<Key>, putEntries: seq<(Key, Value)>, deleteKeys: seq<Key>)
    requires deleted <= entries.Keys
    requires ToMap(putEntries) == map k | k in entries && entries[k].Some? :: entries[k].value
    requires ToSet(deleteKeys) == set k | k in entries && entries[k].None? && k !in deleted
    ensures (inner - deleted) + ToMap(putEntries) - ToSet(deleteKeys) == View(entries, inner)
  {
    SameStore((inner - deleted) + ToMap(putEntries) - ToSet(deleteKeys), View(entries, inner));
  }

  lemma PendingCovered(sets: seq<DeletedKeySet>, keys: set<Key>)
    requires CallsDistinct(sets) && Flush.Covered(PendingOf(sets), keys)
    ensures KeysIn(sets) <= keys
  {
    PendingAt(sets);
    forall i, k | 0 <= i < |sets| && k in sets[i].keys ensures k in keys {
      assert k in ToSet(sets[i].keys);
      assert PendingOf(sets)[sets[i].call] <= keys;
    }
  }

  lemma KnownOneMore(copies: Copies, keys: seq<Key>, i: nat)
    requires i < |keys|
    ensures |System.KnownPut(copies, ToSet(keys[..i + 1]))| == |System.KnownPut(copies, ToSet(keys[..i]))|
          + if keys[i] !in ToSet(keys[..i]) && keys[i] in copies && copies[keys[i]].Some? then 1 else 0
    ensures System.Unknown(copies, ToSet(keys[..i + 1])) == System.Unknown(copies, ToSet(keys[..i]))
          + if keys[i] !in copies then {keys[i]} else {}
  {
    assert keys[..i + 1] == keys[..i] + [keys[i]];
    ToSetAppend(keys[..i], keys[i]);
    KnownWith(copies, ToSet(keys[..i]), keys[i]);
  }

  lemma KnownWith(copies: Copies, keys: set<Key>, k: Key)
    ensures |System.KnownPut(copies, keys + {k})| == |System.KnownPut(copies, keys)|
          + if k !in keys && k in copies && copies[k].Some? then 1 else 0
    ensures System.Unknown(copies, keys + {k}) == System.Unknown(copies, keys) + if k !in copies then {k} else {}
  {
    var before, after := System.KnownPut(copies, keys), System.KnownPut(copies, keys + {k});
    if k !in keys && k in copies && copies[k].Some? {
      assert after == before + {k};
    } else {
      assert after == before;
    }
  }

  lemma DeletedDisk(disk: Flush.Disk, call: nat, keys: set<Key>, unknown: seq<Key>)
    requires ToSet(unknown) == System.Unknown(disk.copies, keys)
    ensures System.DeleteOnDisk(disk, call, keys)
         == disk.(copies := disk.copies + Deletes(keys), pending := if unknown == [] then disk.pending else disk.pending[call := ToSet(unknown)])
  {
    if unknown != [] {
      assert unknown[0] in ToSet(unknown);
    }
  }

  lemma DeleteKeepsInv(disk: Flush.Disk, call: nat, keys: set<Key>)
    requires Flush.Inv(disk) && disk.phase.Idle? && !Flush.Due(disk, call)
    ensures Flush.Inv(System.DeleteOnDisk(disk, call, keys))
  {
    var unknown := System.Unknown(disk.copies, keys);
    forall o | o in disk.pending ensures disk.pending[o] !! unknown {
      assert disk.pending[o] <= disk.copies.Keys;
    }
  }
}
