/** Transactions running alone on a plain map: the reference against which concurrent
    executions are judged. No overlay, no read set, no interleaving. */
module Serial {
  import opened Common
  import opened Overlay

  const MAX_KEYS := 128

  datatype Op =
    | GetMany(keys: seq<Key>)
    | PutMany(entries: Store)
    | DeleteMany(keys: seq<Key>)

  // `Rejected` is the error for modifying more than MAX_KEYS keys in one transaction.
  datatype Reply = Values(values: seq<Option<Value>>) | Done | Count(n: nat) | Rejected

  datatype Event = Event(op: Op, reply: Reply)

  // The map a lone transaction works on and the keys it has asked to write so far.
  datatype Alone = Alone(m: Store, written: set<Key>)

  function LookupAll(m: Store, keys: seq<Key>): seq<Option<Value>> {
    seq(|keys|, i requires 0 <= i < |keys| => Lookup(m, keys[i]))
  }

  // Number of values found; a key asked for twice counts twice.
  function CountFound(values: seq<Option<Value>>): nat {
    if values == [] then 0 else CountFound(values[..|values| - 1]) + if values[|values| - 1].Some? then 1 else 0
  }

  predicate NoneTwice(m: Store, keys: seq<Key>) {
    forall i, j | 0 <= i < j < |keys| :: keys[i] == keys[j] ==> keys[i] !in m
  }

  lemma AppendLookup(m: Store, keys: seq<Key>, k: Key)
    ensures CountFound(LookupAll(m, keys + [k])) == CountFound(LookupAll(m, keys)) + if k in m then 1 else 0
  {
    assert LookupAll(m, keys + [k])[..|keys|] == LookupAll(m, keys);
  }

  lemma AppendPresent(m: Store, keys: seq<Key>, k: Key)
    ensures Present(m, ToSet(keys + [k])) == Present(m, ToSet(keys)) + if k in m && k !in keys then 1 else 0
  {
    var before, after := Found(m, ToSet(keys)), Found(m, ToSet(keys + [k]));
    if k in m && k !in keys {
      assert after == before + {k};
    } else {
      assert after == before;
    }
  }

  lemma AppendTwice(m: Store, keys: seq<Key>, k: Key)
    ensures NoneTwice(m, keys + [k]) <==> NoneTwice(m, keys) && (k in m ==> k !in keys)
  {
    var more := keys + [k];
    if k in m && k in keys {
      var i :| 0 <= i < |keys| && keys[i] == k;
      assert more[i] == more[|keys|];
    }
    assert forall i | 0 <= i < |keys| :: more[i] == keys[i];
  }

  // A delete inside a transaction counts a key as often as it is given: it reports the number
  // of keys it removes if and only if no key of the map is given twice.
  lemma {:induction false} CountDistinct(m: Store, keys: seq<Key>)
    ensures Present(m, ToSet(keys)) <= CountFound(LookupAll(m, keys))
    ensures CountFound(LookupAll(m, keys)) == Present(m, ToSet(keys)) <==> NoneTwice(m, keys)
  {
    if keys != [] {
      var before, k := keys[..|keys| - 1], keys[|keys| - 1];
      CountDistinct(m, before);
      assert keys == before + [k];
      AppendLookup(m, before, k);
      AppendPresent(m, before, k);
      AppendTwice(m, before, k);
    }
  }

  // A key of the map that is given twice is removed once and counted twice.
  lemma TwiceCounted(m: Store, k: Key)
    requires k in m
    ensures Perform(Alone(m, {}), DeleteMany([k, k])) == (Alone(m - {k}, {k}), Count(2)) && Present(m, ToSet([k, k])) == 1
  {
    AppendLookup(m, [], k);
    AppendLookup(m, [k], k);
    AppendPresent(m, [], k);
    AppendPresent(m, [k], k);
    assert [] + [k] == [k] && [k] + [k] == [k, k];
    assert ToSet([k, k]) == {k};
    assert CountFound(LookupAll(m, [])) == 0;
  }

  function OpWrites(op: Op): set<Key> {
    match op
    case GetMany(_) => {}
    case PutMany(entries) => entries.Keys
    case DeleteMany(keys) => ToSet(keys)
  }

  function Perform(a: Alone, op: Op): (Alone, Reply) {
    var written := a.written + OpWrites(op);
    match op
    case GetMany(keys) =>
      (a, Values(LookupAll(a.m, keys)))
    case PutMany(entries) =>
      if |written| > MAX_KEYS then (Alone(a.m, written), Rejected)
      else (Alone(a.m + entries, written), Done)
    case DeleteMany(keys) =>
      if |written| > MAX_KEYS then (Alone(a.m, written), Rejected)
      else (Alone(a.m - ToSet(keys), written), Count(CountFound(LookupAll(a.m, keys))))
  }

  function RunAlone(m: Store, ops: seq<Op>): (Alone, seq<Reply>) {
    if ops == [] then (Alone(m, {}), [])
    else
      var (a, replies) := RunAlone(m, ops[..|ops| - 1]);
      var (a', reply) := Perform(a, ops[|ops| - 1]);
      (a', replies + [reply])
  }

  function Ops(log: seq<Event>): seq<Op> {
    seq(|log|, i requires 0 <= i < |log| => log[i].op)
  }

  function Replies(log: seq<Event>): seq<Reply> {
    seq(|log|, i requires 0 <= i < |log| => log[i].reply)
  }

  // The recorded replies are those the same operations get when run alone on m.
  predicate Explains(m: Store, log: seq<Event>) {
    RunAlone(m, Ops(log)).1 == Replies(log)
  }

  lemma ExtendLog(m: Store, log: seq<Event>, e: Event)
    ensures Ops(log + [e]) == Ops(log) + [e.op] && Replies(log + [e]) == Replies(log) + [e.reply]
    ensures RunAlone(m, Ops(log + [e])).0 == Perform(RunAlone(m, Ops(log)).0, e.op).0
    ensures Explains(m, log) && Perform(RunAlone(m, Ops(log)).0, e.op).1 == e.reply ==> Explains(m, log + [e])
  {
    assert Ops(log + [e])[..|log|] == Ops(log);
  }

  // --- What a transaction writes does not depend on what it reads --------------------------

  datatype Effects = Effects(copies: Copies, written: set<Key>)

  function Effect(e: Effects, op: Op): Effects {
    var written := e.written + OpWrites(op);
    if op.GetMany? then e
    else if |written| > MAX_KEYS then Effects(e.copies, written)
    else if op.PutMany? then Effects(e.copies + Puts(op.entries), written)
    else Effects(e.copies + Deletes(ToSet(op.keys)), written)
  }

  function EffectsOf(ops: seq<Op>): Effects {
    if ops == [] then Effects(map[], {}) else Effect(EffectsOf(ops[..|ops| - 1]), ops[|ops| - 1])
  }

  lemma {:induction false} EffectsSufficient(m: Store, ops: seq<Op>)
    ensures RunAlone(m, ops).0 == Alone(View(EffectsOf(ops).copies, m), EffectsOf(ops).written)
  {
    if ops == [] {
      ViewEmpty(m);
    } else {
      var before, op := ops[..|ops| - 1], ops[|ops| - 1];
      EffectsSufficient(m, before);
      OneEffect(m, EffectsOf(before), op);
    }
  }

  lemma OneEffect(m: Store, e: Effects, op: Op)
    ensures Perform(Alone(View(e.copies, m), e.written), op).0 == Alone(View(Effect(e, op).copies, m), Effect(e, op).written)
  {
    if op.PutMany? {
      ViewAfterPut(e.copies, op.entries, m);
    } else if op.DeleteMany? {
      ViewAfterDelete(e.copies, ToSet(op.keys), m);
    }
  }

  lemma {:induction false} EffectsWritten(ops: seq<Op>)
    ensures EffectsOf(ops).copies.Keys <= EffectsOf(ops).written
  {
    if ops != [] {
      EffectsWritten(ops[..|ops| - 1]);
    }
  }

  // --- Replies depend only on the keys read ---------------------------------------------------

  function EventReads(e: Event): set<Key> {
    match e.op
    case GetMany(keys) => ToSet(keys)
    case PutMany(_) => {}
    case DeleteMany(keys) => if e.reply.Rejected? then {} else ToSet(keys)
  }

  ghost predicate ReadsWithin(log: seq<Event>, keys: set<Key>) {
    forall i | 0 <= i < |log| :: EventReads(log[i]) <= keys
  }

  ghost predicate AgreeOn(keys: set<Key>, m: Store, m': Store) {
    forall k | k in keys :: Lookup(m, k) == Lookup(m', k)
  }

  lemma ReplyOnReads(m: Store, m': Store, e: Effects, event: Event)
    requires AgreeOn(EventReads(event), m, m')
    requires Perform(Alone(View(e.copies, m), e.written), event.op).1 == event.reply
    ensures Perform(Alone(View(e.copies, m'), e.written), event.op).1 == event.reply
  {
    if !event.op.PutMany? && EventReads(event) != {} {
      SameLookups(e.copies, m, m', event.op.keys);
    } else if event.op.GetMany? || event.op.DeleteMany? {
      if event.op.keys != [] {
        assert event.op.keys[0] in ToSet(event.op.keys);
      }
    }
  }

  lemma SameLookups(copies: Copies, m: Store, m': Store, keys: seq<Key>)
    requires AgreeOn(ToSet(keys), m, m')
    ensures LookupAll(View(copies, m), keys) == LookupAll(View(copies, m'), keys)
  {
  }

  lemma LastReply(m: Store, before: seq<Event>, e: Event)
    requires Explains(m, before + [e])
    ensures Explains(m, before) && Perform(RunAlone(m, Ops(before)).0, e.op).1 == e.reply
  {
    ExtendLog(m, before, e);
    var replies, reply := RunAlone(m, Ops(before)).1, Perform(RunAlone(m, Ops(before)).0, e.op).1;
    assert Ops(before + [e])[..|before|] == Ops(before);
    assert replies + [reply] == Replies(before) + [e.reply];
    RepliesLength(m, Ops(before));
    assert replies == (replies + [reply])[..|before|];
    assert Replies(before) == (Replies(before) + [e.reply])[..|before|];
    assert (replies + [reply])[|before|] == (Replies(before) + [e.reply])[|before|];
  }

  lemma RepliesLength(m: Store, ops: seq<Op>)
    ensures |RunAlone(m, ops).1| == |ops|
  {
  }

  lemma {:induction false} ExplainsOnReads(m: Store, m': Store, log: seq<Event>, read: set<Key>)
    requires AgreeOn(read, m, m') && ReadsWithin(log, read) && Explains(m, log)
    ensures Explains(m', log)
  {
    if log != [] {
      var before, e := log[..|log| - 1], log[|log| - 1];
      assert log == before + [e];
      LastReply(m, before, e);
      ExplainsOnReads(m, m', before, read);
      EffectsSufficient(m, Ops(before));
      EffectsSufficient(m', Ops(before));
      assert EventReads(e) <= read;
      ReplyOnReads(m, m', EffectsOf(Ops(before)), e);
      ExtendLog(m', before, e);
    }
  }

  // --- What a lone worker's operations mean ----------------------------------------------------

  lemma RunMore(m: Store, ops: seq<Op>, op: Op)
    ensures RunAlone(m, ops + [op]).0 == Perform(RunAlone(m, ops).0, op).0
    ensures RunAlone(m, ops + [op]).1 == RunAlone(m, ops).1 + [Perform(RunAlone(m, ops).0, op).1]
  {
    assert (ops + [op])[..|ops|] == ops;
  }

  // What a get after these operations reads at a key.
  predicate ReadsNext(m: Store, ops: seq<Op>, k: Key, value: Option<Value>) {
    var replies := RunAlone(m, ops + [GetMany([k])]).1;
    |replies| == |ops| + 1 && replies[|ops|] == Values([value])
  }

  lemma GetReads(m: Store, ops: seq<Op>, k: Key)
    ensures ReadsNext(m, ops, k, Lookup(RunAlone(m, ops).0.m, k))
  {
    RunMore(m, ops, GetMany([k]));
    RepliesLength(m, ops);
  }

  // A get of several keys reads at each of them, in order.
  lemma GetsEach(m: Store, ops: seq<Op>, keys: seq<Key>)
    ensures var replies := RunAlone(m, ops + [GetMany(keys)]).1;
            && |replies| == |ops| + 1 && replies[|ops|].Values? && |replies[|ops|].values| == |keys|
            && forall i | 0 <= i < |keys| :: ReadsNext(m, ops, keys[i], replies[|ops|].values[i])
  {
    RunMore(m, ops, GetMany(keys));
    RepliesLength(m, ops);
    forall i | 0 <= i < |keys| ensures ReadsNext(m, ops, keys[i], Lookup(RunAlone(m, ops).0.m, keys[i])) {
      GetReads(m, ops, keys[i]);
    }
  }

  // All keys the operations asked to write.
  predicate AsksToWrite(ops: seq<Op>, k: Key) {
    exists i :: 0 <= i < |ops| && ((ops[i].PutMany? && k in ops[i].entries) || (ops[i].DeleteMany? && k in ops[i].keys))
  }

  lemma {:induction false} WrittenAlone(m: Store, ops: seq<Op>, k: Key)
    ensures k in RunAlone(m, ops).0.written <==> AsksToWrite(ops, k)
  {
    if ops != [] {
      var before, op := ops[..|ops| - 1], ops[|ops| - 1];
      WrittenAlone(m, before, k);
      WrittenStep(RunAlone(m, before).0, op, k);
      if i :| 0 <= i < |before| && ((before[i].PutMany? && k in before[i].entries) || (before[i].DeleteMany? && k in before[i].keys)) {
        assert ops[i] == before[i];
      }
    }
  }

  lemma WrittenStep(a: Alone, op: Op, k: Key)
    ensures k in Perform(a, op).0.written <==> k in a.written || (op.PutMany? && k in op.entries) || (op.DeleteMany? && k in op.keys)
  {
  }

  // The first get finds the map as it was, at every key.
  lemma FirstGet(m: Store, k: Key)
    ensures ReadsNext(m, [], k, if k in m then Some(m[k]) else None)
  {
    GetReads(m, [], k);
  }

  // A put is refused exactly if more than 128 keys are to be written by then, and changes
  // nothing; else the next get reads what was put, and all else as before.
  lemma PutReadBack(m: Store, ops: seq<Op>, entries: Store, written: set<Key>, k: Key, value: Option<Value>)
    requires forall x :: x in written <==> AsksToWrite(ops, x) || x in entries
    requires ReadsNext(m, ops, k, value)
    ensures var longer := ops + [PutMany(entries)];
            && RunAlone(m, longer).1 == RunAlone(m, ops).1 + [if |written| > 128 then Rejected else Done]
            && ReadsNext(m, longer, k, if |written| <= 128 && k in entries then Some(entries[k]) else value)
  {
    GetReads(m, ops, k);
    RunMore(m, ops, PutMany(entries));
    AllWritten(m, ops, entries.Keys, written);
    GetReads(m, ops + [PutMany(entries)], k);
  }

  lemma AllWritten(m: Store, ops: seq<Op>, keys: set<Key>, written: set<Key>)
    requires forall x :: x in written <==> AsksToWrite(ops, x) || x in keys
    ensures RunAlone(m, ops).0.written + keys == written
  {
    forall x ensures x in RunAlone(m, ops).0.written + keys <==> x in written {
      WrittenAlone(m, ops, x);
    }
  }

  // So is a delete; else the next get finds none of its keys, and all else as before.
  lemma DeleteReadBack(m: Store, ops: seq<Op>, keys: seq<Key>, written: set<Key>, k: Key, value: Option<Value>)
    requires forall x :: x in written <==> AsksToWrite(ops, x) || x in keys
    requires ReadsNext(m, ops, k, value)
    ensures var longer := ops + [DeleteMany(keys)];
            && |RunAlone(m, longer).1| == |ops| + 1 && (RunAlone(m, longer).1[|ops|] == Rejected <==> |written| > 128)
            && ReadsNext(m, longer, k, if |written| <= 128 && k in keys then None else value)
  {
    GetReads(m, ops, k);
    RunMore(m, ops, DeleteMany(keys));
    RepliesLength(m, ops);
    AllWritten(m, ops, ToSet(keys), written);
    GetReads(m, ops + [DeleteMany(keys)], k);
  }

  // A get changes nothing.
  lemma GetReadBack(m: Store, ops: seq<Op>, keys: seq<Key>, k: Key, value: Option<Value>)
    requires ReadsNext(m, ops, k, value)
    ensures ReadsNext(m, ops + [GetMany(keys)], k, value)
  {
    GetReads(m, ops, k);
    RunMore(m, ops, GetMany(keys));
    GetReads(m, ops + [GetMany(keys)], k);
  }

  // A delete that is not refused replies in how many places it is given a key there is.
  lemma DeleteReplies(m: Store, ops: seq<Op>, keys: seq<Key>, values: seq<Option<Value>>)
    requires |values| == |keys| && forall i | 0 <= i < |keys| :: ReadsNext(m, ops, keys[i], values[i])
    ensures var replies := RunAlone(m, ops + [DeleteMany(keys)]).1;
            && |replies| == |ops| + 1
            && (replies[|ops|] == Rejected || replies[|ops|] == Count(|set i | 0 <= i < |keys| && values[i].Some?|))
  {
    var now := RunAlone(m, ops).0.m;
    RunMore(m, ops, DeleteMany(keys));
    RepliesLength(m, ops);
    forall i | 0 <= i < |keys| ensures values[i] == Lookup(now, keys[i]) {
      GetReads(m, ops, keys[i]);
    }
    assert LookupAll(now, keys) == values;
    CountMeans(values);
  }

  lemma {:induction false} CountMeans(values: seq<Option<Value>>)
    ensures CountFound(values) == |set i | 0 <= i < |values| && values[i].Some?|
  {
    if values != [] {
      var n := |values| - 1;
      CountMeans(values[..n]);
      var before := set i | 0 <= i < n && values[..n][i].Some?;
      assert (set i | 0 <= i < |values| && values[i].Some?) == before + if values[n].Some? then {n} else {};
    }
  }
}
