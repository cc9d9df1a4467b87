/** The lock over a storage: many readers or one writer, with writers preferred and the lock
    handed directly to whoever is to have it next. */
module RwMutex {
  import opened Common

  // Requests are numbered in order of arrival; a number in a queue stands for the
  // continuation of that request.
  datatype Lock = Lock(readLockCount: nat, writeLocked: bool, readResolveQueue: seq<nat>, writeResolveQueue: seq<nat>)

  const UNLOCKED := Lock(0, false, [], [])

  function ReadLock(l: Lock, t: nat): (Lock, bool) {
    if l.writeResolveQueue == [] && !l.writeLocked then (l.(readLockCount := l.readLockCount + 1), true)
    else (l.(readResolveQueue := l.readResolveQueue + [t]), false)
  }

  function WriteLock(l: Lock, t: nat): (Lock, bool) {
    if l.readLockCount == 0 && !l.writeLocked then (l.(writeLocked := true), true)
    else (l.(writeResolveQueue := l.writeResolveQueue + [t]), false)
  }

  // The lock after a release, and the requests it resolves.
  function Unlock(l: Lock): (Lock, seq<nat>) {
    if l.readLockCount > 0 then (l, [])
    else if l.writeResolveQueue != [] then
      (l.(writeLocked := true, writeResolveQueue := l.writeResolveQueue[1..]), [l.writeResolveQueue[0]])
    else (Lock(l.readLockCount + |l.readResolveQueue|, false, [], []), l.readResolveQueue)
  }

  class ReadWriteMutex {
    var readLockCount: nat
    var writeLocked: bool
    var readResolveQueue: seq<nat>
    var writeResolveQueue: seq<nat>

    function State(): Lock
      reads this
    {
      Lock(readLockCount, writeLocked, readResolveQueue, writeResolveQueue)
    }

    constructor ()
      ensures State() == UNLOCKED
    {
      readLockCount, writeLocked := 0, false;
      readResolveQueue, writeResolveQueue := [], [];
    }

    method AcquireRead(t: nat) returns (acquired: bool)
      modifies this
      ensures (State(), acquired) == ReadLock(old(State()), t)
    {
      if |writeResolveQueue| == 0 && !writeLocked {
        readLockCount := readLockCount + 1;
        return true;
      }
      readResolveQueue := readResolveQueue + [t];
      acquired := false;
    }

    method AcquireWrite(t: nat) returns (acquired: bool)
      modifies this
      ensures (State(), acquired) == WriteLock(old(State()), t)
    {
      if readLockCount == 0 && !writeLocked {
        writeLocked := true;
        return true;
      }
      writeResolveQueue := writeResolveQueue + [t];
      acquired := false;
    }

    method Release() returns (resolved: seq<nat>)
      modifies this
      ensures (State(), resolved) == Unlock(old(State()))
    {
      if readLockCount > 0 {
        return [];
      }
      if |writeResolveQueue| > 0 {
        writeLocked := true;
        resolved := [writeResolveQueue[0]];
        writeResolveQueue := writeResolveQueue[1..];
        return;
      }
      writeLocked := false;
      readLockCount := readLockCount + |readResolveQueue|;
      resolved := [];
      for i := 0 to |readResolveQueue|
        modifies {}
        invariant resolved == readResolveQueue[..i]
      {
        resolved := resolved + [readResolveQueue[i]];
      }
      assert readResolveQueue[..|readResolveQueue|] == readResolveQueue;
      readResolveQueue := [];
    }

    // The end of a closure run with the read lock.
    method ReleaseRead() returns (resolved: seq<nat>)
      requires readLockCount > 0
      modifies this
      ensures (State(), resolved) == Unlock(old(State()).(readLockCount := old(readLockCount) - 1))
    {
      readLockCount := readLockCount - 1;
      resolved := Release();
    }
  }

  // --- Runs ----------------------------------------------------------------------------------

  datatype Kind = Reader | Writer
  datatype Grant = Grant(kind: Kind, ticket: nat)

  datatype Call = AskRead | AskWrite | EndRead(ticket: nat) | EndWrite

  // `kinds` lists every request so far in order of arrival, `grants` those granted, in the
  // order they were; `readers` and `writer` hold the lock.
  datatype Run = Run(lock: Lock, kinds: seq<Kind>, grants: seq<Grant>, readers: set<nat>, writer: Option<nat>)

  const START := Run(UNLOCKED, [], [], {}, None)

  function Grants(kind: Kind, tickets: seq<nat>): seq<Grant> {
    seq(|tickets|, i requires 0 <= i < |tickets| => Grant(kind, tickets[i]))
  }

  function Tickets(s: seq<nat>): set<nat> {
    set t | t in s
  }

  function Resolve(r: Run, l: Lock, resolved: seq<nat>): Run {
    if l.writeLocked then
      r.(lock := l, grants := r.grants + Grants(Writer, resolved), writer := if resolved == [] then None else Some(resolved[0]))
    else
      r.(lock := l, grants := r.grants + Grants(Reader, resolved), readers := r.readers + Tickets(resolved), writer := None)
  }

  predicate Enabled(r: Run, call: Call) {
    match call
    case AskRead => true
    case AskWrite => true
    case EndRead(t) => t in r.readers && r.lock.readLockCount > 0
    case EndWrite => r.writer.Some?
  }

  function Do(r: Run, call: Call): Run
    requires Enabled(r, call)
  {
    var t := |r.kinds|;
    match call
    case AskRead =>
      var (l, acquired) := ReadLock(r.lock, t);
      var asked := r.(lock := l, kinds := r.kinds + [Reader]);
      if acquired then asked.(grants := r.grants + [Grant(Reader, t)], readers := r.readers + {t}) else asked
    case AskWrite =>
      var (l, acquired) := WriteLock(r.lock, t);
      var asked := r.(lock := l, kinds := r.kinds + [Writer]);
      if acquired then asked.(grants := r.grants + [Grant(Writer, t)], writer := Some(t)) else asked
    case EndRead(reader) =>
      var (l, resolved) := Unlock(r.lock.(readLockCount := r.lock.readLockCount - 1));
      Resolve(r.(readers := r.readers - {reader}), l, resolved)
    case EndWrite =>
      var (l, resolved) := Unlock(r.lock);
      Resolve(r.(writer := None), l, resolved)
  }

  ghost predicate IsRun(r: Run, calls: seq<Call>)
    decreases |calls|
  {
    calls == [] || (Enabled(r, calls[0]) && IsRun(Do(r, calls[0]), calls[1..]))
  }

  ghost function After(r: Run, calls: seq<Call>): Run
    requires IsRun(r, calls)
    decreases |calls|
  {
    if calls == [] then r else After(Do(r, calls[0]), calls[1..])
  }

  // --- The invariant -------------------------------------------------------------------------

  // The requests of writers, and the grants to writers, in order.
  function WriteRequests(kinds: seq<Kind>): seq<nat> {
    if kinds == [] then []
    else WriteRequests(kinds[..|kinds| - 1]) + if kinds[|kinds| - 1].Writer? then [|kinds| - 1] else []
  }

  function WriteGrants(grants: seq<Grant>): seq<nat> {
    if grants == [] then []
    else WriteGrants(grants[..|grants| - 1]) + if grants[|grants| - 1].kind.Writer? then [grants[|grants| - 1].ticket] else []
  }

  // A writer excludes all others.
  ghost predicate Exclusive(r: Run) {
    && r.lock.readLockCount == |r.readers|
    && (r.lock.writeLocked <==> r.writer.Some?)
    && (r.writer.Some? ==> r.readers == {})
  }

  // Nobody waits for a lock nobody holds up.
  ghost predicate NotIdle(r: Run) {
    && (r.lock.writeResolveQueue != [] ==> r.writer.Some? || r.readers != {})
    && (r.lock.readResolveQueue != [] ==> r.writer.Some? || r.lock.writeResolveQueue != [])
  }

  ghost predicate WritersInOrder(r: Run) {
    WriteRequests(r.kinds) == WriteGrants(r.grants) + r.lock.writeResolveQueue
  }

  // A reader was granted the lock only after every writer that had arrived before it.
  ghost predicate NoneOvertaken(kinds: seq<Kind>, grants: seq<Grant>) {
    forall i, w | 0 <= i < |grants| && grants[i].kind.Reader? && 0 <= w < |kinds| && w < grants[i].ticket && kinds[w].Writer? ::
      Grant(Writer, w) in grants[..i]
  }

  // Every reader either has been granted the lock or waits in the queue, once.
  ghost predicate ReadersAccounted(kinds: seq<Kind>, grants: seq<Grant>, waiting: seq<nat>) {
    && (forall t | 0 <= t < |kinds| && kinds[t].Reader? :: (Grant(Reader, t) in grants) != (t in waiting))
    && (forall t | t in waiting :: t < |kinds| && kinds[t].Reader?)
    && (forall i, j | 0 <= i < j < |waiting| :: waiting[i] != waiting[j])
    && (forall g | g in grants :: g.ticket < |kinds| && g.kind == kinds[g.ticket])
  }

  ghost predicate HoldersGranted(r: Run) {
    && (forall t | t in r.readers :: Grant(Reader, t) in r.grants)
    && (r.writer.Some? ==> Grant(Writer, r.writer.value) in r.grants)
  }

  ghost predicate Recorded(r: Run) {
    && WritersInOrder(r)
    && NoneOvertaken(r.kinds, r.grants)
    && ReadersAccounted(r.kinds, r.grants, r.lock.readResolveQueue)
    && HoldersGranted(r)
  }

  ghost predicate Inv(r: Run) {
    Exclusive(r) && NotIdle(r) && Recorded(r)
  }

  // --- Writers in order ----------------------------------------------------------------------

  lemma {:induction false} WriteRequestsExact(kinds: seq<Kind>, w: nat)
    ensures w in WriteRequests(kinds) <==> w < |kinds| && kinds[w].Writer?
  {
    if kinds != [] {
      WriteRequestsExact(kinds[..|kinds| - 1], w);
    }
  }

  lemma {:induction false} WriteGrantsExact(grants: seq<Grant>, w: nat)
    ensures w in WriteGrants(grants) <==> Grant(Writer, w) in grants
  {
    if grants != [] {
      WriteGrantsExact(grants[..|grants| - 1], w);
      assert grants == grants[..|grants| - 1] + [grants[|grants| - 1]];
    }
  }

  lemma {:induction false} ReadersAddNoWrites(grants: seq<Grant>, tickets: seq<nat>)
    ensures WriteGrants(grants + Grants(Reader, tickets)) == WriteGrants(grants)
  {
    if tickets == [] {
      assert grants + Grants(Reader, tickets) == grants;
    } else {
      var longer := grants + Grants(Reader, tickets);
      var fewer := tickets[..|tickets| - 1];
      assert longer[..|longer| - 1] == grants + Grants(Reader, fewer);
      ReadersAddNoWrites(grants, fewer);
    }
  }

  lemma AppendGrant(grants: seq<Grant>, g: Grant)
    ensures WriteGrants(grants + [g]) == WriteGrants(grants) + if g.kind.Writer? then [g.ticket] else []
  {
    assert (grants + [g])[..|grants|] == grants;
  }

  lemma AppendRequest(kinds: seq<Kind>, kind: Kind)
    ensures WriteRequests(kinds + [kind]) == WriteRequests(kinds) + if kind.Writer? then [|kinds|] else []
  {
    assert (kinds + [kind])[..|kinds|] == kinds;
  }

  // With no writer waiting, all that asked have been granted the lock.
  lemma AllWritersGranted(r: Run, w: nat)
    requires WritersInOrder(r) && r.lock.writeResolveQueue == [] && w < |r.kinds| && r.kinds[w].Writer?
    ensures Grant(Writer, w) in r.grants
  {
    WriteRequestsExact(r.kinds, w);
    WriteGrantsExact(r.grants, w);
  }

  // --- Every call keeps the invariant ------------------------------------------------------------

  lemma RequestRecorded(kinds: seq<Kind>, kind: Kind, grants: seq<Grant>, waiting: seq<nat>)
    requires NoneOvertaken(kinds, grants) && ReadersAccounted(kinds, grants, waiting)
    ensures NoneOvertaken(kinds + [kind], grants)
    ensures kind.Writer? ==> ReadersAccounted(kinds + [kind], grants, waiting)
    ensures kind.Reader? ==> ReadersAccounted(kinds + [kind], grants, waiting + [|kinds|])
  {
    assert forall i | 0 <= i < |grants| :: grants[i] in grants;
    assert forall i | 0 <= i < |waiting| :: waiting[i] in waiting;
  }

  lemma GrantRecorded(kinds: seq<Kind>, grants: seq<Grant>, g: Grant)
    requires NoneOvertaken(kinds, grants)
    requires g.ticket < |kinds|
    requires g.kind.Reader? ==> forall w | 0 <= w < g.ticket && kinds[w].Writer? :: Grant(Writer, w) in grants
    ensures NoneOvertaken(kinds, grants + [g])
  {
    var longer := grants + [g];
    forall i, w | 0 <= i < |longer| && longer[i].kind.Reader? && 0 <= w < |kinds| && w < longer[i].ticket && kinds[w].Writer?
      ensures Grant(Writer, w) in longer[..i]
    {
      assert longer[..i] == grants[..i];
      assert i == |grants| ==> grants[..i] == grants;
    }
  }

  lemma ReaderGrantRecorded(kinds: seq<Kind>, grants: seq<Grant>, waiting: seq<nat>)
    requires ReadersAccounted(kinds, grants, waiting)
    ensures ReadersAccounted(kinds + [Reader], grants + [Grant(Reader, |kinds|)], waiting)
  {
  }

  lemma WriterGrantRecorded(kinds: seq<Kind>, grants: seq<Grant>, waiting: seq<nat>, w: nat)
    requires ReadersAccounted(kinds, grants, waiting) && w < |kinds| && kinds[w].Writer?
    ensures ReadersAccounted(kinds, grants + [Grant(Writer, w)], waiting)
  {
  }

  lemma AskReadOk(r: Run)
    requires Inv(r)
    ensures Inv(Do(r, AskRead))
  {
    var t := |r.kinds|;
    AppendRequest(r.kinds, Reader);
    AppendGrant(r.grants, Grant(Reader, t));
    RequestRecorded(r.kinds, Reader, r.grants, r.lock.readResolveQueue);
    if r.lock.writeResolveQueue == [] && r.writer.None? {
      ReaderGrantRecorded(r.kinds, r.grants, r.lock.readResolveQueue);
      forall w | 0 <= w < t && r.kinds[w].Writer? ensures Grant(Writer, w) in r.grants {
        AllWritersGranted(r, w);
      }
      GrantRecorded(r.kinds + [Reader], r.grants, Grant(Reader, t));
      assert t !in r.readers;
    }
  }

  lemma AskWriteOk(r: Run)
    requires Inv(r)
    ensures Inv(Do(r, AskWrite))
  {
    var t := |r.kinds|;
    AppendRequest(r.kinds, Writer);
    AppendGrant(r.grants, Grant(Writer, t));
    RequestRecorded(r.kinds, Writer, r.grants, r.lock.readResolveQueue);
    GrantRecorded(r.kinds + [Writer], r.grants, Grant(Writer, t));
    WriterGrantRecorded(r.kinds + [Writer], r.grants, r.lock.readResolveQueue, t);
    assert WritersInOrder(Do(r, AskWrite)) && Exclusive(Do(r, AskWrite)) by {
      AppendEither(WriteGrants(r.grants), r.lock.writeResolveQueue, t);
    }
  }

  lemma AppendEither(granted: seq<nat>, queue: seq<nat>, t: nat)
    ensures granted + queue + [t] == granted + (queue + [t])
    ensures queue == [] ==> granted + queue + [t] == granted + [t] + queue
  {
  }

  // The run while its last holder lets go and before anyone else is let in.
  ghost predicate Freed(r: Run) {
    r.lock.readLockCount == 0 && r.readers == {} && r.writer.None? && Recorded(r)
  }

  lemma HandToWriter(r: Run)
    requires Freed(r) && r.lock.writeResolveQueue != []
    ensures var (l, resolved) := Unlock(r.lock); Inv(Resolve(r, l, resolved))
  {
    var w := r.lock.writeResolveQueue[0];
    var r' := Resolve(r, Unlock(r.lock).0, [w]);
    assert r'.grants == r.grants + [Grant(Writer, w)];
    assert WritersInOrder(r') by {
      AppendGrant(r.grants, Grant(Writer, w));
      FirstOfQueue(WriteGrants(r.grants), r.lock.writeResolveQueue);
    }
    assert w < |r.kinds| && r.kinds[w].Writer? by {
      assert w in WriteGrants(r.grants) + r.lock.writeResolveQueue;
      WriteRequestsExact(r.kinds, w);
    }
    GrantRecorded(r.kinds, r.grants, Grant(Writer, w));
    WriterGrantRecorded(r.kinds, r.grants, r.lock.readResolveQueue, w);
    assert HoldersGranted(r') && Exclusive(r');
  }

  lemma FirstOfQueue(granted: seq<nat>, queue: seq<nat>)
    requires queue != []
    ensures granted + queue == granted + [queue[0]] + queue[1..]
  {
  }

  lemma HandToReaders(r: Run)
    requires Freed(r) && r.lock.writeResolveQueue == []
    ensures var (l, resolved) := Unlock(r.lock); Inv(Resolve(r, l, resolved))
  {
    var queue := r.lock.readResolveQueue;
    ReadersAddNoWrites(r.grants, queue);
    CountDistinct(queue);
    forall w | 0 <= w < |r.kinds| && r.kinds[w].Writer? ensures Grant(Writer, w) in r.grants {
      AllWritersGranted(r, w);
    }
    assert r.readers + Tickets(queue) == Tickets(queue);
    GrantsOf(Reader, queue);
    assert forall i | 0 <= i < |queue| :: queue[i] in queue;
    ReadersNotOvertaking(r.kinds, r.grants, queue);
    ReadersGranted(r.kinds, r.grants, queue);
  }

  lemma GrantsOf(kind: Kind, tickets: seq<nat>)
    ensures forall g :: g in Grants(kind, tickets) <==> g.kind == kind && g.ticket in tickets
  {
    forall g: Grant | g.kind == kind && g.ticket in tickets ensures g in Grants(kind, tickets) {
      var i :| 0 <= i < |tickets| && tickets[i] == g.ticket;
      assert Grants(kind, tickets)[i] == g;
    }
  }

  lemma ReadersGranted(kinds: seq<Kind>, grants: seq<Grant>, queue: seq<nat>)
    requires ReadersAccounted(kinds, grants, queue)
    ensures ReadersAccounted(kinds, grants + Grants(Reader, queue), [])
  {
    GrantsOf(Reader, queue);
  }

  lemma {:induction false} ReadersNotOvertaking(kinds: seq<Kind>, grants: seq<Grant>, queue: seq<nat>)
    requires NoneOvertaken(kinds, grants) && (forall i | 0 <= i < |queue| :: queue[i] < |kinds|)
    requires forall w | 0 <= w < |kinds| && kinds[w].Writer? :: Grant(Writer, w) in grants
    ensures NoneOvertaken(kinds, grants + Grants(Reader, queue))
    decreases |queue|
  {
    if queue == [] {
      assert grants + Grants(Reader, queue) == grants;
    } else {
      var fewer := queue[..|queue| - 1];
      ReadersNotOvertaking(kinds, grants, fewer);
      GrantRecorded(kinds, grants + Grants(Reader, fewer), Grant(Reader, queue[|queue| - 1]));
      assert grants + Grants(Reader, queue) == grants + Grants(Reader, fewer) + [Grant(Reader, queue[|queue| - 1])];
    }
  }

  lemma {:induction false} CountDistinct(s: seq<nat>)
    requires forall i, j | 0 <= i < j < |s| :: s[i] != s[j]
    ensures |Tickets(s)| == |s|
  {
    if s != [] {
      CountDistinct(s[..|s| - 1]);
      assert Tickets(s) == Tickets(s[..|s| - 1]) + {s[|s| - 1]};
    }
  }

  lemma HandOverOk(r: Run)
    requires Freed(r)
    ensures var (l, resolved) := Unlock(r.lock); Inv(Resolve(r, l, resolved))
  {
    if r.lock.writeResolveQueue != [] {
      HandToWriter(r);
    } else {
      HandToReaders(r);
    }
  }

  lemma EndReadOk(r: Run, t: nat)
    requires Inv(r) && Enabled(r, EndRead(t))
    ensures Inv(Do(r, EndRead(t)))
  {
    var freed := r.(readers := r.readers - {t}, lock := r.lock.(readLockCount := r.lock.readLockCount - 1));
    assert |freed.readers| == |r.readers| - 1;
    if r.lock.readLockCount == 1 {
      assert Freed(freed);
      HandOverOk(freed);
    } else {
      assert Do(r, EndRead(t)) == freed;
    }
  }

  lemma EndWriteOk(r: Run)
    requires Inv(r) && Enabled(r, EndWrite)
    ensures Inv(Do(r, EndWrite))
  {
    HandOverOk(r.(writer := None));
  }

  lemma StepInv(r: Run, call: Call)
    requires Inv(r) && Enabled(r, call)
    ensures Inv(Do(r, call))
  {
    match call
    case AskRead => AskReadOk(r);
    case AskWrite => AskWriteOk(r);
    case EndRead(t) => EndReadOk(r, t);
    case EndWrite => EndWriteOk(r);
  }

  lemma {:induction false} RunInv(r: Run, calls: seq<Call>)
    requires Inv(r) && IsRun(r, calls)
    ensures Inv(After(r, calls))
    decreases |calls|
  {
    if calls != [] {
      StepInv(r, calls[0]);
      RunInv(Do(r, calls[0]), calls[1..]);
    }
  }

  // --- What every run keeps ------------------------------------------------------------------

  // A writer never holds the lock together with anyone, and the count is that of the readers.
  lemma MutualExclusion(calls: seq<Call>)
    requires IsRun(START, calls)
    ensures var r := After(START, calls);
            && (r.writer.Some? ==> r.readers == {})
            && r.lock.readLockCount == |r.readers| && (r.lock.writeLocked <==> r.writer.Some?)
  {
    RunInv(START, calls);
  }

  // No wake-up is lost: a lock that nobody holds has nobody waiting for it, and every request
  // ever made has been granted.
  lemma IdleMeansServed(calls: seq<Call>)
    requires IsRun(START, calls) && After(START, calls).readers == {} && After(START, calls).writer.None?
    ensures var r := After(START, calls);
            && r.lock == UNLOCKED
            && forall t | 0 <= t < |r.kinds| :: Grant(r.kinds[t], t) in r.grants
  {
    RunInv(START, calls);
    var r := After(START, calls);
    forall t | 0 <= t < |r.kinds| ensures Grant(r.kinds[t], t) in r.grants {
      if r.kinds[t].Writer? {
        AllWritersGranted(r, t);
      }
    }
  }

  // Writers are granted the lock in the order they asked for it; those not yet granted are
  // the queue.
  lemma WritersServedInOrder(calls: seq<Call>)
    requires IsRun(START, calls)
    ensures var r := After(START, calls); WriteRequests(r.kinds) == WriteGrants(r.grants) + r.lock.writeResolveQueue
  {
    RunInv(START, calls);
  }

  // No reader gets ahead of a writer that arrived before it.
  lemma ReadersDoNotOvertake(calls: seq<Call>, i: nat, w: nat)
    requires IsRun(START, calls) && i < |After(START, calls).grants| && After(START, calls).grants[i].kind.Reader?
    requires w < After(START, calls).grants[i].ticket
    ensures var r := After(START, calls); w < |r.kinds| && (r.kinds[w].Writer? ==> Grant(Writer, w) in r.grants[..i])
  {
    RunInv(START, calls);
  }

  // Whoever holds the lock can let go of it: the count is never brought below zero.
  lemma ReaderCanRelease(calls: seq<Call>, t: nat)
    requires IsRun(START, calls) && t in After(START, calls).readers
    ensures Enabled(After(START, calls), EndRead(t))
  {
    RunInv(START, calls);
    assert After(START, calls).readers != {};
  }

  // --- What each call does ---------------------------------------------------------------------

  predicate NobodyHolds(r: Run) {
    r.readers == {} && r.writer == None
  }

  // What a call does to those who hold the lock and those who wait. A new reader gets in at once
  // unless a writer holds the lock or waits, a new writer only if nobody holds it; others queue
  // up. The last to let go hands over to the first writer waiting, or to all readers waiting.
  ghost predicate DoesRight(r: Run, r': Run, call: Call) {
    var t, readersWaiting, writersWaiting := |r.kinds|, r.lock.readResolveQueue, r.lock.writeResolveQueue;
    match call
    case AskRead =>
      && r'.kinds == r.kinds + [Reader] && r'.writer == r.writer && r'.lock.writeResolveQueue == writersWaiting
      && (if r.writer == None && writersWaiting == []
          then r'.readers == r.readers + {t} && r'.lock.readResolveQueue == readersWaiting && r'.grants == r.grants + [Grant(Reader, t)]
          else r'.readers == r.readers && r'.lock.readResolveQueue == readersWaiting + [t] && r'.grants == r.grants)
    case AskWrite =>
      && r'.kinds == r.kinds + [Writer] && r'.readers == r.readers && r'.lock.readResolveQueue == readersWaiting
      && (if NobodyHolds(r)
          then r'.writer == Some(t) && r'.lock.writeResolveQueue == writersWaiting && r'.grants == r.grants + [Grant(Writer, t)]
          else r'.writer == r.writer && r'.lock.writeResolveQueue == writersWaiting + [t] && r'.grants == r.grants)
    case EndRead(reader) =>
      && r'.kinds == r.kinds
      && (if r.readers == {reader} then HandedOver(r, r')
          else r' == r.(readers := r.readers - {reader}, lock := r'.lock)
               && r'.lock.readResolveQueue == readersWaiting && r'.lock.writeResolveQueue == writersWaiting)
    case EndWrite =>
      r'.kinds == r.kinds && HandedOver(r, r')
  }

  ghost predicate HandedOver(r: Run, r': Run) {
    var readersWaiting, writersWaiting := r.lock.readResolveQueue, r.lock.writeResolveQueue;
    if writersWaiting != [] then
      && r'.writer == Some(writersWaiting[0]) && r'.readers == {}
      && r'.lock.writeResolveQueue == writersWaiting[1..] && r'.lock.readResolveQueue == readersWaiting
      && r'.grants == r.grants + [Grant(Writer, writersWaiting[0])]
    else
      && r'.writer == None && (forall u :: u in r'.readers <==> u in readersWaiting)
      && r'.lock.writeResolveQueue == [] && r'.lock.readResolveQueue == []
      && |r'.grants| == |r.grants| + |readersWaiting| && r'.grants[..|r.grants|] == r.grants
      && forall i | 0 <= i < |readersWaiting| :: r'.grants[|r.grants| + i] == Grant(Reader, readersWaiting[i])
  }

  lemma CallExact(calls: seq<Call>, call: Call)
    requires IsRun(START, calls) && Enabled(After(START, calls), call)
    ensures DoesRight(After(START, calls), Do(After(START, calls), call), call)
  {
    RunInv(START, calls);
    StepExact(After(START, calls), call);
  }

  lemma StepExact(r: Run, call: Call)
    requires Inv(r) && Enabled(r, call)
    ensures DoesRight(r, Do(r, call), call)
  {
    match call
    case AskRead =>
    case AskWrite =>
    case EndRead(t) => EndReadExact(r, t);
    case EndWrite => HandOverExact(r.(writer := None));
  }

  lemma EndReadExact(r: Run, t: nat)
    requires Exclusive(r) && Enabled(r, EndRead(t))
    ensures DoesRight(r, Do(r, EndRead(t)), EndRead(t))
  {
    var freed := r.(readers := r.readers - {t}, lock := r.lock.(readLockCount := r.lock.readLockCount - 1));
    assert |freed.readers| == |r.readers| - 1;
    assert freed.readers == {} <==> r.readers == {t};
    if r.readers == {t} {
      HandOverExact(freed);
    }
  }

  lemma HandOverExact(r: Run)
    requires r.lock.readLockCount == 0 && NobodyHolds(r)
    ensures var (l, resolved) := Unlock(r.lock); Resolve(r, l, resolved).kinds == r.kinds && HandedOver(r, Resolve(r, l, resolved))
  {
  }

  // Anybody may ask at any time, and whoever holds the lock may let go of it.
  lemma CallsPossible(calls: seq<Call>, t: nat)
    requires IsRun(START, calls)
    ensures var r := After(START, calls);
            && Enabled(r, AskRead) && Enabled(r, AskWrite)
            && (t in r.readers ==> Enabled(r, EndRead(t))) && (r.writer != None ==> Enabled(r, EndWrite))
  {
    if t in After(START, calls).readers {
      ReaderCanRelease(calls, t);
    }
  }

  // Readers wait only for a writer, one that holds the lock or one that waits before them.
  lemma ReadersShare(calls: seq<Call>)
    requires IsRun(START, calls) && After(START, calls).lock.readResolveQueue != []
    ensures After(START, calls).writer.Some? || After(START, calls).lock.writeResolveQueue != []
  {
    RunInv(START, calls);
  }
}
