/** Queues that hand their messages to a consumer in batches: when a batch is due, what
    becomes of each message of it, and how batches in progress overlap with everything else. */
module QueueBroker {
  import opened Common

  type Name = string
  type Body = Bytes

  datatype Consumer = Consumer(maxBatchSize: nat, maxRetries: nat, deadLetterQueue: Option<Name>)

  datatype FlushType = NONE | DELAYED | IMMEDIATE

  // `dispatches` counts how often the message was handed to a consumer.
  datatype Message = Message(body: Body, pendingRetry: bool, failedAttempts: nat, dispatches: nat)

  // A flush that waits for its dispatcher remembers the limits of the consumer it began with.
  datatype Flush = InFlight(batch: seq<nat>, maxAttempts: nat, deadLetterQueue: Option<Name>) | Ended

  // Messages are named by the order they were sent in; `messages` are those queued. Timers
  // are numbered likewise; `timers` are those that have yet to fire and `timeout` is the one
  // the queue remembers, if any. The last three list what became of the other messages.
  datatype Queue = Queue(
    consumer: Option<Consumer>,
    messages: seq<nat>,
    sent: seq<Message>,
    pendingFlush: FlushType,
    timeout: Option<nat>,
    timers: set<nat>,
    timersMade: nat,
    flushes: seq<Flush>,
    acknowledged: seq<nat>,
    dropped: seq<nat>,
    deadLettered: seq<nat>)

  const NEW_QUEUE := Queue(None, [], [], NONE, None, {}, 0, [], [], [], [])

  // --- One queue -------------------------------------------------------------------------------

  function ClearTimeout(q: Queue): Queue {
    if q.timeout.Some? then q.(timers := q.timers - {q.timeout.value}) else q
  }

  function SetTimer(q: Queue, pendingFlush: FlushType): Queue {
    q.(pendingFlush := pendingFlush, timeout := Some(q.timersMade), timers := q.timers + {q.timersMade}, timersMade := q.timersMade + 1)
  }

  function EnsurePendingFlush(q: Queue): Queue {
    if q.consumer.None? || q.pendingFlush.IMMEDIATE? then q
    else
      var full := |q.messages| >= q.consumer.value.maxBatchSize;
      if q.pendingFlush.DELAYED? && !full then q
      else SetTimer(if q.pendingFlush.DELAYED? then ClearTimeout(q) else q, if full then IMMEDIATE else DELAYED)
  }

  function Enqueue(q: Queue, body: Body): Queue {
    EnsurePendingFlush(q.(messages := q.messages + [|q.sent|], sent := q.sent + [Message(body, false, 0, 0)]))
  }

  function EnqueueAll(q: Queue, bodies: seq<Body>): Queue {
    if bodies == [] then q else Enqueue(EnqueueAll(q, bodies[..|bodies| - 1]), bodies[|bodies| - 1])
  }

  // A second consumer is refused.
  function SetConsumer(q: Queue, consumer: Consumer): Queue {
    if q.consumer.Some? then q
    else if q.messages == [] then q.(consumer := Some(consumer))
    else EnsurePendingFlush(q.(consumer := Some(consumer)))
  }

  function ResetConsumer(q: Queue): Queue {
    ClearTimeout(q).(pendingFlush := NONE, consumer := None)
  }

  function Retry(q: Queue, m: nat): Queue
    requires m < |q.sent|
  {
    q.(sent := q.sent[m := q.sent[m].(pendingRetry := true)])
  }

  predicate Within(ms: seq<nat>, n: nat) {
    forall i | 0 <= i < |ms| :: ms[i] < n
  }

  function RetryAll(sent: seq<Message>, batch: seq<nat>): (r: seq<Message>)
    requires Within(batch, |sent|)
    ensures |r| == |sent|
  {
    if batch == [] then sent
    else
      var rest := RetryAll(sent, batch[1..]);
      rest[batch[0] := rest[batch[0]].(pendingRetry := true)]
  }

  function Dispatched(sent: seq<Message>, batch: seq<nat>): (r: seq<Message>)
    requires Within(batch, |sent|)
    ensures |r| == |sent|
  {
    if batch == [] then sent
    else
      var rest := Dispatched(sent, batch[1..]);
      rest[batch[0] := rest[batch[0]].(dispatches := rest[batch[0]].dispatches + 1)]
  }

  function Batch(q: Queue): seq<nat>
    requires q.consumer.Some?
  {
    q.messages[..if q.consumer.value.maxBatchSize < |q.messages| then q.consumer.value.maxBatchSize else |q.messages|]
  }

  // A timer fires and its flush runs up to the dispatcher.
  function Fire(q: Queue, timer: nat): Queue
    requires Within(q.messages, |q.sent|)
  {
    var fired := q.(timers := q.timers - {timer});
    if q.consumer.None? then fired
    else
      fired.(messages := q.messages[|Batch(q)|..],
             sent := Dispatched(q.sent, Batch(q)),
             flushes := q.flushes + [InFlight(Batch(q), q.consumer.value.maxRetries + 1, q.consumer.value.deadLetterQueue)])
  }

  // How the messages of a batch are sorted out.
  datatype Sorted = Sorted(sent: seq<Message>, succeeded: seq<nat>, toRetry: seq<nat>, exhausted: seq<nat>)

  function SortNext(r: Sorted, m: nat, maxAttempts: nat): Sorted
    requires m < |r.sent|
  {
    if !r.sent[m].pendingRetry then r.(succeeded := r.succeeded + [m])
    else
      var failed := r.sent[m].(pendingRetry := false, failedAttempts := r.sent[m].failedAttempts + 1);
      var r' := r.(sent := r.sent[m := failed]);
      if failed.failedAttempts < maxAttempts then r'.(toRetry := r.toRetry + [m]) else r'.(exhausted := r.exhausted + [m])
  }

  function SortOut(sent: seq<Message>, batch: seq<nat>, maxAttempts: nat): (r: Sorted)
    requires Within(batch, |sent|)
    ensures |r.sent| == |sent| && Within(r.succeeded, |sent|) && Within(r.toRetry, |sent|) && Within(r.exhausted, |sent|)
  {
    if batch == [] then Sorted(sent, [], [], [])
    else SortNext(SortOut(sent, batch[..|batch| - 1], maxAttempts), batch[|batch| - 1], maxAttempts)
  }

  // An empty name is as good as none.
  predicate Named(name: Option<Name>) {
    name.Some? && name.value != ""
  }

  predicate InProgress(q: Queue, f: nat) {
    f < |q.flushes| && q.flushes[f].InFlight?
  }

  function SortedAtEnd(q: Queue, f: nat, threw: bool): (r: Sorted)
    requires InProgress(q, f) && Within(q.flushes[f].batch, |q.sent|)
    ensures |r.sent| == |q.sent| && Within(r.exhausted, |r.sent|)
  {
    var batch := q.flushes[f].batch;
    SortOut(if threw then RetryAll(q.sent, batch) else q.sent, batch, q.flushes[f].maxAttempts)
  }

  // The queue once the messages of a finished batch are sorted out.
  function Sorting(q: Queue, f: nat, threw: bool): Queue
    requires InProgress(q, f) && Within(q.flushes[f].batch, |q.sent|)
  {
    var r, named := SortedAtEnd(q, f, threw), Named(q.flushes[f].deadLetterQueue);
    q.(pendingFlush := NONE, timeout := None, flushes := q.flushes[f := Ended],
       sent := r.sent, messages := q.messages + r.toRetry,
       acknowledged := q.acknowledged + r.succeeded,
       dropped := if named then q.dropped else q.dropped + r.exhausted,
       deadLettered := if named then q.deadLettered + r.exhausted else q.deadLettered)
  }

  // The rest of a flush once its dispatcher is done, but for what goes to another queue.
  function EndFlush(q: Queue, f: nat, threw: bool): Queue
    requires InProgress(q, f) && Within(q.flushes[f].batch, |q.sent|)
  {
    var q' := Sorting(q, f, threw);
    if q'.messages != [] then EnsurePendingFlush(q') else q'
  }

  function Bodies(sent: seq<Message>, ms: seq<nat>): seq<Body>
    requires Within(ms, |sent|)
  {
    seq(|ms|, i requires 0 <= i < |ms| => sent[ms[i]].body)
  }

  // --- The broker ------------------------------------------------------------------------------

  type Broker = map<Name, Queue>

  datatype Step =
    | Send(queue: Name, body: Body)
    | Subscribe(queue: Name, consumer: Consumer)
    | ResetConsumers
    | CallRetry(queue: Name, message: nat)
    | TimerFires(queue: Name, timer: nat)
    | DispatcherEnds(queue: Name, flush: nat, threw: bool)

  function GetOrCreate(b: Broker, name: Name): Queue {
    if name in b then b[name] else NEW_QUEUE
  }

  predicate Known(q: Queue) {
    && Within(q.messages, |q.sent|)
    && (forall f | 0 <= f < |q.flushes| && q.flushes[f].InFlight? :: Within(q.flushes[f].batch, |q.sent|))
  }

  predicate Enabled(b: Broker, step: Step) {
    match step
    case Send(_, _) => true
    case Subscribe(_, _) => true
    case ResetConsumers => true
    case CallRetry(name, m) => name in b && m < |b[name].sent|
    case TimerFires(name, timer) => name in b && timer in b[name].timers && Known(b[name])
    case DispatcherEnds(name, f, _) => name in b && InProgress(b[name], f) && Known(b[name])
  }

  function Do(b: Broker, step: Step): Broker
    requires Enabled(b, step)
  {
    match step
    case Send(name, body) => b[name := Enqueue(GetOrCreate(b, name), body)]
    case Subscribe(name, consumer) => b[name := SetConsumer(GetOrCreate(b, name), consumer)]
    case ResetConsumers => map name | name in b :: ResetConsumer(b[name])
    case CallRetry(name, m) => b[name := Retry(b[name], m)]
    case TimerFires(name, timer) => b[name := Fire(b[name], timer)]
    case DispatcherEnds(name, f, threw) => DoEnd(b, name, f, threw)
  }

  // Messages out of attempts are sent to the dead letter queue, which may be the same queue.
  function DoEnd(b: Broker, name: Name, f: nat, threw: bool): Broker
    requires Enabled(b, DispatcherEnds(name, f, threw))
  {
    var q, flush := b[name], b[name].flushes[f];
    var b' := b[name := EndFlush(q, f, threw)];
    if Named(flush.deadLetterQueue) then
      b'[flush.deadLetterQueue.value := EnqueueAll(GetOrCreate(b', flush.deadLetterQueue.value), DeadLetters(q, f, threw))]
    else b'
  }

  function DeadLetters(q: Queue, f: nat, threw: bool): seq<Body>
    requires InProgress(q, f) && Within(q.flushes[f].batch, |q.sent|)
  {
    var r := SortedAtEnd(q, f, threw);
    Bodies(r.sent, r.exhausted)
  }

  ghost predicate IsRun(b: Broker, steps: seq<Step>)
    decreases |steps|
  {
    steps == [] || (Enabled(b, steps[0]) && IsRun(Do(b, steps[0]), steps[1..]))
  }

  ghost function After(b: Broker, steps: seq<Step>): Broker
    requires IsRun(b, steps)
    decreases |steps|
  {
    if steps == [] then b else After(Do(b, steps[0]), steps[1..])
  }

  // --- The invariant of every queue ------------------------------------------------------------

  ghost predicate Busy(q: Queue) {
    exists f :: InProgress(q, f)
  }

  // A flush that is to come has a timer behind it, or a flush in progress that will see to it.
  ghost predicate TimersOk(q: Queue) {
    && (forall t | t in q.timers :: t < q.timersMade)
    && (q.timeout.Some? ==> q.timeout.value < q.timersMade)
    && (q.consumer.None? ==> q.pendingFlush.NONE?)
    && (!q.pendingFlush.NONE? ==> (q.timeout.Some? && q.timeout.value in q.timers) || Busy(q))
  }

  ghost predicate Moving(q: Queue) {
    q.consumer.Some? && q.messages != [] ==> q.timers != {} || Busy(q)
  }

  function InFlightNow(flushes: seq<Flush>, m: nat): nat {
    if flushes == [] then 0
    else
      var last := flushes[|flushes| - 1];
      InFlightNow(flushes[..|flushes| - 1], m) + if last.InFlight? then multiset(last.batch)[m] else 0
  }

  // How often a message is to be found: queued, in flight, acknowledged, dropped or
  // dead-lettered.
  function Places(q: Queue, m: nat): nat {
    multiset(q.messages)[m] + InFlightNow(q.flushes, m)
    + multiset(q.acknowledged)[m] + multiset(q.dropped)[m] + multiset(q.deadLettered)[m]
  }

  // Every message sent is in exactly one place.
  ghost predicate Conserved(q: Queue) {
    forall m: nat :: Places(q, m) == if m < |q.sent| then 1 else 0
  }

  ghost predicate Inv(q: Queue) {
    TimersOk(q) && Moving(q) && Conserved(q)
  }

  // --- Counting messages -----------------------------------------------------------------------

  lemma {:induction false} InFlightMember(flushes: seq<Flush>, f: nat, m: nat)
    requires f < |flushes| && flushes[f].InFlight?
    ensures InFlightNow(flushes, m) >= multiset(flushes[f].batch)[m]
    decreases |flushes|
  {
    if f < |flushes| - 1 {
      InFlightMember(flushes[..|flushes| - 1], f, m);
    }
  }

  lemma {:induction false} InFlightTwo(flushes: seq<Flush>, f: nat, g: nat, m: nat)
    requires f < g < |flushes| && flushes[f].InFlight? && flushes[g].InFlight?
    ensures InFlightNow(flushes, m) >= multiset(flushes[f].batch)[m] + multiset(flushes[g].batch)[m]
    decreases |flushes|
  {
    if g < |flushes| - 1 {
      InFlightTwo(flushes[..|flushes| - 1], f, g, m);
    } else {
      InFlightMember(flushes[..|flushes| - 1], f, m);
    }
  }

  lemma {:induction false} InFlightEnded(flushes: seq<Flush>, f: nat, m: nat)
    requires f < |flushes| && flushes[f].InFlight?
    ensures InFlightNow(flushes, m) == InFlightNow(flushes[f := Ended], m) + multiset(flushes[f].batch)[m]
    decreases |flushes|
  {
    var last := |flushes| - 1;
    if f < last {
      InFlightEnded(flushes[..last], f, m);
      assert flushes[f := Ended][..last] == flushes[..last][f := Ended];
    } else {
      assert flushes[f := Ended][..last] == flushes[..last];
    }
  }

  lemma ConservedIsKnown(q: Queue)
    requires Conserved(q)
    ensures Known(q)
  {
    forall i | 0 <= i < |q.messages| ensures q.messages[i] < |q.sent| {
      assert q.messages[i] in multiset(q.messages);
      assert Places(q, q.messages[i]) > 0;
    }
    forall f | 0 <= f < |q.flushes| && q.flushes[f].InFlight? ensures Within(q.flushes[f].batch, |q.sent|) {
      forall i | 0 <= i < |q.flushes[f].batch| ensures q.flushes[f].batch[i] < |q.sent| {
        assert q.flushes[f].batch[i] in multiset(q.flushes[f].batch);
        InFlightMember(q.flushes, f, q.flushes[f].batch[i]);
        assert Places(q, q.flushes[f].batch[i]) > 0;
      }
    }
  }

  function TimesSorted(r: Sorted, m: nat): nat {
    multiset(r.succeeded)[m] + multiset(r.toRetry)[m] + multiset(r.exhausted)[m]
  }

  // Each message of a batch is sorted into one place.
  lemma {:induction false} SortOutPartitions(sent: seq<Message>, batch: seq<nat>, maxAttempts: nat, m: nat)
    requires Within(batch, |sent|)
    ensures TimesSorted(SortOut(sent, batch, maxAttempts), m) == multiset(batch)[m]
    decreases |batch|
  {
    if batch != [] {
      SortOutPartitions(sent, batch[..|batch| - 1], maxAttempts, m);
      SortNextOnce(SortOut(sent, batch[..|batch| - 1], maxAttempts), batch[|batch| - 1], maxAttempts, m);
      CountLast(batch, m);
    }
  }

  lemma CountLast(s: seq<nat>, m: nat)
    requires s != []
    ensures multiset(s)[m] == multiset(s[..|s| - 1])[m] + if s[|s| - 1] == m then 1 else 0
  {
    assert s == s[..|s| - 1] + [s[|s| - 1]];
  }

  lemma SortNextOnce(r: Sorted, last: nat, maxAttempts: nat, m: nat)
    requires last < |r.sent|
    ensures TimesSorted(SortNext(r, last, maxAttempts), m) == TimesSorted(r, m) + if last == m then 1 else 0
  {
    CountAppend(r.succeeded, last, m);
    CountAppend(r.toRetry, last, m);
    CountAppend(r.exhausted, last, m);
  }

  lemma CountAppend(s: seq<nat>, last: nat, m: nat)
    ensures multiset(s + [last])[m] == multiset(s)[m] + if last == m then 1 else 0
  {
  }

  // --- Every operation keeps it ------------------------------------------------------------------

  lemma EnsureOk(q: Queue)
    requires TimersOk(q) && Conserved(q)
    ensures Inv(EnsurePendingFlush(q))
  {
    var r := EnsurePendingFlush(q);
    assert forall f :: InProgress(r, f) <==> InProgress(q, f);
    assert forall m: nat :: Places(r, m) == Places(q, m);
    assert q.timersMade !in q.timers;
  }

  lemma EnqueueOk(q: Queue, body: Body)
    requires Inv(q)
    ensures Inv(Enqueue(q, body))
  {
    var r := q.(messages := q.messages + [|q.sent|], sent := q.sent + [Message(body, false, 0, 0)]);
    assert forall f :: InProgress(r, f) <==> InProgress(q, f);
    forall m: nat ensures Places(r, m) == if m < |r.sent| then 1 else 0 {
      assert Places(r, m) == Places(q, m) + if m == |q.sent| then 1 else 0;
    }
    EnsureOk(r);
  }

  lemma {:induction false} EnqueueAllOk(q: Queue, bodies: seq<Body>)
    requires Inv(q)
    ensures Inv(EnqueueAll(q, bodies))
    decreases |bodies|
  {
    if bodies != [] {
      EnqueueAllOk(q, bodies[..|bodies| - 1]);
      EnqueueOk(EnqueueAll(q, bodies[..|bodies| - 1]), bodies[|bodies| - 1]);
    }
  }

  lemma SetConsumerOk(q: Queue, consumer: Consumer)
    requires Inv(q)
    ensures Inv(SetConsumer(q, consumer))
  {
    var r := q.(consumer := Some(consumer));
    assert forall f :: InProgress(r, f) <==> InProgress(q, f);
    assert forall m: nat :: Places(r, m) == Places(q, m);
    if q.consumer.None? && q.messages != [] {
      EnsureOk(r);
    }
  }

  lemma ResetOk(q: Queue)
    requires Inv(q)
    ensures Inv(ResetConsumer(q))
  {
    assert forall m: nat :: Places(ResetConsumer(q), m) == Places(q, m);
  }

  lemma RetryOk(q: Queue, m: nat)
    requires Inv(q) && m < |q.sent|
    ensures Inv(Retry(q, m))
  {
    assert forall f :: InProgress(Retry(q, m), f) <==> InProgress(q, f);
    assert forall k: nat :: Places(Retry(q, m), k) == Places(q, k);
  }

  lemma FireOk(q: Queue, timer: nat)
    requires Inv(q) && timer in q.timers && Within(q.messages, |q.sent|)
    ensures Inv(Fire(q, timer))
  {
    var r := Fire(q, timer);
    if q.consumer.Some? {
      assert InProgress(r, |q.flushes|);
      assert r.flushes[..|q.flushes|] == q.flushes;
      assert q.messages == Batch(q) + r.messages;
    }
    assert forall m: nat :: Places(r, m) == Places(q, m);
  }

  lemma EndFlushOk(q: Queue, f: nat, threw: bool)
    requires Inv(q) && InProgress(q, f) && Within(q.flushes[f].batch, |q.sent|)
    ensures Inv(EndFlush(q, f, threw))
  {
    var q' := Sorting(q, f, threw);
    forall m: nat ensures Places(q', m) == Places(q, m) {
      SortingPlaces(q, f, threw, m);
    }
    EnsureOk(q');
  }

  lemma SortingPlaces(q: Queue, f: nat, threw: bool, m: nat)
    requires InProgress(q, f) && Within(q.flushes[f].batch, |q.sent|)
    ensures Places(Sorting(q, f, threw), m) == Places(q, m)
  {
    SortOutPartitions(if threw then RetryAll(q.sent, q.flushes[f].batch) else q.sent, q.flushes[f].batch, q.flushes[f].maxAttempts, m);
    InFlightEnded(q.flushes, f, m);
  }

  ghost predicate AllInv(b: Broker) {
    forall name | name in b :: Inv(b[name])
  }

  lemma StepInv(b: Broker, step: Step)
    requires AllInv(b) && Enabled(b, step)
    ensures AllInv(Do(b, step))
  {
    NewQueueOk();
    match step
    case Send(name, body) => EnqueueOk(GetOrCreate(b, name), body);
    case Subscribe(name, consumer) => SetConsumerOk(GetOrCreate(b, name), consumer);
    case ResetConsumers =>
      forall name | name in b ensures Inv(ResetConsumer(b[name])) {
        ResetOk(b[name]);
      }
    case CallRetry(name, m) => RetryOk(b[name], m);
    case TimerFires(name, timer) => FireOk(b[name], timer);
    case DispatcherEnds(name, f, threw) => DoEndOk(b, name, f, threw);
  }

  lemma DoEndOk(b: Broker, name: Name, f: nat, threw: bool)
    requires AllInv(b) && Enabled(b, DispatcherEnds(name, f, threw))
    ensures AllInv(DoEnd(b, name, f, threw))
  {
    NewQueueOk();
    EndFlushOk(b[name], f, threw);
    var b' := b[name := EndFlush(b[name], f, threw)];
    if Named(b[name].flushes[f].deadLetterQueue) {
      EnqueueAllOk(GetOrCreate(b', b[name].flushes[f].deadLetterQueue.value), DeadLetters(b[name], f, threw));
    }
  }

  lemma NewQueueOk()
    ensures Inv(NEW_QUEUE)
  {
  }

  lemma {:induction false} RunInv(b: Broker, steps: seq<Step>)
    requires AllInv(b) && IsRun(b, steps)
    ensures AllInv(After(b, steps))
    decreases |steps|
  {
    if steps != [] {
      StepInv(b, steps[0]);
      RunInv(Do(b, steps[0]), steps[1..]);
    }
  }

  // --- How often a message is handed out -------------------------------------------------------

  // Bounds on every consumer there ever was.
  datatype Limits = Limits(fewestRetries: nat, mostRetries: nat, largestBatch: nat)

  predicate Allows(l: Limits, c: Consumer) {
    l.fewestRetries <= c.maxRetries <= l.mostRetries && c.maxBatchSize <= l.largestBatch
  }

  predicate FlushOk(flush: Flush, l: Limits)
    requires flush.InFlight?
  {
    l.fewestRetries + 1 <= flush.maxAttempts <= l.mostRetries + 1 && |flush.batch| <= l.largestBatch
  }

  // While a message is handed out, or once it succeeded, that attempt has not failed.
  ghost predicate MessageOk(q: Queue, m: nat, l: Limits)
    requires m < |q.sent|
  {
    var dispatches, failed := q.sent[m].dispatches, q.sent[m].failedAttempts;
    && (m in q.messages ==> dispatches == failed <= l.mostRetries)
    && (forall f: nat | InProgress(q, f) && m in q.flushes[f].batch :: dispatches == failed + 1 <= l.mostRetries + 1)
    && (m in q.acknowledged ==> dispatches == failed + 1 <= l.mostRetries + 1)
    && (m in q.dropped || m in q.deadLettered ==> l.fewestRetries + 1 <= dispatches == failed <= l.mostRetries + 1)
  }

  ghost predicate AttemptsOk(q: Queue, l: Limits) {
    && (q.consumer.Some? ==> Allows(l, q.consumer.value))
    && (forall f: nat | InProgress(q, f) :: FlushOk(q.flushes[f], l))
    && (forall m: nat | m < |q.sent| :: MessageOk(q, m, l))
  }

  lemma {:induction false} DispatchedExact(sent: seq<Message>, batch: seq<nat>, m: nat)
    requires Within(batch, |sent|) && m < |sent|
    ensures Dispatched(sent, batch)[m] == sent[m].(dispatches := sent[m].dispatches + multiset(batch)[m])
  {
    if batch != [] {
      DispatchedExact(sent, batch[1..], m);
      assert batch == [batch[0]] + batch[1..];
    }
  }

  lemma {:induction false} RetryAllExact(sent: seq<Message>, batch: seq<nat>, m: nat)
    requires Within(batch, |sent|) && m < |sent|
    ensures RetryAll(sent, batch)[m] == if m in batch then sent[m].(pendingRetry := true) else sent[m]
  {
    if batch != [] {
      RetryAllExact(sent, batch[1..], m);
    }
  }

  // A message of the batch succeeded unless it was marked for retry; then it failed once
  // more and is queued again while that leaves it attempts.
  lemma {:induction false} SortOutExact(sent: seq<Message>, batch: seq<nat>, maxAttempts: nat, m: nat)
    requires Within(batch, |sent|) && m < |sent| && multiset(batch)[m] <= 1
    ensures var r, was := SortOut(sent, batch, maxAttempts), sent[m];
            && (m in r.succeeded <==> m in batch && !was.pendingRetry)
            && (m in r.toRetry <==> m in batch && was.pendingRetry && was.failedAttempts + 1 < maxAttempts)
            && (m in r.exhausted <==> m in batch && was.pendingRetry && was.failedAttempts + 1 >= maxAttempts)
            && r.sent[m] == if m in batch && was.pendingRetry then was.(pendingRetry := false, failedAttempts := was.failedAttempts + 1) else was
    decreases |batch|
  {
    if batch != [] {
      var shorter, last := batch[..|batch| - 1], batch[|batch| - 1];
      assert batch == shorter + [last];
      SortOutExact(sent, shorter, maxAttempts, m);
      assert m == last ==> m !in multiset(shorter);
    }
  }

  // A message of a batch in flight is nowhere else.
  lemma InFlightOnly(q: Queue, f: nat, m: nat)
    requires Conserved(q) && InProgress(q, f) && m in q.flushes[f].batch
    ensures multiset(q.flushes[f].batch)[m] == 1
    ensures m !in q.messages && m !in q.acknowledged && m !in q.dropped && m !in q.deadLettered
    ensures forall g: nat | InProgress(q, g) && g != f :: m !in q.flushes[g].batch
  {
    assert Places(q, m) <= 1;
    assert m in multiset(q.flushes[f].batch);
    InFlightMember(q.flushes, f, m);
    forall g: nat | InProgress(q, g) && g != f ensures m !in q.flushes[g].batch {
      if g < f {
        InFlightTwo(q.flushes, g, f, m);
      } else {
        InFlightTwo(q.flushes, f, g, m);
      }
    }
  }

  lemma QueuedOnly(q: Queue, m: nat)
    requires Conserved(q) && m in q.messages
    ensures multiset(q.messages)[m] == 1
    ensures m !in q.acknowledged && m !in q.dropped && m !in q.deadLettered
    ensures forall g: nat | InProgress(q, g) :: m !in q.flushes[g].batch
  {
    assert Places(q, m) <= 1;
    assert m in multiset(q.messages);
    forall g: nat | InProgress(q, g) ensures m !in q.flushes[g].batch {
      InFlightMember(q.flushes, g, m);
    }
  }

  // Whatever leaves the places and counts of messages alone keeps them within bounds.
  lemma SameAttempts(q: Queue, r: Queue, l: Limits)
    requires AttemptsOk(q, l) && (r.consumer.Some? ==> Allows(l, r.consumer.value))
    requires r.messages == q.messages && r.flushes == q.flushes
    requires r.acknowledged == q.acknowledged && r.dropped == q.dropped && r.deadLettered == q.deadLettered
    requires |r.sent| == |q.sent|
    requires forall m | 0 <= m < |q.sent| :: r.sent[m].dispatches == q.sent[m].dispatches && r.sent[m].failedAttempts == q.sent[m].failedAttempts
    ensures AttemptsOk(r, l)
  {
    forall f: nat | InProgress(r, f) ensures FlushOk(r.flushes[f], l) {
      assert InProgress(q, f);
    }
    forall m: nat | m < |r.sent| ensures MessageOk(r, m, l) {
      assert MessageOk(q, m, l);
      assert forall f: nat :: InProgress(r, f) == InProgress(q, f);
    }
  }

  lemma EnsureAttempts(q: Queue, l: Limits)
    requires AttemptsOk(q, l)
    ensures AttemptsOk(EnsurePendingFlush(q), l)
  {
    SameAttempts(q, EnsurePendingFlush(q), l);
  }

  lemma EnqueueAttempts(q: Queue, body: Body, l: Limits)
    requires AttemptsOk(q, l) && Conserved(q)
    ensures AttemptsOk(Enqueue(q, body), l)
  {
    var r := q.(messages := q.messages + [|q.sent|], sent := q.sent + [Message(body, false, 0, 0)]);
    assert Places(q, |q.sent|) == 0;
    assert forall f: nat :: InProgress(r, f) == InProgress(q, f);
    forall m: nat | m < |r.sent| ensures MessageOk(r, m, l) {
      if m < |q.sent| {
        assert MessageOk(q, m, l);
      } else {
        forall f: nat | InProgress(q, f) ensures m !in q.flushes[f].batch {
          InFlightMember(q.flushes, f, m);
        }
      }
    }
    EnsureAttempts(r, l);
  }

  lemma {:induction false} EnqueueAllAttempts(q: Queue, bodies: seq<Body>, l: Limits)
    requires AttemptsOk(q, l) && Inv(q)
    ensures AttemptsOk(EnqueueAll(q, bodies), l)
    decreases |bodies|
  {
    if bodies != [] {
      EnqueueAllAttempts(q, bodies[..|bodies| - 1], l);
      EnqueueAllOk(q, bodies[..|bodies| - 1]);
      EnqueueAttempts(EnqueueAll(q, bodies[..|bodies| - 1]), bodies[|bodies| - 1], l);
    }
  }

  lemma SetConsumerAttempts(q: Queue, consumer: Consumer, l: Limits)
    requires AttemptsOk(q, l) && Allows(l, consumer)
    ensures AttemptsOk(SetConsumer(q, consumer), l)
  {
    SameAttempts(q, SetConsumer(q, consumer), l);
  }

  lemma ResetAttempts(q: Queue, l: Limits)
    requires AttemptsOk(q, l)
    ensures AttemptsOk(ResetConsumer(q), l)
  {
    SameAttempts(q, ResetConsumer(q), l);
  }

  lemma RetryAttempts(q: Queue, m: nat, l: Limits)
    requires AttemptsOk(q, l) && m < |q.sent|
    ensures AttemptsOk(Retry(q, m), l)
  {
    SameAttempts(q, Retry(q, m), l);
  }

  lemma FireAttempts(q: Queue, timer: nat, l: Limits)
    requires AttemptsOk(q, l) && Conserved(q) && Within(q.messages, |q.sent|)
    ensures AttemptsOk(Fire(q, timer), l)
  {
    var r := Fire(q, timer);
    if q.consumer.None? {
      SameAttempts(q, r, l);
    } else {
      forall f: nat | InProgress(r, f) ensures FlushOk(r.flushes[f], l) {
        assert f < |q.flushes| ==> InProgress(q, f);
      }
      forall m: nat | m < |r.sent| ensures MessageOk(r, m, l) {
        FiredMessageOk(q, timer, l, m);
      }
    }
  }

  lemma FiredMessageOk(q: Queue, timer: nat, l: Limits, m: nat)
    requires AttemptsOk(q, l) && Conserved(q) && Within(q.messages, |q.sent|) && q.consumer.Some? && m < |q.sent|
    ensures MessageOk(Fire(q, timer), m, l)
  {
    var r := Fire(q, timer);
    DispatchedExact(q.sent, Batch(q), m);
    assert q.messages == Batch(q) + r.messages;
    CountSplit(Batch(q), r.messages, m);
    assert MessageOk(q, m, l);
    if m in Batch(q) {
      QueuedOnly(q, m);
    }
    forall f: nat | InProgress(r, f) && m in r.flushes[f].batch ensures m in Batch(q) || InProgress(q, f) {
      assert f == |q.flushes| || r.flushes[f] == q.flushes[f];
    }
  }

  lemma CountSplit(a: seq<nat>, b: seq<nat>, m: nat)
    ensures multiset(a + b)[m] == multiset(a)[m] + multiset(b)[m]
  {
  }

  // What sorting out does to each message.
  lemma SortingExact(q: Queue, f: nat, threw: bool, m: nat)
    requires Conserved(q) && InProgress(q, f) && Within(q.flushes[f].batch, |q.sent|) && m < |q.sent|
    ensures var r, flush := SortedAtEnd(q, f, threw), q.flushes[f];
            var retry := threw || q.sent[m].pendingRetry;
            && (m in r.succeeded <==> m in flush.batch && !retry)
            && (m in r.toRetry <==> m in flush.batch && retry && q.sent[m].failedAttempts + 1 < flush.maxAttempts)
            && (m in r.exhausted <==> m in flush.batch && retry && q.sent[m].failedAttempts + 1 >= flush.maxAttempts)
            && r.sent[m] == if m in flush.batch && retry then q.sent[m].(pendingRetry := false, failedAttempts := q.sent[m].failedAttempts + 1)
                            else q.sent[m]
  {
    var batch := q.flushes[f].batch;
    if m in batch {
      InFlightOnly(q, f, m);
    }
    RetryAllExact(q.sent, batch, m);
    SortOutExact(if threw then RetryAll(q.sent, batch) else q.sent, batch, q.flushes[f].maxAttempts, m);
  }

  lemma EndFlushAttempts(q: Queue, f: nat, threw: bool, l: Limits)
    requires AttemptsOk(q, l) && Conserved(q) && InProgress(q, f) && Within(q.flushes[f].batch, |q.sent|)
    ensures AttemptsOk(EndFlush(q, f, threw), l)
  {
    var r := Sorting(q, f, threw);
    forall g: nat | InProgress(r, g) ensures FlushOk(r.flushes[g], l) {
      assert InProgress(q, g);
    }
    forall m: nat | m < |r.sent| ensures MessageOk(r, m, l) {
      SortedMessageOk(q, f, threw, l, m);
    }
    EnsureAttempts(r, l);
  }

  lemma SortedMessageOk(q: Queue, f: nat, threw: bool, l: Limits, m: nat)
    requires AttemptsOk(q, l) && Conserved(q) && InProgress(q, f) && Within(q.flushes[f].batch, |q.sent|) && m < |q.sent|
    ensures MessageOk(Sorting(q, f, threw), m, l)
  {
    var r := Sorting(q, f, threw);
    SortingExact(q, f, threw, m);
    assert MessageOk(q, m, l) && FlushOk(q.flushes[f], l);
    if m in q.flushes[f].batch {
      InFlightOnly(q, f, m);
    }
    forall g: nat | InProgress(r, g) ensures InProgress(q, g) && g != f && r.flushes[g] == q.flushes[g] {
    }
  }

  ghost predicate AllAttempts(b: Broker, l: Limits) {
    forall name | name in b :: AttemptsOk(b[name], l)
  }

  predicate StepAllowed(step: Step, l: Limits) {
    step.Subscribe? ==> Allows(l, step.consumer)
  }

  lemma StepAttempts(b: Broker, step: Step, l: Limits)
    requires AllInv(b) && AllAttempts(b, l) && Enabled(b, step) && StepAllowed(step, l)
    ensures AllAttempts(Do(b, step), l)
  {
    NewQueueOk();
    NewQueueAttempts(l);
    match step
    case Send(name, body) => EnqueueAttempts(GetOrCreate(b, name), body, l);
    case Subscribe(name, consumer) => SetConsumerAttempts(GetOrCreate(b, name), consumer, l);
    case ResetConsumers =>
      forall name | name in b ensures AttemptsOk(ResetConsumer(b[name]), l) {
        ResetAttempts(b[name], l);
      }
    case CallRetry(name, m) => RetryAttempts(b[name], m, l);
    case TimerFires(name, timer) => FireAttempts(b[name], timer, l);
    case DispatcherEnds(name, f, threw) => DoEndAttempts(b, name, f, threw, l);
  }

  lemma NewQueueAttempts(l: Limits)
    ensures AttemptsOk(NEW_QUEUE, l)
  {
  }

  lemma DoEndAttempts(b: Broker, name: Name, f: nat, threw: bool, l: Limits)
    requires AllInv(b) && AllAttempts(b, l) && Enabled(b, DispatcherEnds(name, f, threw))
    ensures AllAttempts(DoEnd(b, name, f, threw), l)
  {
    NewQueueOk();
    NewQueueAttempts(l);
    EndFlushOk(b[name], f, threw);
    EndFlushAttempts(b[name], f, threw, l);
    var b' := b[name := EndFlush(b[name], f, threw)];
    if Named(b[name].flushes[f].deadLetterQueue) {
      EnqueueAllAttempts(GetOrCreate(b', b[name].flushes[f].deadLetterQueue.value), DeadLetters(b[name], f, threw), l);
    }
  }

  lemma {:induction false} RunAttempts(b: Broker, steps: seq<Step>, l: Limits)
    requires AllInv(b) && AllAttempts(b, l) && IsRun(b, steps) && forall i | 0 <= i < |steps| :: StepAllowed(steps[i], l)
    ensures AllAttempts(After(b, steps), l)
    decreases |steps|
  {
    if steps != [] {
      StepInv(b, steps[0]);
      StepAttempts(b, steps[0], l);
      RunAttempts(Do(b, steps[0]), steps[1..], l);
    }
  }

  // --- What every run keeps --------------------------------------------------------------------

  // A queue with a consumer and messages always has a timer running or a batch in flight, and
  // so does one that says a flush is pending.
  lemma NeverStalls(steps: seq<Step>, name: Name)
    requires IsRun(map[], steps) && name in After(map[], steps)
    ensures var q := After(map[], steps)[name];
            && (q.consumer.Some? && q.messages != [] ==> q.timers != {} || Busy(q))
            && (!q.pendingFlush.NONE? ==> q.consumer.Some? && ((q.timeout.Some? && q.timeout.value in q.timers) || Busy(q)))
  {
    RunInv(map[], steps);
  }

  // A timer that has yet to fire can fire, and a flush in progress can end, at any time.
  lemma NothingBlocked(steps: seq<Step>, name: Name, timer: nat, f: nat, threw: bool)
    requires IsRun(map[], steps) && name in After(map[], steps)
    ensures var b := After(map[], steps);
            && (timer in b[name].timers ==> Enabled(b, TimerFires(name, timer)))
            && (InProgress(b[name], f) ==> Enabled(b, DispatcherEnds(name, f, threw)))
  {
    RunInv(map[], steps);
    ConservedIsKnown(After(map[], steps)[name]);
  }

  // No message is lost or doubled: each one sent is in exactly one place.
  lemma MessagesConserved(steps: seq<Step>, name: Name, m: nat)
    requires IsRun(map[], steps) && name in After(map[], steps)
    ensures var q := After(map[], steps)[name]; Places(q, m) == if m < |q.sent| then 1 else 0
  {
    RunInv(map[], steps);
  }

  // No message is handed out more often than the most generous consumer allowed, none is
  // given up before it was handed out as often as the strictest one did, and no batch is
  // larger than the largest allowed.
  lemma AttemptsBounded(steps: seq<Step>, l: Limits, name: Name, m: nat)
    requires IsRun(map[], steps) && name in After(map[], steps) && m < |After(map[], steps)[name].sent|
    requires forall i | 0 <= i < |steps| :: StepAllowed(steps[i], l)
    ensures var q := After(map[], steps)[name];
            && q.sent[m].dispatches <= l.mostRetries + 1
            && (m in q.dropped || m in q.deadLettered ==> q.sent[m].dispatches >= l.fewestRetries + 1)
            && (forall f: nat | InProgress(q, f) :: |q.flushes[f].batch| <= l.largestBatch)
  {
    RunInv(map[], steps);
    RunAttempts(map[], steps, l);
    var q := After(map[], steps)[name];
    assert forall f: nat | InProgress(q, f) :: FlushOk(q.flushes[f], l);
    assert Places(q, m) == 1 && MessageOk(q, m, l);
    if InFlightNow(q.flushes, m) > 0 {
      var f := FindFlush(q.flushes, m);
      assert InProgress(q, f);
    }
  }

  lemma {:induction false} FindFlush(flushes: seq<Flush>, m: nat) returns (f: nat)
    requires InFlightNow(flushes, m) > 0
    ensures f < |flushes| && flushes[f].InFlight? && m in flushes[f].batch
    decreases |flushes|
  {
    var last := |flushes| - 1;
    if flushes[last].InFlight? && m in flushes[last].batch {
      f := last;
    } else {
      f := FindFlush(flushes[..last], m);
    }
  }

  // Each message given up for a dead letter queue is sent to that queue, in order.
  lemma LettersForwarded(b: Broker, name: Name, f: nat, threw: bool)
    requires AllInv(b) && Enabled(b, DispatcherEnds(name, f, threw)) && Named(b[name].flushes[f].deadLetterQueue)
    ensures var q, r, d := b[name], DoEnd(b, name, f, threw), b[name].flushes[f].deadLetterQueue.value;
            var letters, before := SortedAtEnd(q, f, threw).exhausted, GetOrCreate(b, d).sent;
            && name in r && d in r
            && r[name].deadLettered == q.deadLettered + letters
            && |r[d].sent| == |before| + |letters|
            && forall i | 0 <= i < |letters| :: letters[i] < |q.sent| && r[d].sent[|before| + i].body == q.sent[letters[i]].body
  {
    var q, d := b[name], b[name].flushes[f].deadLetterQueue.value;
    var b' := b[name := EndFlush(q, f, threw)];
    WhereLettersGo(b, name, f, threw);
    EnqueueAllSent(GetOrCreate(b', d), DeadLetters(q, f, threw));
    LetterBodies(q, f, threw);
    SameNumberSent(b, name, f, threw, d);
    assert Sorting(q, f, threw).deadLettered == q.deadLettered + SortedAtEnd(q, f, threw).exhausted;
  }

  lemma WhereLettersGo(b: Broker, name: Name, f: nat, threw: bool)
    requires Enabled(b, DispatcherEnds(name, f, threw)) && Named(b[name].flushes[f].deadLetterQueue)
    ensures var q, r, d := b[name], DoEnd(b, name, f, threw), b[name].flushes[f].deadLetterQueue.value;
            && name in r && d in r
            && r[d] == EnqueueAll(GetOrCreate(b[name := EndFlush(q, f, threw)], d), DeadLetters(q, f, threw))
            && (d != name ==> r[name] == EndFlush(q, f, threw))
            && (d == name ==> GetOrCreate(b[name := EndFlush(q, f, threw)], d) == EndFlush(q, f, threw))
  {
  }

  lemma SameNumberSent(b: Broker, name: Name, f: nat, threw: bool, d: Name)
    requires name in b && InProgress(b[name], f) && Within(b[name].flushes[f].batch, |b[name].sent|)
    ensures |GetOrCreate(b[name := EndFlush(b[name], f, threw)], d).sent| == |GetOrCreate(b, d).sent|
    ensures EndFlush(b[name], f, threw).deadLettered == Sorting(b[name], f, threw).deadLettered
  {
  }

  lemma LetterBodies(q: Queue, f: nat, threw: bool)
    requires Conserved(q) && InProgress(q, f) && Within(q.flushes[f].batch, |q.sent|)
    ensures var letters := SortedAtEnd(q, f, threw).exhausted;
            && |DeadLetters(q, f, threw)| == |letters|
            && forall i | 0 <= i < |letters| :: letters[i] < |q.sent| && DeadLetters(q, f, threw)[i] == q.sent[letters[i]].body
  {
    var letters := SortedAtEnd(q, f, threw).exhausted;
    forall i | 0 <= i < |letters| ensures letters[i] < |q.sent| && DeadLetters(q, f, threw)[i] == q.sent[letters[i]].body {
      SortingExact(q, f, threw, letters[i]);
    }
  }

  lemma {:induction false} EnqueueAllSent(q: Queue, bodies: seq<Body>)
    ensures var r := EnqueueAll(q, bodies);
            && |r.sent| == |q.sent| + |bodies| && r.deadLettered == q.deadLettered
            && (forall i | 0 <= i < |bodies| :: r.sent[|q.sent| + i].body == bodies[i])
    decreases |bodies|
  {
    if bodies != [] {
      EnqueueAllSent(q, bodies[..|bodies| - 1]);
    }
  }
}
