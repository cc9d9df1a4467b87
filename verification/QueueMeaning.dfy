/** What each step does to a queue, said of its messages, lists and timers one by one. */
module QueueMeaning {
  import opened Common
  import opened QueueBroker

  // --- When a flush is set --------------------------------------------------------------------------

  predicate IsFull(q: Queue) {
    q.consumer.Some? && |q.messages| >= q.consumer.value.maxBatchSize
  }

  // The queue but for its timers and the kind of flush pending.
  predicate SameButFlush(q: Queue, r: Queue) {
    r == q.(pendingFlush := r.pendingFlush, timeout := r.timeout, timers := r.timers, timersMade := r.timersMade)
  }

  // A new timer is set for a flush of this kind, in place of those given.
  predicate TimerSet(q: Queue, r: Queue, kind: FlushType, cleared: set<nat>) {
    && r.pendingFlush == kind && r.timeout == Some(q.timersMade) && r.timersMade == q.timersMade + 1
    && r.timers == (q.timers - cleared) + {q.timersMade}
  }

  // A queue with a consumer that has no flush pending gets a timer for one: at once if a batch
  // is full, with a delay if not. A delayed one is replaced when a batch has become full, and
  // nothing else happens.
  predicate FlushEnsured(q: Queue, r: Queue) {
    && SameButFlush(q, r)
    && (if q.consumer.Some? && q.pendingFlush == NONE then TimerSet(q, r, if IsFull(q) then IMMEDIATE else DELAYED, {})
        else if q.consumer.Some? && q.pendingFlush == DELAYED && IsFull(q) then
          TimerSet(q, r, IMMEDIATE, if q.timeout.Some? then {q.timeout.value} else {})
        else r == q)
  }

  lemma EnsureExact(q: Queue)
    ensures FlushEnsured(q, EnsurePendingFlush(q))
  {
  }

  // --- Sending, subscribing and resetting -----------------------------------------------------------

  // The queue of this name, or an empty one.
  predicate QueueOf(b: Broker, name: Name, q: Queue) {
    if name in b then q == b[name] else q == Queue(None, [], [], NONE, None, {}, 0, [], [], [], [])
  }

  // A message sent is a new one at the end of the queue, with no attempt made yet, and a flush
  // is seen to. No other queue changes.
  lemma SendExact(b: Broker, name: Name, body: Body, q: Queue)
    requires QueueOf(b, name, q) && Enabled(b, Send(name, body))
    ensures var r := Do(b, Send(name, body));
            && name in r && r == b[name := r[name]]
            && FlushEnsured(q.(messages := q.messages + [|q.sent|], sent := q.sent + [Message(body, false, 0, 0)]), r[name])
  {
    EnsureExact(q.(messages := q.messages + [|q.sent|], sent := q.sent + [Message(body, false, 0, 0)]));
  }

  // A first consumer is set, and a flush seen to if messages wait; a second one is refused.
  lemma SubscribeExact(b: Broker, name: Name, c: Consumer, q: Queue)
    requires QueueOf(b, name, q) && Enabled(b, Subscribe(name, c))
    ensures var r := Do(b, Subscribe(name, c));
            && name in r && r == b[name := r[name]]
            && (q.consumer.Some? ==> r[name] == q)
            && (q.consumer.None? && q.messages == [] ==> r[name] == q.(consumer := Some(c)))
            && (q.consumer.None? && q.messages != [] ==> FlushEnsured(q.(consumer := Some(c)), r[name]))
  {
    EnsureExact(q.(consumer := Some(c)));
  }

  // Resetting takes every consumer away with the flush pending for it; messages, batches in
  // flight and timers other than the one remembered stay.
  lemma ResetExact(b: Broker, name: Name)
    requires Enabled(b, ResetConsumers)
    ensures var r := Do(b, ResetConsumers);
            && (name in r <==> name in b)
            && (name in b ==>
                  r[name] == b[name].(consumer := None, pendingFlush := NONE,
                                      timers := b[name].timers - if b[name].timeout.Some? then {b[name].timeout.value} else {}))
  {
  }

  // Retrying marks the message and does nothing else.
  lemma RetryExact(b: Broker, name: Name, m: nat)
    requires name in b && m < |b[name].sent| && Enabled(b, CallRetry(name, m))
    ensures var r, sent := Do(b, CallRetry(name, m)), b[name].sent;
            && name in r && r == b[name := b[name].(sent := r[name].sent)]
            && |r[name].sent| == |sent| && r[name].sent[m] == Message(sent[m].body, true, sent[m].failedAttempts, sent[m].dispatches)
            && forall k | 0 <= k < |sent| && k != m :: r[name].sent[k] == sent[k]
  {
  }

  // Messages can be sent, consumers subscribed and reset, and messages retried at any time.
  lemma CallsPossible(b: Broker, name: Name, body: Body, c: Consumer, m: nat)
    ensures Enabled(b, Send(name, body)) && Enabled(b, Subscribe(name, c)) && Enabled(b, ResetConsumers)
    ensures name in b && m < |b[name].sent| ==> Enabled(b, CallRetry(name, m))
  {
  }

  // --- Handing out a batch ---------------------------------------------------------------------------

  // The smaller of the two.
  function Lesser(a: nat, b: nat): nat {
    if a < b then a else b
  }

  // Messages of the batch are counted as handed out once more.
  predicate CountedOut(sent: seq<Message>, sent': seq<Message>, batch: seq<nat>) {
    && |sent'| == |sent|
    && forall m | 0 <= m < |sent| ::
         sent'[m] == sent[m].(dispatches := sent[m].dispatches + multiset(batch)[m])
  }

  lemma {:induction false} DispatchedExact(sent: seq<Message>, batch: seq<nat>)
    requires Within(batch, |sent|)
    ensures CountedOut(sent, Dispatched(sent, batch), batch)
  {
    if batch != [] {
      DispatchedExact(sent, batch[1..]);
      assert batch == [batch[0]] + batch[1..];
      assert multiset(batch) == multiset{batch[0]} + multiset(batch[1..]);
    }
  }

  // The oldest messages make up the new batch in flight, as many as there are but no more than
  // the consumer takes; what is left stays queued in its order. With no consumer the timer
  // fires for nothing.
  predicate HandedOut(q: Queue, r: Queue, timer: nat) {
    && r.consumer == q.consumer && r.timers == q.timers - {timer} && r.pendingFlush == q.pendingFlush && r.timeout == q.timeout
    && r.timersMade == q.timersMade && r.acknowledged == q.acknowledged && r.dropped == q.dropped && r.deadLettered == q.deadLettered
    && match q.consumer
       case None => r.messages == q.messages && r.sent == q.sent && r.flushes == q.flushes
       case Some(c) =>
         && |r.flushes| == |q.flushes| + 1 && r.flushes[..|q.flushes|] == q.flushes && r.flushes[|q.flushes|].InFlight?
         && r.flushes[|q.flushes|].batch + r.messages == q.messages
         && |r.flushes[|q.flushes|].batch| == Lesser(c.maxBatchSize, |q.messages|)
         && r.flushes[|q.flushes|].maxAttempts == c.maxRetries + 1 && r.flushes[|q.flushes|].deadLetterQueue == c.deadLetterQueue
         && CountedOut(q.sent, r.sent, r.flushes[|q.flushes|].batch)
  }

  lemma FireExact(q: Queue, timer: nat)
    requires Within(q.messages, |q.sent|)
    ensures HandedOut(q, Fire(q, timer), timer)
  {
    if q.consumer.Some? {
      DispatchedExact(q.sent, Batch(q));
      assert Batch(q) + q.messages[|Batch(q)|..] == q.messages;
    }
  }

  lemma TimerExact(b: Broker, name: Name, timer: nat)
    requires Enabled(b, TimerFires(name, timer))
    ensures var r := Do(b, TimerFires(name, timer));
            name in b && name in r && r == b[name := r[name]] && HandedOut(b[name], r[name], timer)
  {
    FireExact(b[name], timer);
  }

  // In every run a timer that fires on a queue with messages, for a consumer that takes any,
  // puts the oldest message in flight.
  lemma OldestDelivered(steps: seq<Step>, name: Name, timer: nat)
    requires IsRun(map[], steps) && name in After(map[], steps) && timer in After(map[], steps)[name].timers
    requires var q := After(map[], steps)[name]; q.consumer.Some? && q.consumer.value.maxBatchSize > 0 && q.messages != []
    ensures var b := After(map[], steps);
            && Enabled(b, TimerFires(name, timer))
            && var r := Do(b, TimerFires(name, timer));
               name in r && exists f: nat :: InProgress(r[name], f) && b[name].messages[0] in r[name].flushes[f].batch
  {
    NothingBlocked(steps, name, timer, 0, false);
    var b := After(map[], steps);
    TimerExact(b, name, timer);
    var r := Do(b, TimerFires(name, timer))[name];
    var f := |b[name].flushes|;
    assert InProgress(r, f);
    assert b[name].messages[0] == (r.flushes[f].batch + r.messages)[0] == r.flushes[f].batch[0];
  }

  // --- The end of a batch ------------------------------------------------------------------------------

  // Whether a message of a batch has failed: it is marked, or the whole batch threw.
  predicate Failed(q: Queue, m: nat, threw: bool)
    requires m < |q.sent|
  {
    threw || q.sent[m].pendingRetry
  }

  // The messages of a batch of which this is so, in order.
  function Those(batch: seq<nat>, chosen: set<nat>): seq<nat> {
    if batch == [] then []
    else Those(batch[..|batch| - 1], chosen) + if batch[|batch| - 1] in chosen then [batch[|batch| - 1]] else []
  }

  ghost function Succeed(q: Queue, batch: seq<nat>, threw: bool): set<nat> {
    set m | m in batch && m < |q.sent| && !Failed(q, m, threw)
  }

  ghost function Again(q: Queue, batch: seq<nat>, threw: bool, maxAttempts: nat): set<nat> {
    set m | m in batch && m < |q.sent| && Failed(q, m, threw) && q.sent[m].failedAttempts + 1 < maxAttempts
  }

  ghost function GivenUp(q: Queue, batch: seq<nat>, threw: bool, maxAttempts: nat): set<nat> {
    set m | m in batch && m < |q.sent| && Failed(q, m, threw) && q.sent[m].failedAttempts + 1 >= maxAttempts
  }

  // Failed messages have one attempt more against them and are marked no longer.
  predicate CountedFailed(q: Queue, sent': seq<Message>, batch: seq<nat>, threw: bool) {
    && |sent'| == |q.sent|
    && forall m | 0 <= m < |q.sent| ::
         sent'[m] == if m in batch && Failed(q, m, threw)
                     then q.sent[m].(pendingRetry := false, failedAttempts := q.sent[m].failedAttempts + 1) else q.sent[m]
  }

  lemma {:induction false} RetryAllExact(sent: seq<Message>, batch: seq<nat>)
    requires Within(batch, |sent|)
    ensures forall m | 0 <= m < |sent| :: RetryAll(sent, batch)[m] == if m in batch then sent[m].(pendingRetry := true) else sent[m]
  {
    if batch != [] {
      RetryAllExact(sent, batch[1..]);
      assert batch == [batch[0]] + batch[1..];
    }
  }

  ghost predicate Distinct(batch: seq<nat>) {
    forall i, j | 0 <= i < j < |batch| :: batch[i] != batch[j]
  }

  // The messages of a batch sorted out so far: where they are and what became of each.
  ghost predicate SortedSoFar(sent: seq<Message>, batch: seq<nat>, r: Sorted, chosen: set<nat>, again: set<nat>, over: set<nat>) {
    && r.succeeded == Those(batch, chosen) && r.toRetry == Those(batch, again) && r.exhausted == Those(batch, over)
    && |r.sent| == |sent|
    && forall m | 0 <= m < |sent| ::
         r.sent[m] == if m in batch && sent[m].pendingRetry
                      then sent[m].(pendingRetry := false, failedAttempts := sent[m].failedAttempts + 1) else sent[m]
  }

  // Sorting out a batch, one message after the other.
  lemma {:induction false} SortOutThose(sent: seq<Message>, batch: seq<nat>, maxAttempts: nat, chosen: set<nat>, again: set<nat>, over: set<nat>)
    requires Within(batch, |sent|) && Distinct(batch)
    requires forall m | m in batch :: (m in chosen <==> !sent[m].pendingRetry)
    requires forall m | m in batch :: (m in again <==> sent[m].pendingRetry && sent[m].failedAttempts + 1 < maxAttempts)
    requires forall m | m in batch :: (m in over <==> sent[m].pendingRetry && sent[m].failedAttempts + 1 >= maxAttempts)
    ensures SortedSoFar(sent, batch, SortOut(sent, batch, maxAttempts), chosen, again, over)
    decreases |batch|
  {
    if batch != [] {
      var shorter, last := batch[..|batch| - 1], batch[|batch| - 1];
      SortOutThose(sent, shorter, maxAttempts, chosen, again, over);
      assert last in batch && last !in shorter;
      NextSorted(sent, batch, SortOut(sent, shorter, maxAttempts), maxAttempts, chosen, again, over);
    }
  }

  lemma NextSorted(sent: seq<Message>, batch: seq<nat>, r: Sorted, maxAttempts: nat, chosen: set<nat>, again: set<nat>, over: set<nat>)
    requires batch != [] && SortedSoFar(sent, batch[..|batch| - 1], r, chosen, again, over)
    requires var last := batch[|batch| - 1];
             && last < |sent| && last !in batch[..|batch| - 1]
             && (last in chosen <==> !sent[last].pendingRetry)
             && (last in again <==> sent[last].pendingRetry && sent[last].failedAttempts + 1 < maxAttempts)
             && (last in over <==> sent[last].pendingRetry && sent[last].failedAttempts + 1 >= maxAttempts)
    ensures SortedSoFar(sent, batch, SortNext(r, batch[|batch| - 1], maxAttempts), chosen, again, over)
  {
    var shorter, last := batch[..|batch| - 1], batch[|batch| - 1];
    forall m | 0 <= m < |sent| ensures m in batch <==> m in shorter || m == last {
      assert batch == shorter + [last];
    }
  }

  // What the end of a batch does to its queue: messages that succeeded are acknowledged, failed
  // ones with attempts left go to the end of the queue, and the others are given up, for the
  // dead letter queue if one is named. Then a flush is seen to if messages wait.
  ghost predicate Settles(q: Queue, r: Queue, f: nat, threw: bool)
    requires InProgress(q, f)
  {
    var batch, maxAttempts, letters := q.flushes[f].batch, q.flushes[f].maxAttempts, q.flushes[f].deadLetterQueue;
    exists s: Queue ::
      && s.consumer == q.consumer && s.pendingFlush == NONE && s.timeout == None && s.timers == q.timers && s.timersMade == q.timersMade
      && s.flushes == q.flushes[f := Ended] && CountedFailed(q, s.sent, batch, threw)
      && s.messages == q.messages + Those(batch, Again(q, batch, threw, maxAttempts))
      && s.acknowledged == q.acknowledged + Those(batch, Succeed(q, batch, threw))
      && s.deadLettered == q.deadLettered + (if letters.Some? && letters.value != "" then Those(batch, GivenUp(q, batch, threw, maxAttempts)) else [])
      && s.dropped == q.dropped + (if letters.Some? && letters.value != "" then [] else Those(batch, GivenUp(q, batch, threw, maxAttempts)))
      && (if s.messages == [] then r == s else FlushEnsured(s, r))
  }

  lemma EndFlushExact(q: Queue, f: nat, threw: bool)
    requires InProgress(q, f) && Within(q.flushes[f].batch, |q.sent|) && Distinct(q.flushes[f].batch)
    ensures Settles(q, EndFlush(q, f, threw), f, threw)
  {
    var batch, maxAttempts := q.flushes[f].batch, q.flushes[f].maxAttempts;
    var marked := if threw then RetryAll(q.sent, batch) else q.sent;
    RetryAllExact(q.sent, batch);
    SortOutThose(marked, batch, maxAttempts, Succeed(q, batch, threw), Again(q, batch, threw, maxAttempts), GivenUp(q, batch, threw, maxAttempts));
    var s := Sorting(q, f, threw);
    EnsureExact(s);
    assert CountedFailed(q, s.sent, batch, threw);
  }

  lemma BatchDistinct(q: Queue, f: nat)
    requires Conserved(q) && InProgress(q, f)
    ensures Distinct(q.flushes[f].batch)
  {
    var batch := q.flushes[f].batch;
    forall i, j | 0 <= i < j < |batch| ensures batch[i] != batch[j] {
      if batch[i] == batch[j] {
        InFlightOnly(q, f, batch[i]);
        TwiceIsTwo(batch, i, j);
      }
    }
  }

  lemma TwiceIsTwo(s: seq<nat>, i: nat, j: nat)
    requires i < j < |s| && s[i] == s[j]
    ensures multiset(s)[s[i]] >= 2
  {
    assert s == s[..j] + [s[j]] + s[j + 1..];
    assert s[i] in multiset(s[..j]);
  }

  // These bodies were sent to the queue, one after the other.
  predicate AllSent(q: Queue, r: Queue, bodies: seq<Body>) {
    && r.consumer == q.consumer && r.flushes == q.flushes
    && r.acknowledged == q.acknowledged && r.dropped == q.dropped && r.deadLettered == q.deadLettered
    && |r.sent| == |q.sent| + |bodies| && r.sent[..|q.sent|] == q.sent
    && |r.messages| == |q.messages| + |bodies| && r.messages[..|q.messages|] == q.messages
    && forall i | 0 <= i < |bodies| ::
         r.sent[|q.sent| + i] == Message(bodies[i], false, 0, 0) && r.messages[|q.messages| + i] == |q.sent| + i
  }

  lemma {:induction false} EnqueueAllExact(q: Queue, bodies: seq<Body>)
    ensures AllSent(q, EnqueueAll(q, bodies), bodies)
    decreases |bodies|
  {
    if bodies != [] {
      EnqueueAllExact(q, bodies[..|bodies| - 1]);
      OneMoreSent(q, EnqueueAll(q, bodies[..|bodies| - 1]), bodies);
    }
  }

  lemma OneMoreSent(q: Queue, r: Queue, bodies: seq<Body>)
    requires bodies != [] && AllSent(q, r, bodies[..|bodies| - 1])
    ensures AllSent(q, Enqueue(r, bodies[|bodies| - 1]), bodies)
  {
  }

  // The messages given up, as they are to be sent on.
  predicate LettersOf(q: Queue, letters: seq<nat>, bodies: seq<Body>) {
    |bodies| == |letters| && forall i | 0 <= i < |letters| :: letters[i] < |q.sent| && bodies[i] == q.sent[letters[i]].body
  }

  // The end of a batch settles its queue; what is given up for a dead letter queue is then sent
  // to that queue in order, even if it is the same, and no other queue changes.
  ghost predicate EndsRight(b: Broker, r: Broker, name: Name, f: nat, threw: bool)
    requires name in b && InProgress(b[name], f)
  {
    var q, flush := b[name], b[name].flushes[f];
    exists s :: Settles(q, s, f, threw) &&
      match flush.deadLetterQueue
      case Some(d) =>
        if d == "" then r == b[name := s]
        else exists bodies ::
          LettersOf(q, Those(flush.batch, GivenUp(q, flush.batch, threw, flush.maxAttempts)), bodies) && SentOn(b[name := s], r, d, bodies)
      case None => r == b[name := s]
  }

  ghost predicate SentOn(b: Broker, r: Broker, name: Name, bodies: seq<Body>) {
    name in r && r == b[name := r[name]] && exists t :: QueueOf(b, name, t) && AllSent(t, r[name], bodies)
  }

  lemma LettersExact(q: Queue, f: nat, threw: bool)
    requires Conserved(q) && InProgress(q, f) && Within(q.flushes[f].batch, |q.sent|)
    ensures LettersOf(q, Those(q.flushes[f].batch, GivenUp(q, q.flushes[f].batch, threw, q.flushes[f].maxAttempts)), DeadLetters(q, f, threw))
  {
    var batch, maxAttempts := q.flushes[f].batch, q.flushes[f].maxAttempts;
    BatchDistinct(q, f);
    RetryAllExact(q.sent, batch);
    SortOutThose(if threw then RetryAll(q.sent, batch) else q.sent, batch, maxAttempts,
                 Succeed(q, batch, threw), Again(q, batch, threw, maxAttempts), GivenUp(q, batch, threw, maxAttempts));
    LetterBodies(q, f, threw);
  }

  lemma EndExact(b: Broker, name: Name, f: nat, threw: bool)
    requires AllInv(b) && Enabled(b, DispatcherEnds(name, f, threw))
    ensures name in b && EndsRight(b, Do(b, DispatcherEnds(name, f, threw)), name, f, threw)
  {
    var q := b[name];
    var s, letters := EndFlush(q, f, threw), q.flushes[f].deadLetterQueue;
    BatchDistinct(q, f);
    EndFlushExact(q, f, threw);
    if Named(letters) {
      var t := GetOrCreate(b[name := s], letters.value);
      LettersExact(q, f, threw);
      EnqueueAllExact(t, DeadLetters(q, f, threw));
      assert QueueOf(b[name := s], letters.value, t);
      assert SentOn(b[name := s], DoEnd(b, name, f, threw), letters.value, DeadLetters(q, f, threw));
    }
  }
}
