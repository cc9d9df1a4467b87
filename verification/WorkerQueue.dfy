/** A queue as the object its users hold. Its methods do to the queue what the broker's steps
    say, and to the objects of the messages what those say of each message. */
module WorkerQueue {
  import opened Common
  import opened QueueBroker
  import opened QueueMeaning

  class MessageObject {
    const id: nat
    const body: Body
    var pendingRetry: bool
    var failedAttempts: nat
    ghost var dispatches: nat

    constructor (id: nat, body: Body)
      ensures this.id == id && State() == Message(body, false, 0, 0)
    {
      this.id, this.body := id, body;
      pendingRetry, failedAttempts, dispatches := false, 0, 0;
    }

    ghost function State(): Message
      reads this
    {
      Message(body, pendingRetry, failedAttempts, dispatches)
    }

    method Retry()
      modifies this`pendingRetry
      ensures pendingRetry
    {
      pendingRetry := true;
    }

    method PrepareForRetry()
      modifies this`pendingRetry, this`failedAttempts
      ensures !pendingRetry && failedAttempts == old(failedAttempts) + 1
    {
      pendingRetry, failedAttempts := false, failedAttempts + 1;
    }
  }

  ghost function Ids(ms: seq<MessageObject>): seq<nat> {
    seq(|ms|, i requires 0 <= i < |ms| => ms[i].id)
  }

  ghost function Table(all: seq<MessageObject>): (t: seq<Message>)
    reads all
    ensures |t| == |all| && forall i | 0 <= i < |all| :: t[i] == all[i].State()
  {
    seq(|all|, i requires 0 <= i < |all| reads all => all[i].State())
  }

  // The objects of messages by number.
  ghost predicate Numbered(all: seq<MessageObject>) {
    forall i | 0 <= i < |all| :: all[i].id == i
  }

  ghost predicate From(all: seq<MessageObject>, ms: seq<MessageObject>) {
    forall i | 0 <= i < |ms| :: ms[i].id < |all| && all[ms[i].id] == ms[i]
  }

  class WorkerQueue {
    var consumer: Option<Consumer>
    var messages: seq<MessageObject>
    var messageCounter: nat
    var pendingFlush: FlushType
    var timeout: Option<nat>
    // The timers of the runtime that belong to this queue.
    var timers: set<nat>
    var timersMade: nat
    // Every message ever sent, every flush ever begun, and what became of messages.
    ghost var all: seq<MessageObject>
    ghost var flushes: seq<Flush>
    ghost var acknowledged: seq<nat>
    ghost var dropped: seq<nat>
    ghost var deadLettered: seq<nat>

    ghost predicate Valid()
      reads this
    {
      Numbered(all) && From(all, messages) && messageCounter == |all|
    }

    // All there is to know of the queue but for the state of its messages.
    ghost function Shape(): Queue
      reads this
    {
      Queue(consumer, Ids(messages), [], pendingFlush, timeout, timers, timersMade, flushes,
            acknowledged, dropped, deadLettered)
    }

    ghost function State(): Queue
      reads this, all
    {
      Shape().(sent := Table(all))
    }

    constructor ()
      ensures Valid() && State() == NEW_QUEUE
    {
      consumer, messages, messageCounter, pendingFlush, timeout := None, [], 0, NONE, None;
      timers, timersMade, all, flushes := {}, 0, [], [];
      acknowledged, dropped, deadLettered := [], [], [];
    }

    method ClearTimer()
      modifies this`timers
      ensures timers == if timeout.Some? then old(timers) - {timeout.value} else old(timers)
    {
      if timeout.Some? {
        timers := timers - {timeout.value};
      }
    }

    method EnsureFlush()
      modifies this`pendingFlush, this`timeout, this`timers, this`timersMade
      ensures Shape() == EnsurePendingFlush(old(Shape()))
    {
      if consumer.None? {
        return;
      }
      if pendingFlush == IMMEDIATE {
        return;
      }
      if pendingFlush == DELAYED {
        if |messages| < consumer.value.maxBatchSize {
          return;
        }
        ClearTimer();
        timeout := None;
      }
      pendingFlush := if |messages| < consumer.value.maxBatchSize then DELAYED else IMMEDIATE;
      timeout := Some(timersMade);
      timers := timers + {timersMade};
      timersMade := timersMade + 1;
    }

    method Send(body: Body)
      requires Valid()
      modifies this`messages, this`messageCounter, this`all, this`pendingFlush, this`timeout, this`timers, this`timersMade
      ensures Valid() && State() == Enqueue(old(State()), body)
      ensures |all| == old(|all|) + 1 && fresh(all[old(|all|)]) && all[..old(|all|)] == old(all)
    {
      ghost var q := State();
      var m := new MessageObject(messageCounter, body);
      messages := messages + [m];
      messageCounter := messageCounter + 1;
      all := all + [m];
      assert all[..|all| - 1] == old(all);
      assert Table(all) == q.sent + [Message(body, false, 0, 0)];
      assert Ids(messages) == q.messages + [|q.sent|];
      ghost var sent := Table(all);
      EnsureIgnoresSent(Shape(), sent);
      EnsureFlush();
      assert Table(all) == sent;
    }

    // False stands for the error thrown when the queue has a consumer already.
    method Subscribe(c: Consumer) returns (ok: bool)
      requires Valid()
      modifies this`consumer, this`pendingFlush, this`timeout, this`timers, this`timersMade
      ensures Valid() && State() == SetConsumer(old(State()), c) && (ok <==> old(consumer).None?)
    {
      if consumer.Some? {
        return false;
      }
      ghost var sent := Table(all);
      consumer := Some(c);
      EnsureIgnoresSent(Shape(), sent);
      if |messages| > 0 {
        EnsureFlush();
      }
      ok := true;
      assert Table(all) == sent;
    }

    method Unsubscribe()
      requires Valid()
      modifies this`consumer, this`pendingFlush, this`timers
      ensures Valid() && State() == ResetConsumer(old(State()))
    {
      ghost var sent := Table(all);
      ClearTimer();
      pendingFlush := NONE;
      consumer := None;
      assert Table(all) == sent;
    }

    // The timer fires; a flush hands its batch to the dispatcher.
    method BeginFlush(timer: nat) returns (batch: seq<MessageObject>, begun: Option<Consumer>)
      requires Valid() && timer in timers
      modifies this`timers, this`messages, this`flushes, messages`dispatches
      ensures Valid() && begun == consumer && From(all, batch)
      ensures State() == Fire(old(State()), timer)
      ensures old(consumer).Some? ==> Ids(batch) == Batch(old(State()))
      ensures consumer == old(consumer) && batch + messages == old(messages)
      ensures |batch| == if consumer.None? then 0 else Lesser(consumer.value.maxBatchSize, |old(messages)|)
    {
      ghost var q := State();
      timers := timers - {timer};
      begun, batch := consumer, [];
      if consumer.Some? {
        batch := TakeBatch();
        ghost var taken := Shape();
        assert Table(all) == q.sent && taken == Fire(q, timer).(sent := []);
        assert batch == old(messages)[..|batch|];
        CountDispatches(batch);
        assert Shape() == taken;
      } else {
        assert Table(all) == q.sent;
      }
    }

    method TakeBatch() returns (batch: seq<MessageObject>)
      requires Valid() && consumer.Some?
      modifies this`messages, this`flushes
      ensures Valid() && From(all, batch) && Ids(batch) == Batch(old(Shape()))
      ensures batch + messages == old(messages) && |batch| == Lesser(consumer.value.maxBatchSize, |old(messages)|)
      ensures Shape() == old(Shape()).(messages := old(Shape()).messages[|batch|..],
                flushes := old(flushes) + [InFlight(Ids(batch), consumer.value.maxRetries + 1, consumer.value.deadLetterQueue)])
    {
      var size := if consumer.value.maxBatchSize < |messages| then consumer.value.maxBatchSize else |messages|;
      ghost var q := Shape();
      batch := messages[..size];
      messages := messages[size..];
      ghost var ids := Ids(batch);
      assert ids == Batch(q) && Ids(messages) == q.messages[size..];
      flushes := flushes + [InFlight(ids, consumer.value.maxRetries + 1, consumer.value.deadLetterQueue)];
    }

    ghost method CountDispatches(batch: seq<MessageObject>)
      requires Numbered(all) && From(all, batch)
      modifies batch`dispatches
      ensures Table(all) == Dispatched(old(Table(all)), Ids(batch))
    {
      if batch != [] {
        assert Ids(batch)[1..] == Ids(batch[1..]);
        CountDispatches(batch[1..]);
        batch[0].dispatches := batch[0].dispatches + 1;
      }
    }

    method RetryBatch(batch: seq<MessageObject>)
      requires Numbered(all) && From(all, batch)
      modifies batch`pendingRetry
      ensures Table(all) == RetryAll(old(Table(all)), Ids(batch))
    {
      ghost var before := Table(all);
      for i := |batch| downto 0
        invariant Table(all) == RetryAll(before, Ids(batch[i..]))
      {
        assert Ids(batch[i..])[1..] == Ids(batch[i + 1..]);
        batch[i].Retry();
      }
      assert batch[0..] == batch;
    }

    // Sorts out the messages of a batch: those to queue again, and those out of attempts.
    method SortBatch(batch: seq<MessageObject>, maxAttempts: nat)
      returns (toRetry: seq<MessageObject>, exhausted: seq<MessageObject>, ghost sorted: Sorted)
      requires Numbered(all) && From(all, batch)
      modifies batch`pendingRetry, batch`failedAttempts
      ensures sorted == SortOut(old(Table(all)), Ids(batch), maxAttempts) && Table(all) == sorted.sent
      ensures From(all, toRetry) && Ids(toRetry) == sorted.toRetry
      ensures From(all, exhausted) && Ids(exhausted) == sorted.exhausted
    {
      ghost var before := Table(all);
      toRetry, exhausted := [], [];
      sorted := SortOut(before, [], maxAttempts);
      for i := 0 to |batch|
        invariant sorted == SortOut(before, Ids(batch[..i]), maxAttempts) && Table(all) == sorted.sent
        invariant From(all, toRetry) && Ids(toRetry) == sorted.toRetry
        invariant From(all, exhausted) && Ids(exhausted) == sorted.exhausted
      {
        assert Ids(batch[..i + 1])[..i] == Ids(batch[..i]);
        var retry, again := SortMessage(batch[i], maxAttempts);
        sorted := SortNext(sorted, batch[i].id, maxAttempts);
        if retry {
          AppendFrom(all, toRetry, batch[i]);
          AppendFrom(all, exhausted, batch[i]);
          if again {
            toRetry := toRetry + [batch[i]];
          } else {
            exhausted := exhausted + [batch[i]];
          }
        }
      }
      assert batch[..|batch|] == batch;
    }

    method SortMessage(m: MessageObject, maxAttempts: nat) returns (retry: bool, again: bool)
      requires Numbered(all) && m.id < |all| && all[m.id] == m
      modifies m`pendingRetry, m`failedAttempts
      ensures retry == old(m.pendingRetry) && again == (retry && old(m.failedAttempts) + 1 < maxAttempts)
      ensures Table(all) == SortNext(Sorted(old(Table(all)), [], [], []), m.id, maxAttempts).sent
    {
      retry, again := m.pendingRetry, false;
      if retry {
        m.PrepareForRetry();
        again := m.failedAttempts < maxAttempts;
      }
    }

    // A dispatcher that threw has every message of its batch retried.
    method SettleBatch(batch: seq<MessageObject>, maxAttempts: nat, threw: bool)
      returns (toRetry: seq<MessageObject>, exhausted: seq<MessageObject>, ghost sorted: Sorted)
      requires Numbered(all) && From(all, batch)
      modifies batch`pendingRetry, batch`failedAttempts
      ensures var before := old(Table(all));
              sorted == SortOut(if threw then RetryAll(before, Ids(batch)) else before, Ids(batch), maxAttempts)
      ensures Table(all) == sorted.sent
      ensures From(all, toRetry) && Ids(toRetry) == sorted.toRetry
      ensures From(all, exhausted) && Ids(exhausted) == sorted.exhausted
    {
      if threw {
        RetryBatch(batch);
      }
      toRetry, exhausted, sorted := SortBatch(batch, maxAttempts);
    }

    method QueueAgain(ghost f: nat, toRetry: seq<MessageObject>, ghost sorted: Sorted, ghost named: bool)
      requires Valid() && f < |flushes| && From(all, toRetry) && Ids(toRetry) == sorted.toRetry
      modifies this`messages, this`pendingFlush, this`timeout, this`timers, this`timersMade
      modifies this`flushes, this`acknowledged, this`dropped, this`deadLettered
      ensures Valid()
      ensures Shape() == (var r := Settled(old(Shape()), f, sorted, named); if r.messages != [] then EnsurePendingFlush(r) else r)
    {
      ghost var q := Shape();
      pendingFlush, timeout := NONE, None;
      messages := messages + toRetry;
      flushes := flushes[f := Ended];
      acknowledged := acknowledged + sorted.succeeded;
      dropped := if named then dropped else dropped + sorted.exhausted;
      deadLettered := if named then deadLettered + sorted.exhausted else deadLettered;
      ConcatFrom(all, old(messages), toRetry);
      assert Shape() == Settled(q, f, sorted, named);
      if |messages| > 0 {
        EnsureFlush();
      }
    }

    // The dispatcher is done. Returns what is to be sent to the dead letter queue.
    method FinishFlush(ghost f: nat, batch: seq<MessageObject>, maxAttempts: nat, deadLetterQueue: Option<Name>, threw: bool)
      returns (letters: seq<Body>)
      requires Valid() && From(all, batch)
      requires f < |flushes| && flushes[f] == InFlight(Ids(batch), maxAttempts, deadLetterQueue)
      modifies this`messages, this`pendingFlush, this`timeout, this`timers, this`timersMade
      modifies this`flushes, this`acknowledged, this`dropped, this`deadLettered
      modifies batch`pendingRetry, batch`failedAttempts
      ensures Valid() && State() == EndFlush(old(State()), f, threw)
      ensures letters == if Named(deadLetterQueue) then DeadLetters(old(State()), f, threw) else []
    {
      ghost var q, shape := State(), Shape();
      var toRetry, exhausted, sorted := SettleBatch(batch, maxAttempts, threw);
      assert sorted == SortedAtEnd(q, f, threw) && Shape() == shape;
      letters := [];
      if deadLetterQueue.Some? && deadLetterQueue.value != "" {
        letters := BodiesOf(exhausted);
      }
      EndFlushShape(q, f, threw);
      QueueAgain(f, toRetry, sorted, Named(deadLetterQueue));
      assert Table(all) == sorted.sent;
    }

    method BodiesOf(ms: seq<MessageObject>) returns (bodies: seq<Body>)
      requires Numbered(all) && From(all, ms)
      ensures bodies == Bodies(Table(all), Ids(ms))
    {
      bodies := [];
      for i := 0 to |ms|
        invariant |bodies| == i && forall j | 0 <= j < i :: bodies[j] == ms[j].body
      {
        bodies := bodies + [ms[i].body];
      }
    }
  }

  // When a flush is due does not depend on the state of messages.
  lemma EnsureIgnoresSent(q: Queue, sent: seq<Message>)
    ensures EnsurePendingFlush(q.(sent := sent)) == EnsurePendingFlush(q).(sent := sent)
  {
  }

  // What a sorted batch does to the queue but for the state of its messages.
  ghost function Settled(q: Queue, f: nat, sorted: Sorted, named: bool): Queue
    requires f < |q.flushes|
  {
    q.(pendingFlush := NONE, timeout := None, flushes := q.flushes[f := Ended], messages := q.messages + sorted.toRetry,
       acknowledged := q.acknowledged + sorted.succeeded,
       dropped := if named then q.dropped else q.dropped + sorted.exhausted,
       deadLettered := if named then q.deadLettered + sorted.exhausted else q.deadLettered)
  }

  lemma EndFlushShape(q: Queue, f: nat, threw: bool)
    requires InProgress(q, f) && Within(q.flushes[f].batch, |q.sent|)
    ensures var sorted := SortedAtEnd(q, f, threw);
            var r := Settled(q.(sent := []), f, sorted, Named(q.flushes[f].deadLetterQueue));
            EndFlush(q, f, threw) == (if r.messages != [] then EnsurePendingFlush(r) else r).(sent := sorted.sent)
  {
    var sorted := SortedAtEnd(q, f, threw);
    var r := Settled(q.(sent := []), f, sorted, Named(q.flushes[f].deadLetterQueue));
    assert Sorting(q, f, threw) == r.(sent := sorted.sent);
    EnsureIgnoresSent(r, sorted.sent);
  }

  lemma AppendFrom(all: seq<MessageObject>, ms: seq<MessageObject>, m: MessageObject)
    requires From(all, ms) && m.id < |all| && all[m.id] == m
    ensures From(all, ms + [m]) && Ids(ms + [m]) == Ids(ms) + [m.id]
  {
  }

  lemma ConcatFrom(all: seq<MessageObject>, ms: seq<MessageObject>, more: seq<MessageObject>)
    requires From(all, ms) && From(all, more)
    ensures From(all, ms + more) && Ids(ms + more) == Ids(ms) + Ids(more)
  {
  }
}
