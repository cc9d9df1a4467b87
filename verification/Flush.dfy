/** The flush of a write-coalescing shadow as a machine of single steps on the backing
    store. Every backing-store delete and put is one step and the members of one batch
    may be carried out in any order, as `Promise.all` allows. */
module Flush {
  import opened Common
  import opened Overlay

  // `done` holds the keys whose pending deletes this flush has carried out.
  datatype Phase =
    | Idle
    | Picking(rest: map<nat, set<Key>>, done: set<Key>)
    | Deleting(owner: nat, keys: set<Key>, left: set<Key>, count: nat, rest: map<nat, set<Key>>, done: set<Key>)
    | Putting(left: set<Key>, done: set<Key>)
    | Removing(left: set<Key>)
    | Clearing
    | Finished

  // `pending` maps each delete call that still needs an answer from the backing store to
  // the keys it must check there; `results` holds the answers not yet collected.
  datatype Disk = Disk(
    inner: Store,
    copies: Copies,
    pending: map<nat, set<Key>>,
    results: map<nat, nat>,
    entries: Copies,
    phase: Phase)

  datatype Step =
    | Pick(owner: nat)
    | DeleteOne(key: Key)
    | RecordCount
    | StartPuts
    | PutOne(key: Key)
    | StartRemovals
    | RemoveOne(key: Key)
    | StartClear
    | ClearOne(key: Key)
    | Finish

  function Logical(d: Disk): Store {
    View(d.copies, d.inner)
  }

  // --- The transitions ---------------------------------------------------------------

  function Start(d: Disk): Disk
    requires d.phase.Idle?
  {
    if d.copies == map[] then
      d.(phase := Finished)
    else
      d.(pending := map[], entries := d.copies, phase := Picking(d.pending, {}))
  }

  predicate Enabled(d: Disk, step: Step) {
    match step
    case Pick(owner) => d.phase.Picking? && owner in d.phase.rest
    case DeleteOne(key) => d.phase.Deleting? && key in d.phase.left
    case RecordCount => d.phase.Deleting? && d.phase.left == {}
    case StartPuts => d.phase.Picking? && d.phase.rest == map[]
    case PutOne(key) => d.phase.Putting? && key in d.phase.left && key in d.entries && d.entries[key].Some?
    case StartRemovals => d.phase.Putting? && d.phase.left == {}
    case RemoveOne(key) => d.phase.Removing? && key in d.phase.left
    case StartClear => d.phase.Removing? && d.phase.left == {}
    case ClearOne(key) => d.phase.Clearing? && key in d.entries
    case Finish => d.phase.Clearing? && d.entries == map[]
  }

  function Do(d: Disk, step: Step): Disk
    requires Enabled(d, step)
  {
    match step
    case Pick(owner) =>
      var keys := d.phase.rest[owner];
      d.(phase := Deleting(owner, keys, keys, 0, d.phase.rest - {owner}, d.phase.done))
    case DeleteOne(key) =>
      d.(inner := d.inner - {key},
         phase := d.phase.(left := d.phase.left - {key}, count := d.phase.count + if key in d.inner then 1 else 0))
    case RecordCount =>
      d.(results := d.results[d.phase.owner := d.phase.count],
         phase := Picking(d.phase.rest, d.phase.done + d.phase.keys))
    case StartPuts =>
      d.(phase := Putting((set k | k in d.entries && d.entries[k].Some?), d.phase.done))
    case PutOne(key) =>
      d.(inner := d.inner[key := d.entries[key].value], phase := d.phase.(left := d.phase.left - {key}))
    case StartRemovals =>
      d.(phase := Removing((set k | k in d.entries && d.entries[k].None? && k !in d.phase.done)))
    case RemoveOne(key) =>
      d.(inner := d.inner - {key}, phase := d.phase.(left := d.phase.left - {key}))
    case StartClear =>
      d.(phase := Clearing)
    case ClearOne(key) =>
      // A copy that changed during the flush would stay for the next one.
      var copies' := if key in d.copies && d.copies[key] == d.entries[key] then d.copies - {key} else d.copies;
      d.(copies := copies', entries := d.entries - {key})
    case Finish =>
      d.(phase := Finished)
  }

  // --- The invariant -----------------------------------------------------------------

  ghost predicate Disjoint(pending: map<nat, set<Key>>) {
    forall a, b | a in pending && b in pending && a != b :: pending[a] !! pending[b]
  }

  ghost predicate Covered(pending: map<nat, set<Key>>, keys: set<Key>) {
    forall a | a in pending :: pending[a] <= keys && pending[a] != {}
  }

  // Owners answered so far, being answered and waiting are distinct.
  ghost predicate OwnersApart(d: Disk) {
    && d.pending.Keys !! d.results.Keys
    && (d.phase.Picking? ==> d.phase.rest.Keys !! d.results.Keys)
    && (d.phase.Deleting? ==>
          && d.phase.rest.Keys !! d.results.Keys
          && d.phase.owner !in d.results
          && d.phase.owner !in d.phase.rest)
  }

  ghost predicate PhaseOk(d: Disk) {
    match d.phase
    case Idle =>
      true
    case Picking(rest, done) =>
      && d.entries == d.copies && d.pending == map[]
      && Disjoint(rest) && Covered(rest, d.copies.Keys)
      && done <= d.copies.Keys && done !! d.inner.Keys
    case Deleting(owner, keys, left, count, rest, done) =>
      && d.entries == d.copies && d.pending == map[]
      && Disjoint(rest) && Covered(rest, d.copies.Keys)
      && (forall a | a in rest :: rest[a] !! keys)
      && done <= d.copies.Keys && done !! d.inner.Keys
      && left <= keys <= d.copies.Keys && (keys - left) !! d.inner.Keys
    case Putting(left, done) =>
      && d.entries == d.copies && d.pending == map[]
      && done <= d.copies.Keys
      && (forall k | k in left :: k in d.copies && d.copies[k].Some?)
      && (forall k | k in d.copies && d.copies[k].Some? && k !in left :: Lookup(d.inner, k) == d.copies[k])
      && (forall k | k in d.copies && d.copies[k].None? && k in done :: k !in d.inner)
    case Removing(left) =>
      && d.entries == d.copies && d.pending == map[]
      && (forall k | k in left :: k in d.copies && d.copies[k].None?)
      && (forall k | k in d.copies && k !in left :: Lookup(d.inner, k) == d.copies[k])
    case Clearing =>
      && d.entries == d.copies && d.pending == map[]
      && (forall k | k in d.copies :: Lookup(d.inner, k) == d.copies[k])
    case Finished =>
      && d.copies == map[] && d.pending == map[]
  }

  ghost predicate Inv(d: Disk) {
    && Disjoint(d.pending)
    && Covered(d.pending, d.copies.Keys)
    && OwnersApart(d)
    && PhaseOk(d)
  }

  // The number of keys the backing store will report, or has reported, to a delete call.
  function Owed(d: Disk, owner: nat): nat {
    if owner in d.results then d.results[owner]
    else if owner in d.pending then Present(d.inner, d.pending[owner])
    else if d.phase.Picking? && owner in d.phase.rest then Present(d.inner, d.phase.rest[owner])
    else if d.phase.Deleting? && owner == d.phase.owner then d.phase.count + Present(d.inner, d.phase.left)
    else if d.phase.Deleting? && owner in d.phase.rest then Present(d.inner, d.phase.rest[owner])
    else 0
  }

  // Whether an answer is still due to this delete call.
  predicate Due(d: Disk, owner: nat) {
    || owner in d.results
    || owner in d.pending
    || (d.phase.Picking? && owner in d.phase.rest)
    || (d.phase.Deleting? && (owner == d.phase.owner || owner in d.phase.rest))
  }

  lemma PresentApart(m: Store, gone: Key, keys: set<Key>)
    requires gone !in keys
    ensures Present(m - {gone}, keys) == Present(m, keys)
  {
    assert Found(m - {gone}, keys) == Found(m, keys);
  }

  lemma PresentMember(m: Store, gone: Key, keys: set<Key>)
    requires gone in keys
    ensures Present(m, keys) == Present(m - {gone}, keys - {gone}) + if gone in m then 1 else 0
  {
    assert Found(m - {gone}, keys - {gone}) == Found(m, keys) - {gone};
  }

  lemma PendingMeansCopies(pending: map<nat, set<Key>>, keys: set<Key>)
    requires Covered(pending, keys) && pending != map[]
    ensures keys != {}
  {
    var a :| a in pending;
    var k :| k in pending[a];
    assert k in keys;
  }

  // Starting a flush changes neither the view nor what is owed to any delete call.
  lemma StartOk(d: Disk)
    requires d.phase.Idle? && Inv(d)
    ensures Inv(Start(d)) && !Start(d).phase.Idle?
    ensures Start(d).inner == d.inner && Start(d).copies == d.copies
    ensures forall o :: Due(Start(d), o) == Due(d, o) && Owed(Start(d), o) == Owed(d, o)
  {
    if d.pending != map[] {
      PendingMeansCopies(d.pending, d.copies.Keys);
    }
  }

  // Every single step keeps the invariant.
  lemma StepInv(d: Disk, step: Step)
    requires Inv(d) && Enabled(d, step)
    ensures Inv(Do(d, step)) && !Do(d, step).phase.Idle?
  {
  }

  lemma StepShrinks(d: Disk, step: Step)
    requires Enabled(d, step)
    ensures Do(d, step).copies.Keys <= d.copies.Keys && (d.copies == map[] ==> Do(d, step).copies == map[])
  {
  }

  // No step changes what a reader of the overlay sees.
  lemma StepInvisible(d: Disk, step: Step)
    requires Inv(d) && Enabled(d, step)
    ensures Logical(Do(d, step)) == Logical(d)
  {
    SameStore(Logical(Do(d, step)), Logical(d));
  }

  // No step changes which delete calls are due an answer, nor the answer.
  lemma StepOwed(d: Disk, step: Step, owner: nat)
    requires Inv(d) && Enabled(d, step)
    ensures Due(Do(d, step), owner) == Due(d, owner)
    ensures Due(d, owner) ==> Owed(Do(d, step), owner) == Owed(d, owner)
  {
    if step.DeleteOne? && Due(d, owner) && owner !in d.results {
      DeleteOneOwed(d, step.key, owner);
    }
  }

  lemma DeleteOneOwed(d: Disk, key: Key, owner: nat)
    requires Inv(d) && d.phase.Deleting? && key in d.phase.left
    requires owner == d.phase.owner || owner in d.phase.rest
    ensures Owed(Do(d, DeleteOne(key)), owner) == Owed(d, owner)
  {
    if owner == d.phase.owner {
      PresentMember(d.inner, key, d.phase.left);
    } else {
      PresentApart(d.inner, key, d.phase.rest[owner]);
    }
  }

  // --- Whole flushes -----------------------------------------------------------------

  // Position in a flush: phase, batches to go, members to go.
  function Rank(d: Disk): (nat, nat, nat) {
    match d.phase
    case Idle => (5, 0, 0)
    case Picking(rest, _) => (4, 2 * |rest|, 0)
    case Deleting(_, _, left, _, rest, _) => (4, 2 * |rest| + 1, |left|)
    case Putting(left, _) => (3, 0, |left|)
    case Removing(left) => (2, 0, |left|)
    case Clearing => (1, 0, |d.entries|)
    case Finished => (0, 0, 0)
  }

  predicate Below(a: (nat, nat, nat), b: (nat, nat, nat)) {
    a.0 < b.0 || (a.0 == b.0 && (a.1 < b.1 || (a.1 == b.1 && a.2 < b.2)))
  }

  // A flush cannot go on for ever ...
  lemma StepDescends(d: Disk, step: Step)
    requires Enabled(d, step)
    ensures Below(Rank(Do(d, step)), Rank(d))
  {
    if step.Pick? || step.ClearOne? {
      ListDescends(d, step);
    } else if step.DeleteOne? || step.PutOne? || step.RemoveOne? {
      BatchDescends(d, step);
    }
  }

  lemma ListDescends(d: Disk, step: Step)
    requires Enabled(d, step) && (step.Pick? || step.ClearOne?)
    ensures Below(Rank(Do(d, step)), Rank(d))
  {
    if step.Pick? {
      MapWithout(d.phase.rest, step.owner);
    } else {
      MapWithout(d.entries, step.key);
    }
  }

  lemma BatchDescends(d: Disk, step: Step)
    requires Enabled(d, step) && (step.DeleteOne? || step.PutOne? || step.RemoveOne?)
    ensures Below(Rank(Do(d, step)), Rank(d))
  {
    SetWithout(d.phase.left, step.key);
  }

  lemma SetWithout<T>(s: set<T>, x: T)
    requires x in s
    ensures |s - {x}| < |s|
  {
  }

  lemma MapWithout<T, U>(m: map<T, U>, x: T)
    requires x in m
    ensures |m - {x}| < |m|
  {
    assert (m - {x}).Keys == m.Keys - {x};
    SetWithout(m.Keys, x);
    assert |m| == |m.Keys| && |m - {x}| == |(m - {x}).Keys|;
  }

  // ... nor get stuck before it has finished.
  lemma FlushProgress(d: Disk)
    requires Inv(d) && !d.phase.Idle? && !d.phase.Finished?
    ensures exists step :: Enabled(d, step)
  {
    match d.phase
    case Picking(rest, _) =>
      if rest == map[] {
        assert Enabled(d, StartPuts);
      } else {
        var owner :| owner in rest;
        assert Enabled(d, Pick(owner));
      }
    case Deleting(_, _, left, _, _, _) =>
      if left == {} {
        assert Enabled(d, RecordCount);
      } else {
        var k :| k in left;
        assert Enabled(d, DeleteOne(k));
      }
    case Putting(left, _) =>
      if left == {} {
        assert Enabled(d, StartRemovals);
      } else {
        var k :| k in left;
        assert Enabled(d, PutOne(k));
      }
    case Removing(left) =>
      if left == {} {
        assert Enabled(d, StartClear);
      } else {
        var k :| k in left;
        assert Enabled(d, RemoveOne(k));
      }
    case Clearing =>
      if d.entries == map[] {
        assert Enabled(d, Finish);
      } else {
        var k :| k in d.entries;
        assert Enabled(d, ClearOne(k));
      }
  }

  ghost predicate IsRun(d: Disk, steps: seq<Step>)
    decreases |steps|
  {
    steps == [] || (Enabled(d, steps[0]) && IsRun(Do(d, steps[0]), steps[1..]))
  }

  ghost function After(d: Disk, steps: seq<Step>): Disk
    requires IsRun(d, steps)
    decreases |steps|
  {
    if steps == [] then d else After(Do(d, steps[0]), steps[1..])
  }

  lemma {:induction false} RunKeeps(d: Disk, steps: seq<Step>)
    requires Inv(d) && IsRun(d, steps)
    ensures Inv(After(d, steps)) && Logical(After(d, steps)) == Logical(d)
    ensures forall o :: Due(After(d, steps), o) == Due(d, o)
    ensures forall o :: Due(d, o) ==> Owed(After(d, steps), o) == Owed(d, o)
    decreases |steps|
  {
    if steps != [] {
      var next := Do(d, steps[0]);
      StepInv(d, steps[0]);
      StepInvisible(d, steps[0]);
      forall o ensures Due(next, o) == Due(d, o) && (Due(d, o) ==> Owed(next, o) == Owed(d, o)) {
        StepOwed(d, steps[0], o);
      }
      RunKeeps(next, steps[1..]);
    }
  }

  // What a flush comes to.
  function Flushed(d: Disk): Disk {
    d.(inner := Logical(d), copies := map[], pending := map[],
       results := d.results + (map o | o in d.pending :: Present(d.inner, d.pending[o])),
       entries := map[], phase := Finished)
  }

  // Every complete flush, in whatever order its steps ran, ends in the same state: the
  // store holds the view it had at the start and every delete call has its exact count.
  lemma FlushComplete(d: Disk, steps: seq<Step>)
    requires Inv(d) && d.phase.Idle? && d.entries == map[] && IsRun(Start(d), steps)
    requires After(Start(d), steps).phase.Finished?
    ensures After(Start(d), steps) == Flushed(d)
  {
    StartOk(d);
    RunKeeps(Start(d), steps);
    EntriesGone(Start(d), steps);
    var end := After(Start(d), steps);
    ViewEmpty(end.inner);
    forall o ensures o in end.results <==> o in Flushed(d).results
             ensures o in end.results ==> end.results[o] == Flushed(d).results[o] {
      ResultSettled(d, end, o);
    }
    assert end.results == Flushed(d).results;
  }

  lemma ResultSettled(d: Disk, end: Disk, o: nat)
    requires OwnersApart(d) && d.phase.Idle? && end.phase.Finished? && end.pending == map[]
    requires Due(end, o) == Due(d, o) && (Due(d, o) ==> Owed(end, o) == Owed(d, o))
    ensures o in end.results <==> o in Flushed(d).results
    ensures o in end.results ==> end.results[o] == Flushed(d).results[o]
  {
  }

  // The list of entries taken at the start is used up when a flush finishes.
  lemma {:induction false} EntriesGone(d: Disk, steps: seq<Step>)
    requires IsRun(d, steps) && (d.phase.Finished? ==> d.entries == map[])
    ensures After(d, steps).phase.Finished? ==> After(d, steps).entries == map[]
    decreases |steps|
  {
    if steps != [] {
      EntriesGone(Do(d, steps[0]), steps[1..]);
    }
  }
}
