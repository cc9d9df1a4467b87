/** The input gates of a Durable Object: a tree of counted gates. Closing a gate closes all
    gates above it; opening one lets its waiters through one at a time and only then opens
    the gate above. */
module InputGate {
  import opened Common

  // A gate is named by its index; the gate above one was made before it.
  type Parents = p: seq<Option<nat>> | forall i | 0 <= i < |p| :: p[i].Some? ==> p[i].value < i

  // A closure run with a gate closed: `Held` until it is over, `Draining` while waiters of
  // this gate are being let through on its behalf.
  datatype Closure = Held(gate: nat) | Draining(gate: nat) | Done

  // For each gate: `queued` are the waiters that ever had to queue there, `resolved` those
  // of them let through so far. `failed` tells that unlocking found a gate not locked.
  datatype State = State(
    parents: Parents,
    lockCounts: seq<nat>,
    resolveQueues: seq<seq<nat>>,
    closures: seq<Closure>,
    queued: seq<seq<nat>>,
    resolved: seq<seq<nat>>,
    failed: bool)

  datatype Step =
    | NewGate
    | WaitForOpen(gate: nat, waiter: nat)
    | RunWithClosed(gate: nat)
    | Unlock(closure: nat)
    | Continue(closure: nat)

  predicate Shaped(s: State) {
    |s.lockCounts| == |s.resolveQueues| == |s.queued| == |s.resolved| == |s.parents|
  }

  const EMPTY := State([], [], [], [], [], [], false)

  function AddGate(s: State, parent: Option<nat>): State
    requires parent.Some? ==> parent.value < |s.parents|
  {
    s.(parents := s.parents + [parent], lockCounts := s.lockCounts + [0], resolveQueues := s.resolveQueues + [[]],
       queued := s.queued + [[]], resolved := s.resolved + [[]])
  }

  // One more lock on a gate and on every gate above it.
  function LockUp(parents: Parents, counts: seq<nat>, g: nat): (r: seq<nat>)
    requires g < |parents| == |counts|
    ensures |r| == |counts|
    decreases g
  {
    var locked := counts[g := counts[g] + 1];
    if parents[g].Some? then LockUp(parents, locked, parents[g].value) else locked
  }

  // One waiter of the gate that closure i drains goes through.
  function LetThrough(s: State, g: nat): State
    requires Shaped(s) && g < |s.parents| && s.resolveQueues[g] != []
  {
    s.(resolved := s.resolved[g := s.resolved[g] + [s.resolveQueues[g][0]]],
       resolveQueues := s.resolveQueues[g := s.resolveQueues[g][1..]])
  }

  function SetClosure(s: State, i: nat, c: Closure): State
    requires i < |s.closures|
  {
    s.(closures := s.closures[i := c])
  }

  predicate Placed(s: State, i: nat) {
    i < |s.closures| && !s.closures[i].Done? && s.closures[i].gate < |s.parents|
  }

  // One lock less on the gate that closure i holds, then its waiters.
  function UnlockGate(s: State, i: nat): (r: State)
    requires Shaped(s) && Placed(s, i) && s.closures[i].Held?
    ensures Shaped(r) && r.parents == s.parents && |r.closures| == |s.closures|
    decreases s.closures[i].gate, 1
  {
    var g := s.closures[i].gate;
    if s.lockCounts[g] == 0 then SetClosure(s, i, Done).(failed := true)
    else DrainGate(SetClosure(s, i, Draining(g)).(lockCounts := s.lockCounts[g := s.lockCounts[g] - 1]), i)
  }

  // While the gate is open, a waiter is let through and given a chance to lock it again;
  // after that the gate above is unlocked.
  function DrainGate(s: State, i: nat): (r: State)
    requires Shaped(s) && Placed(s, i) && s.closures[i].Draining?
    ensures Shaped(r) && r.parents == s.parents && |r.closures| == |s.closures|
    decreases s.closures[i].gate, 0
  {
    var g := s.closures[i].gate;
    if s.lockCounts[g] == 0 && s.resolveQueues[g] != [] then LetThrough(s, g)
    else if s.parents[g].Some? then UnlockGate(SetClosure(s, i, Held(s.parents[g].value)), i)
    else SetClosure(s, i, Done)
  }

  predicate Enabled(s: State, step: Step) {
    match step
    case NewGate => true
    case WaitForOpen(g, _) => g < |s.parents|
    case RunWithClosed(g) => g < |s.parents|
    case Unlock(i) => Placed(s, i) && s.closures[i].Held?
    case Continue(i) => Placed(s, i) && s.closures[i].Draining?
  }

  function Do(s: State, step: Step): (r: State)
    requires Shaped(s) && Enabled(s, step)
    ensures Shaped(r)
  {
    match step
    case NewGate => AddGate(s, None)
    case WaitForOpen(g, w) =>
      if s.lockCounts[g] == 0 then s
      else s.(resolveQueues := s.resolveQueues[g := s.resolveQueues[g] + [w]], queued := s.queued[g := s.queued[g] + [w]])
    case RunWithClosed(g) =>
      AddGate(s.(lockCounts := LockUp(s.parents, s.lockCounts, g), closures := s.closures + [Held(g)]), Some(g))
    case Unlock(i) => UnlockGate(s, i)
    case Continue(i) => DrainGate(s, i)
  }

  ghost predicate IsRun(s: State, steps: seq<Step>)
    requires Shaped(s)
    decreases |steps|
  {
    steps == [] || (Enabled(s, steps[0]) && IsRun(Do(s, steps[0]), steps[1..]))
  }

  ghost function After(s: State, steps: seq<Step>): (r: State)
    requires Shaped(s) && IsRun(s, steps)
    ensures Shaped(r)
    decreases |steps|
  {
    if steps == [] then s else After(Do(s, steps[0]), steps[1..])
  }

  // --- The invariant ---------------------------------------------------------------------------

  // Gate h is g or above it.
  predicate AtOrAbove(parents: Parents, g: nat, h: nat)
    requires g < |parents|
    decreases g
  {
    g == h || (parents[g].Some? && AtOrAbove(parents, parents[g].value, h))
  }

  // A held closure locks its gate and those above; one that drains no longer locks its gate.
  predicate Locks(parents: Parents, c: Closure, h: nat) {
    match c
    case Held(g) => g < |parents| && AtOrAbove(parents, g, h)
    case Draining(g) => g < |parents| && g != h && AtOrAbove(parents, g, h)
    case Done => false
  }

  function LocksOn(parents: Parents, closures: seq<Closure>, h: nat): nat {
    if closures == [] then 0
    else LocksOn(parents, closures[..|closures| - 1], h) + if Locks(parents, closures[|closures| - 1], h) then 1 else 0
  }

  ghost predicate CountsExact(s: State)
    requires Shaped(s)
  {
    forall h | 0 <= h < |s.parents| :: s.lockCounts[h] == LocksOn(s.parents, s.closures, h)
  }

  ghost predicate ClosuresOk(s: State) {
    forall i | 0 <= i < |s.closures| :: !s.closures[i].Done? ==> s.closures[i].gate < |s.parents|
  }

  ghost predicate BeingDrained(s: State, h: nat) {
    exists i :: 0 <= i < |s.closures| && s.closures[i] == Draining(h)
  }

  // Waiters left in a queue have a lock to wait for, or somebody to let them through.
  ghost predicate NoneForgotten(s: State)
    requires Shaped(s)
  {
    forall h | 0 <= h < |s.parents| && s.resolveQueues[h] != [] :: s.lockCounts[h] > 0 || BeingDrained(s, h)
  }

  ghost predicate Fifo(s: State)
    requires Shaped(s)
  {
    forall h | 0 <= h < |s.parents| :: s.queued[h] == s.resolved[h] + s.resolveQueues[h]
  }

  ghost predicate Inv(s: State) {
    Shaped(s) && CountsExact(s) && ClosuresOk(s) && NoneForgotten(s) && Fifo(s) && !s.failed
  }

  // --- Counting closures ---------------------------------------------------------------------

  lemma AboveIsSmaller(parents: Parents, g: nat, h: nat)
    requires g < |parents| && AtOrAbove(parents, g, h)
    ensures h <= g
    decreases g
  {
    if g != h {
      AboveIsSmaller(parents, parents[g].value, h);
    }
  }

  lemma {:induction false} LocksOnUpdate(parents: Parents, closures: seq<Closure>, i: nat, c: Closure, h: nat)
    requires i < |closures|
    ensures LocksOn(parents, closures[i := c], h) == LocksOn(parents, closures, h)
          - (if Locks(parents, closures[i], h) then 1 else 0) + (if Locks(parents, c, h) then 1 else 0)
    decreases |closures|
  {
    var last := |closures| - 1;
    if i < last {
      LocksOnUpdate(parents, closures[..last], i, c, h);
      assert closures[i := c][..last] == closures[..last][i := c];
    } else {
      assert closures[i := c][..last] == closures[..last];
    }
  }

  lemma {:induction false} LocksOnMember(parents: Parents, closures: seq<Closure>, i: nat, h: nat)
    requires i < |closures| && Locks(parents, closures[i], h)
    ensures LocksOn(parents, closures, h) > 0
    decreases |closures|
  {
    if i < |closures| - 1 {
      LocksOnMember(parents, closures[..|closures| - 1], i, h);
    }
  }

  lemma {:induction false} LocksOnNone(parents: Parents, closures: seq<Closure>, h: nat)
    requires forall i | 0 <= i < |closures| :: !Locks(parents, closures[i], h)
    ensures LocksOn(parents, closures, h) == 0
    decreases |closures|
  {
    if closures != [] {
      LocksOnNone(parents, closures[..|closures| - 1], h);
    }
  }

  // A new gate changes nothing for those there are.
  lemma AboveInLarger(parents: Parents, larger: Parents, g: nat, h: nat)
    requires g < |parents| && parents <= larger
    ensures AtOrAbove(larger, g, h) == AtOrAbove(parents, g, h)
    decreases g
  {
    if g != h && parents[g].Some? {
      AboveInLarger(parents, larger, parents[g].value, h);
    }
  }

  lemma {:induction false} LocksOnInLarger(parents: Parents, larger: Parents, closures: seq<Closure>, h: nat)
    requires parents <= larger && forall i | 0 <= i < |closures| && !closures[i].Done? :: closures[i].gate < |parents|
    ensures LocksOn(larger, closures, h) == LocksOn(parents, closures, h)
    decreases |closures|
  {
    if closures != [] {
      var c := closures[|closures| - 1];
      LocksOnInLarger(parents, larger, closures[..|closures| - 1], h);
      if !c.Done? {
        AboveInLarger(parents, larger, c.gate, h);
      }
    }
  }

  lemma {:induction false} LockUpExact(parents: Parents, counts: seq<nat>, g: nat, h: nat)
    requires g < |parents| == |counts| && h < |counts|
    ensures LockUp(parents, counts, g)[h] == counts[h] + if AtOrAbove(parents, g, h) then 1 else 0
    decreases g
  {
    if parents[g].Some? {
      LockUpExact(parents, counts[g := counts[g] + 1], parents[g].value, h);
      if g == h && AtOrAbove(parents, parents[g].value, h) {
        AboveIsSmaller(parents, parents[g].value, h);
      }
    }
  }

  // --- Every step keeps the invariant ----------------------------------------------------------

  lemma UnlockGateOk(s: State, i: nat)
    requires Inv(s) && Placed(s, i) && s.closures[i].Held?
    ensures Inv(UnlockGate(s, i))
    decreases s.closures[i].gate, 1
  {
    var g := s.closures[i].gate;
    LocksOnMember(s.parents, s.closures, i, g);
    var r := SetClosure(s, i, Draining(g)).(lockCounts := s.lockCounts[g := s.lockCounts[g] - 1]);
    forall h | 0 <= h < |s.parents| ensures r.lockCounts[h] == LocksOn(r.parents, r.closures, h) {
      LocksOnUpdate(s.parents, s.closures, i, Draining(g), h);
    }
    DrainingKept(s, i, g, Draining(g));
    assert BeingDrained(r, g) by {
      assert r.closures[i] == Draining(g);
    }
    DrainGateOk(r, i);
  }

  lemma DrainingKept(s: State, i: nat, g: nat, c: Closure)
    requires i < |s.closures| && !s.closures[i].Done? && s.closures[i].gate == g
    ensures forall h | h != g && BeingDrained(s, h) :: BeingDrained(SetClosure(s, i, c), h)
  {
    forall h | h != g && BeingDrained(s, h) ensures BeingDrained(SetClosure(s, i, c), h) {
      var j :| 0 <= j < |s.closures| && s.closures[j] == Draining(h);
      assert SetClosure(s, i, c).closures[j] == Draining(h);
    }
  }

  lemma DrainGateOk(s: State, i: nat)
    requires Inv(s) && Placed(s, i) && s.closures[i].Draining?
    ensures Inv(DrainGate(s, i))
    decreases s.closures[i].gate, 0
  {
    var g := s.closures[i].gate;
    if s.lockCounts[g] == 0 && s.resolveQueues[g] != [] {
      LetThroughOk(s, g);
    } else {
      var next := if s.parents[g].Some? then Held(s.parents[g].value) else Done;
      ClimbOk(s, i, next);
      if s.parents[g].Some? {
        UnlockGateOk(SetClosure(s, i, next), i);
      }
    }
  }

  lemma LetThroughOk(s: State, g: nat)
    requires Inv(s) && g < |s.parents| && s.resolveQueues[g] != [] && BeingDrained(s, g)
    ensures Inv(LetThrough(s, g))
  {
    var r := LetThrough(s, g);
    assert r.resolved[g] + r.resolveQueues[g] == s.resolved[g] + s.resolveQueues[g];
    forall h | BeingDrained(s, h) ensures BeingDrained(r, h) {
      var j :| 0 <= j < |s.closures| && s.closures[j] == Draining(h);
      assert r.closures[j] == Draining(h);
    }
  }

  // Moving on to the gate above leaves all counts as they are.
  lemma ClimbOk(s: State, i: nat, next: Closure)
    requires Inv(s) && Placed(s, i) && s.closures[i].Draining?
    requires var g := s.closures[i].gate;
             && (s.lockCounts[g] == 0 ==> s.resolveQueues[g] == [])
             && next == if s.parents[g].Some? then Held(s.parents[g].value) else Done
    ensures Inv(SetClosure(s, i, next))
  {
    var g := s.closures[i].gate;
    forall h | 0 <= h < |s.parents| ensures s.lockCounts[h] == LocksOn(s.parents, SetClosure(s, i, next).closures, h) {
      LocksOnUpdate(s.parents, s.closures, i, next, h);
      if next.Held? && AtOrAbove(s.parents, next.gate, h) {
        AboveIsSmaller(s.parents, next.gate, h);
      }
    }
    DrainingKept(s, i, g, next);
  }

  lemma AddGateOk(s: State, parent: Option<nat>)
    requires Inv(s) && (parent.Some? ==> parent.value < |s.parents|)
    ensures Inv(AddGate(s, parent))
  {
    var r := AddGate(s, parent);
    assert s.parents <= r.parents;
    forall h | 0 <= h < |r.parents| ensures r.lockCounts[h] == LocksOn(r.parents, r.closures, h) {
      LocksOnInLarger(s.parents, r.parents, s.closures, h);
      if h == |s.parents| {
        NothingBelowNew(s, h);
      }
    }
    assert forall h | BeingDrained(s, h) :: BeingDrained(r, h);
  }

  lemma NothingBelowNew(s: State, h: nat)
    requires ClosuresOk(s) && h == |s.parents|
    ensures LocksOn(s.parents, s.closures, h) == 0
  {
    forall i | 0 <= i < |s.closures| ensures !Locks(s.parents, s.closures[i], h) {
      if Locks(s.parents, s.closures[i], h) {
        AboveIsSmaller(s.parents, s.closures[i].gate, h);
      }
    }
    LocksOnNone(s.parents, s.closures, h);
  }

  lemma LockOk(s: State, g: nat)
    requires Inv(s) && g < |s.parents|
    ensures Inv(s.(lockCounts := LockUp(s.parents, s.lockCounts, g), closures := s.closures + [Held(g)]))
  {
    var r := s.(lockCounts := LockUp(s.parents, s.lockCounts, g), closures := s.closures + [Held(g)]);
    assert r.closures[..|s.closures|] == s.closures;
    forall h | 0 <= h < |s.parents| ensures r.lockCounts[h] == LocksOn(r.parents, r.closures, h) && r.lockCounts[h] >= s.lockCounts[h] {
      LockUpExact(s.parents, s.lockCounts, g, h);
    }
    forall h | BeingDrained(s, h) ensures BeingDrained(r, h) {
      var j :| 0 <= j < |s.closures| && s.closures[j] == Draining(h);
      assert r.closures[j] == Draining(h);
    }
  }

  lemma WaitOk(s: State, g: nat, w: nat)
    requires Inv(s) && g < |s.parents|
    ensures Inv(Do(s, WaitForOpen(g, w)))
  {
    var r := Do(s, WaitForOpen(g, w));
    assert forall h | BeingDrained(s, h) :: BeingDrained(r, h);
    assert s.resolved[g] + (s.resolveQueues[g] + [w]) == s.resolved[g] + s.resolveQueues[g] + [w];
  }

  lemma StepInv(s: State, step: Step)
    requires Inv(s) && Enabled(s, step)
    ensures Inv(Do(s, step))
  {
    match step
    case NewGate => AddGateOk(s, None);
    case WaitForOpen(g, w) => WaitOk(s, g, w);
    case RunWithClosed(g) =>
      LockOk(s, g);
      AddGateOk(s.(lockCounts := LockUp(s.parents, s.lockCounts, g), closures := s.closures + [Held(g)]), Some(g));
    case Unlock(i) => UnlockGateOk(s, i);
    case Continue(i) => DrainGateOk(s, i);
  }

  lemma {:induction false} RunInv(s: State, steps: seq<Step>)
    requires Inv(s) && IsRun(s, steps)
    ensures Inv(After(s, steps))
    decreases |steps|
  {
    if steps != [] {
      StepInv(s, steps[0]);
      RunInv(Do(s, steps[0]), steps[1..]);
    }
  }

  // --- What every run keeps --------------------------------------------------------------------

  // A gate found unlocked by an unlock would be an assertion failure; there is none.
  lemma AssertNeverFails(steps: seq<Step>)
    requires IsRun(EMPTY, steps)
    ensures !After(EMPTY, steps).failed
  {
    RunInv(EMPTY, steps);
  }

  // The waiters that had to queue at a gate are let through in the order they came.
  lemma ServedInOrder(steps: seq<Step>, h: nat)
    requires IsRun(EMPTY, steps) && h < |After(EMPTY, steps).parents|
    ensures var s := After(EMPTY, steps); s.queued[h] == s.resolved[h] + s.resolveQueues[h]
  {
    RunInv(EMPTY, steps);
  }

  // Waiters left in a queue have a lock to wait for, or are being let through.
  lemma NobodyForgotten(steps: seq<Step>, h: nat)
    requires IsRun(EMPTY, steps) && h < |After(EMPTY, steps).parents| && After(EMPTY, steps).resolveQueues[h] != []
    ensures After(EMPTY, steps).lockCounts[h] > 0 || BeingDrained(After(EMPTY, steps), h)
  {
    RunInv(EMPTY, steps);
  }

  // Once all closures are over every gate is open and nobody waits.
  lemma QuietMeansOpen(steps: seq<Step>, h: nat)
    requires IsRun(EMPTY, steps) && h < |After(EMPTY, steps).parents|
    requires forall i | 0 <= i < |After(EMPTY, steps).closures| :: After(EMPTY, steps).closures[i].Done?
    ensures var s := After(EMPTY, steps); s.lockCounts[h] == 0 && s.resolveQueues[h] == [] && s.resolved[h] == s.queued[h]
  {
    RunInv(EMPTY, steps);
    var s := After(EMPTY, steps);
    LocksOnNone(s.parents, s.closures, h);
  }

  // A waiter is let through only by an open gate: no closure then has it closed from there
  // or from below, and the waiters of no gate below are still being let through.
  lemma LetThroughOnlyWhenOpen(s: State, step: Step, h: nat, i: nat)
    requires Inv(s) && Enabled(s, step) && h < |s.parents| && Do(s, step).resolved[h] != s.resolved[h]
    requires i < |Do(s, step).closures|
    ensures var r := Do(s, step);
            && s.resolveQueues[h] != [] && r.resolved[h] == s.resolved[h] + [s.resolveQueues[h][0]]
            && r.lockCounts[h] == 0 && !Locks(r.parents, r.closures[i], h)
  {
    StepInv(s, step);
    match step {
      case Unlock(j) => UnlockLetsOneThrough(s, j, h);
      case Continue(j) => DrainLetsOneThrough(s, j, h);
    }
    var r := Do(s, step);
    assert r.lockCounts[h] == LocksOn(r.parents, r.closures, h);
    if Locks(r.parents, r.closures[i], h) {
      LocksOnMember(r.parents, r.closures, i, h);
    }
  }

  lemma UnlockLetsOneThrough(s: State, i: nat, h: nat)
    requires Shaped(s) && Placed(s, i) && s.closures[i].Held? && h < |s.parents|
    ensures var r := UnlockGate(s, i);
            r.resolved[h] == s.resolved[h] ||
            (s.resolveQueues[h] != [] && r.resolved[h] == s.resolved[h] + [s.resolveQueues[h][0]] && r.lockCounts[h] == 0)
    decreases s.closures[i].gate, 1
  {
    var g := s.closures[i].gate;
    if s.lockCounts[g] != 0 {
      DrainLetsOneThrough(SetClosure(s, i, Draining(g)).(lockCounts := s.lockCounts[g := s.lockCounts[g] - 1]), i, h);
    }
  }

  lemma DrainLetsOneThrough(s: State, i: nat, h: nat)
    requires Shaped(s) && Placed(s, i) && s.closures[i].Draining? && h < |s.parents|
    ensures var r := DrainGate(s, i);
            r.resolved[h] == s.resolved[h] ||
            (s.resolveQueues[h] != [] && r.resolved[h] == s.resolved[h] + [s.resolveQueues[h][0]] && r.lockCounts[h] == 0)
    decreases s.closures[i].gate, 0
  {
    var g := s.closures[i].gate;
    if !(s.lockCounts[g] == 0 && s.resolveQueues[g] != []) && s.parents[g].Some? {
      UnlockLetsOneThrough(SetClosure(s, i, Held(s.parents[g].value)), i, h);
    }
  }

  // As long as waiters of a gate are being let through, every gate above it stays locked.
  lemma AboveStaysLocked(steps: seq<Step>, i: nat, h: nat)
    requires IsRun(EMPTY, steps) && i < |After(EMPTY, steps).closures|
    requires After(EMPTY, steps).closures[i].Draining? && h != After(EMPTY, steps).closures[i].gate
    requires var s := After(EMPTY, steps); s.closures[i].gate < |s.parents| ==> AtOrAbove(s.parents, s.closures[i].gate, h)
    ensures h < |After(EMPTY, steps).parents| && After(EMPTY, steps).lockCounts[h] > 0
  {
    RunInv(EMPTY, steps);
    var s := After(EMPTY, steps);
    AboveIsSmaller(s.parents, s.closures[i].gate, h);
    LocksOnMember(s.parents, s.closures, i, h);
  }

  // --- The count of a gate from those of the gates below ---------------------------------------

  function Matching(closures: seq<Closure>, c: Closure): nat {
    if closures == [] then 0
    else Matching(closures[..|closures| - 1], c) + if closures[|closures| - 1] == c then 1 else 0
  }

  // Over the first n gates, those right below h: their locks and the drains going on there.
  function BelowSum(parents: Parents, closures: seq<Closure>, h: nat, n: nat): nat
    requires n <= |parents|
  {
    if n == 0 then 0
    else
      var last := if parents[n - 1] == Some(h) then LocksOn(parents, closures, n - 1) + Matching(closures, Draining(n - 1)) else 0;
      BelowSum(parents, closures, h, n - 1) + last
  }

  // The same from the counts the gates themselves hold.
  function CountsBelow(s: State, h: nat, n: nat): nat
    requires Shaped(s) && n <= |s.parents|
  {
    if n == 0 then 0
    else
      var last := if s.parents[n - 1] == Some(h) then s.lockCounts[n - 1] + Matching(s.closures, Draining(n - 1)) else 0;
      CountsBelow(s, h, n - 1) + last
  }

  // A gate's count is that of its own closures plus, for each gate right below, that gate's
  // count and the number of unlocks letting its waiters through.
  lemma CountFromBelow(steps: seq<Step>, h: nat)
    requires IsRun(EMPTY, steps) && h < |After(EMPTY, steps).parents|
    ensures var s := After(EMPTY, steps);
            s.lockCounts[h] == Matching(s.closures, Held(h)) + CountsBelow(s, h, |s.parents|)
  {
    RunInv(EMPTY, steps);
    var s := After(EMPTY, steps);
    SumFromBelow(s.parents, s.closures, h);
    CountsAreSums(s, h, |s.parents|);
  }

  lemma {:induction false} CountsAreSums(s: State, h: nat, n: nat)
    requires Shaped(s) && CountsExact(s) && n <= |s.parents|
    ensures CountsBelow(s, h, n) == BelowSum(s.parents, s.closures, h, n)
  {
    if n > 0 {
      CountsAreSums(s, h, n - 1);
    }
  }

  lemma {:induction false} SumFromBelow(parents: Parents, closures: seq<Closure>, h: nat)
    requires h < |parents| && forall i | 0 <= i < |closures| :: !closures[i].Done? ==> closures[i].gate < |parents|
    ensures LocksOn(parents, closures, h) == Matching(closures, Held(h)) + BelowSum(parents, closures, h, |parents|)
    decreases |closures|
  {
    if closures == [] {
      NoneBelow(parents, h, |parents|);
    } else {
      var rest := closures[..|closures| - 1];
      SumFromBelow(parents, rest, h);
      OneMoreBelow(parents, rest, closures[|closures| - 1], h, |parents|);
      assert rest + [closures[|closures| - 1]] == closures;
    }
  }

  lemma {:induction false} NoneBelow(parents: Parents, h: nat, n: nat)
    requires n <= |parents|
    ensures BelowSum(parents, [], h, n) == 0
  {
    if n > 0 {
      NoneBelow(parents, h, n - 1);
    }
  }

  // The gate right below h on the way from g up to h.
  function Via(parents: Parents, g: nat, h: nat): (x: nat)
    requires g < |parents| && g != h && AtOrAbove(parents, g, h)
    ensures x < |parents| && parents[x] == Some(h) && AtOrAbove(parents, g, x)
    decreases g
  {
    if parents[g] == Some(h) then g else Via(parents, parents[g].value, h)
  }

  lemma ViaUnique(parents: Parents, g: nat, h: nat, x: nat)
    requires g < |parents| && g != h && AtOrAbove(parents, g, h)
    requires x < |parents| && parents[x] == Some(h) && AtOrAbove(parents, g, x)
    ensures x == Via(parents, g, h)
    decreases g
  {
    AboveIsSmaller(parents, g, x);
    if parents[g] == Some(h) {
      if x != g {
        AboveIsSmaller(parents, h, x);
      }
    } else {
      ViaUnique(parents, parents[g].value, h, x);
    }
  }

  lemma BelowIsAbove(parents: Parents, g: nat, x: nat, h: nat)
    requires g < |parents| && x < |parents| && AtOrAbove(parents, g, x) && parents[x] == Some(h)
    ensures AtOrAbove(parents, g, h) && g != h
    decreases g
  {
    AboveIsSmaller(parents, g, x);
    if g != x {
      BelowIsAbove(parents, parents[g].value, x, h);
    }
  }

  // Whether a closure counts for x, or is letting the waiters of x through.
  predicate Through(parents: Parents, c: Closure, x: nat) {
    !c.Done? && c.gate < |parents| && AtOrAbove(parents, c.gate, x)
  }

  lemma {:induction false} OneMoreBelow(parents: Parents, closures: seq<Closure>, c: Closure, h: nat, n: nat)
    requires h < |parents| && n <= |parents| && (!c.Done? ==> c.gate < |parents|)
    ensures BelowSum(parents, closures + [c], h, n) == BelowSum(parents, closures, h, n)
          + if Through(parents, c, h) && c.gate != h && Via(parents, c.gate, h) < n then 1 else 0
  {
    if n > 0 {
      OneMoreBelow(parents, closures, c, h, n - 1);
      assert (closures + [c])[..|closures|] == closures;
      if parents[n - 1] == Some(h) && Through(parents, c, n - 1) {
        BelowIsAbove(parents, c.gate, n - 1, h);
        ViaUnique(parents, c.gate, h, n - 1);
      }
    }
  }

  // --- Everybody is let through in the end ------------------------------------------------------

  function Waiting(queues: seq<seq<nat>>): nat {
    if queues == [] then 0 else Waiting(queues[..|queues| - 1]) + |queues[|queues| - 1]|
  }

  function Height(c: Closure): nat {
    match c
    case Held(g) => 2 * g + 2
    case Draining(g) => 2 * g + 1
    case Done => 0
  }

  function Heights(closures: seq<Closure>): nat {
    if closures == [] then 0 else Heights(closures[..|closures| - 1]) + Height(closures[|closures| - 1])
  }

  function Rank(s: State): nat {
    Waiting(s.resolveQueues) + Heights(s.closures)
  }

  lemma {:induction false} HeightsUpdate(closures: seq<Closure>, i: nat, c: Closure)
    requires i < |closures|
    ensures Heights(closures[i := c]) == Heights(closures) - Height(closures[i]) + Height(c)
    decreases |closures|
  {
    var last := |closures| - 1;
    if i < last {
      HeightsUpdate(closures[..last], i, c);
      assert closures[i := c][..last] == closures[..last][i := c];
    } else {
      assert closures[i := c][..last] == closures[..last];
    }
  }

  lemma {:induction false} WaitingUpdate(queues: seq<seq<nat>>, g: nat, q: seq<nat>)
    requires g < |queues|
    ensures Waiting(queues[g := q]) == Waiting(queues) - |queues[g]| + |q|
    decreases |queues|
  {
    var last := |queues| - 1;
    if g < last {
      WaitingUpdate(queues[..last], g, q);
      assert queues[g := q][..last] == queues[..last][g := q];
    } else {
      assert queues[g := q][..last] == queues[..last];
    }
  }

  lemma UnlockDescends(s: State, i: nat)
    requires Shaped(s) && Placed(s, i) && s.closures[i].Held?
    ensures Rank(UnlockGate(s, i)) < Rank(s) && UnlockGate(s, i).queued == s.queued
    decreases s.closures[i].gate, 1
  {
    var g := s.closures[i].gate;
    HeightsUpdate(s.closures, i, Draining(g));
    HeightsUpdate(s.closures, i, Done);
    if s.lockCounts[g] != 0 {
      DrainDescends(SetClosure(s, i, Draining(g)).(lockCounts := s.lockCounts[g := s.lockCounts[g] - 1]), i);
    }
  }

  lemma DrainDescends(s: State, i: nat)
    requires Shaped(s) && Placed(s, i) && s.closures[i].Draining?
    ensures Rank(DrainGate(s, i)) < Rank(s) && DrainGate(s, i).queued == s.queued
    decreases s.closures[i].gate, 0
  {
    var g := s.closures[i].gate;
    if s.lockCounts[g] == 0 && s.resolveQueues[g] != [] {
      WaitingUpdate(s.resolveQueues, g, s.resolveQueues[g][1..]);
    } else {
      HeightsUpdate(s.closures, i, Done);
      if s.parents[g].Some? {
        HeightsUpdate(s.closures, i, Held(s.parents[g].value));
        UnlockDescends(SetClosure(s, i, Held(s.parents[g].value)), i);
      }
    }
  }

  predicate Opens(step: Step) {
    step.Unlock? || step.Continue?
  }

  // If no more gates are closed and nobody else comes to wait, the unlocks come to an end
  // within Rank(s) steps, and by then every waiter has been let through.
  lemma {:induction false} AllServedInTheEnd(s: State, steps: seq<Step>)
    requires Inv(s) && IsRun(s, steps) && forall i | 0 <= i < |steps| :: Opens(steps[i])
    ensures |steps| <= Rank(s)
    ensures (forall step | Opens(step) :: !Enabled(After(s, steps), step)) ==> After(s, steps).resolved == s.queued
    decreases |steps|
  {
    if steps == [] {
      if forall step | Opens(step) :: !Enabled(s, step) {
        forall i | 0 <= i < |s.closures| ensures s.closures[i].Done? {
          assert !Enabled(s, Unlock(i)) && !Enabled(s, Continue(i));
        }
        forall h | 0 <= h < |s.parents| ensures s.resolved[h] == s.queued[h] {
          LocksOnNone(s.parents, s.closures, h);
        }
      }
    } else {
      StepInv(s, steps[0]);
      if steps[0].Unlock? {
        UnlockDescends(s, steps[0].closure);
      } else {
        DrainDescends(s, steps[0].closure);
      }
      AllServedInTheEnd(Do(s, steps[0]), steps[1..]);
    }
  }

  // --- The gates as objects ----------------------------------------------------------------------

  // A gate and those above it, nearest first.
  datatype GateState = GateState(lockCount: nat, resolveQueue: seq<nat>)

  // Where the synchronous part of an unlock ends: pausing after it let a waiter of the n-th
  // gate of the path through, having unlocked the whole path, or failing the assertion.
  datatype Outcome = Paused(n: nat, waiter: nat) | Unlocked | AssertionFailed

  function Further(o: Outcome): Outcome {
    if o.Paused? then Paused(o.n + 1, o.waiter) else o
  }

  function LockPath(path: seq<GateState>): seq<GateState> {
    if path == [] then [] else [path[0].(lockCount := path[0].lockCount + 1)] + LockPath(path[1..])
  }

  function UnlockPath(path: seq<GateState>): (seq<GateState>, Outcome)
    decreases |path|, 1
  {
    if path == [] then (path, Unlocked)
    else if path[0].lockCount == 0 then (path, AssertionFailed)
    else DrainPath([path[0].(lockCount := path[0].lockCount - 1)] + path[1..])
  }

  function DrainPath(path: seq<GateState>): (seq<GateState>, Outcome)
    requires path != []
    decreases |path|, 0
  {
    var gate := path[0];
    if gate.lockCount == 0 && gate.resolveQueue != [] then
      ([gate.(resolveQueue := gate.resolveQueue[1..])] + path[1..], Paused(0, gate.resolveQueue[0]))
    else
      var (above, o) := UnlockPath(path[1..]);
      ([gate] + above, Further(o))
  }

  class InputGate {
    var lockCount: nat
    var resolveQueue: seq<nat>
    const parent: InputGate?
    ghost const above: set<InputGate>
    ghost const depth: nat

    ghost predicate Valid()
      decreases depth
    {
      if parent == null then depth == 0
      else depth == parent.depth + 1 && above == {parent} + parent.above && this !in above && parent.Valid()
    }

    ghost function Path(): (path: seq<GateState>)
      requires Valid()
      reads this, above
      ensures path != []
      decreases depth
    {
      [GateState(lockCount, resolveQueue)] + if parent == null then [] else parent.Path()
    }

    constructor (parent: InputGate?)
      requires parent != null ==> parent.Valid()
      ensures Valid() && this.parent == parent && Path()[0] == GateState(0, [])
    {
      this.parent := parent;
      above := if parent == null then {} else {parent} + parent.above;
      depth := if parent == null then 0 else parent.depth + 1;
      lockCount, resolveQueue := 0, [];
    }

    method Enqueue(waiter: nat) returns (open: bool)
      modifies this
      ensures open <==> old(lockCount) == 0
      ensures lockCount == old(lockCount) && resolveQueue == old(resolveQueue) + if open then [] else [waiter]
    {
      if lockCount == 0 {
        return true;
      }
      resolveQueue := resolveQueue + [waiter];
      open := false;
    }

    method Lock()
      requires Valid()
      modifies this, above
      ensures Path() == LockPath(old(Path()))
      decreases depth
    {
      ghost var was := Path();
      lockCount := lockCount + 1;
      if parent != null {
        assert was[1..] == parent.Path();
        parent.Lock();
        assert Path()[1..] == LockPath(was[1..]);
      }
    }

    method Unlock() returns (o: Outcome)
      requires Valid()
      modifies this, above
      ensures (Path(), o) == UnlockPath(old(Path()))
      decreases depth, 1
    {
      if lockCount == 0 {
        return AssertionFailed;
      }
      lockCount := lockCount - 1;
      o := Drain();
    }

    // From the loop's test on: also how an unlock goes on after its pause.
    method Drain() returns (o: Outcome)
      requires Valid()
      modifies this, above
      ensures (Path(), o) == DrainPath(old(Path()))
      decreases depth, 0
    {
      if lockCount == 0 && |resolveQueue| > 0 {
        o := Paused(0, resolveQueue[0]);
        resolveQueue := resolveQueue[1..];
        return;
      }
      if parent == null {
        return Unlocked;
      }
      o := parent.Unlock();
      o := Further(o);
    }
  }

  // --- The objects and the tree are the same gates -----------------------------------------------

  // The gates from g up in a state, nearest first.
  function PathOf(s: State, g: nat): seq<GateState>
    requires Shaped(s) && g < |s.parents|
    decreases g
  {
    [GateState(s.lockCounts[g], s.resolveQueues[g])] + if s.parents[g].Some? then PathOf(s, s.parents[g].value) else []
  }

  function PathAbove(s: State, g: nat): seq<GateState>
    requires Shaped(s) && g < |s.parents|
  {
    if s.parents[g].Some? then PathOf(s, s.parents[g].value) else []
  }

  lemma PathUnfolds(s: State, g: nat)
    requires Shaped(s) && g < |s.parents|
    ensures PathOf(s, g) != [] && PathOf(s, g)[0] == GateState(s.lockCounts[g], s.resolveQueues[g])
    ensures PathOf(s, g)[1..] == PathAbove(s, g) && PathOf(s, g) == [PathOf(s, g)[0]] + PathAbove(s, g)
  {
  }

  lemma SamePath(s: State, t: State, g: nat)
    requires Shaped(s) && Shaped(t) && s.parents == t.parents && g < |s.parents|
    requires forall h | 0 <= h <= g :: s.lockCounts[h] == t.lockCounts[h] && s.resolveQueues[h] == t.resolveQueues[h]
    ensures PathOf(s, g) == PathOf(t, g)
    decreases g
  {
    if s.parents[g].Some? {
      SamePath(s, t, s.parents[g].value);
    }
  }

  lemma SameAbove(s: State, t: State, g: nat)
    requires Shaped(s) && Shaped(t) && s.parents == t.parents && g < |s.parents|
    requires forall h | 0 <= h < g :: s.lockCounts[h] == t.lockCounts[h] && s.resolveQueues[h] == t.resolveQueues[h]
    ensures PathAbove(s, g) == PathAbove(t, g)
  {
    if s.parents[g].Some? {
      SamePath(s, t, s.parents[g].value);
    }
  }

  // Changing one gate changes the head of the path from it.
  lemma HeadChanges(s: State, t: State, g: nat, head: GateState)
    requires Shaped(s) && Shaped(t) && s.parents == t.parents && g < |s.parents|
    requires forall h | 0 <= h < g :: s.lockCounts[h] == t.lockCounts[h] && s.resolveQueues[h] == t.resolveQueues[h]
    requires head == GateState(t.lockCounts[g], t.resolveQueues[g])
    ensures PathOf(t, g) == [head] + PathOf(s, g)[1..]
  {
    SameAbove(s, t, g);
    PathUnfolds(s, g);
    PathUnfolds(t, g);
  }

  lemma LockOnPath(s: State, g: nat)
    requires Shaped(s) && g < |s.parents|
    ensures PathOf(s.(lockCounts := LockUp(s.parents, s.lockCounts, g)), g) == LockPath(PathOf(s, g))
    decreases g
  {
    var t := s.(lockCounts := s.lockCounts[g := s.lockCounts[g] + 1]);
    var r := s.(lockCounts := LockUp(s.parents, s.lockCounts, g));
    LockUpExact(s.parents, s.lockCounts, g, g);
    PathUnfolds(s, g);
    PathUnfolds(r, g);
    if s.parents[g].Some? {
      LockOnPath(t, s.parents[g].value);
      SameAbove(s, t, g);
    }
    assert PathAbove(r, g) == LockPath(PathAbove(s, g));
  }

  // Where an unlock left closure i, seen from gate g.
  predicate Reached(s: State, i: nat, g: nat, o: Outcome)
    requires i < |s.closures| && g < |s.parents|
    decreases g
  {
    match o
    case Unlocked => s.closures[i] == Done
    case AssertionFailed => s.closures[i] == Done && s.failed
    case Paused(n, _) =>
      if n == 0 then s.closures[i] == Draining(g)
      else s.parents[g].Some? && Reached(s, i, s.parents[g].value, o.(n := n - 1))
  }

  // The gates from g up, and closure i, are as the unlock of a path leaves them.
  predicate OnPath(s: State, i: nat, g: nat, result: (seq<GateState>, Outcome))
    requires Shaped(s) && i < |s.closures| && g < |s.parents|
  {
    PathOf(s, g) == result.0 && Reached(s, i, g, result.1)
  }

  // An unlock of the tree does to the gates from g up what Unlock does to the objects, ends
  // where it ends, and does nothing to gates further down or made later.
  lemma UnlockOnPath(s: State, i: nat)
    requires Shaped(s) && Placed(s, i) && s.closures[i].Held?
    ensures var g, r := s.closures[i].gate, UnlockGate(s, i);
            && OnPath(r, i, g, UnlockPath(PathOf(s, g)))
            && (forall h | g < h < |s.parents| :: r.lockCounts[h] == s.lockCounts[h] && r.resolveQueues[h] == s.resolveQueues[h])
    decreases s.closures[i].gate, 1
  {
    var g := s.closures[i].gate;
    if s.lockCounts[g] == 0 {
      FailOnPath(s, i);
    } else {
      var t := SetClosure(s, i, Draining(g)).(lockCounts := s.lockCounts[g := s.lockCounts[g] - 1]);
      assert UnlockGate(s, i) == DrainGate(t, i);
      LessOnPath(s, i);
      DrainOnPath(t, i);
    }
  }

  lemma FailOnPath(s: State, i: nat)
    requires Shaped(s) && Placed(s, i) && s.closures[i].Held? && s.lockCounts[s.closures[i].gate] == 0
    ensures var g, r := s.closures[i].gate, UnlockGate(s, i);
            OnPath(r, i, g, UnlockPath(PathOf(s, g)))
  {
    PathUnfolds(s, s.closures[i].gate);
    SamePath(s, UnlockGate(s, i), s.closures[i].gate);
  }

  lemma LessOnPath(s: State, i: nat)
    requires Shaped(s) && Placed(s, i) && s.lockCounts[s.closures[i].gate] > 0
    ensures var g := s.closures[i].gate;
            UnlockPath(PathOf(s, g)) ==
              DrainPath(PathOf(SetClosure(s, i, Draining(g)).(lockCounts := s.lockCounts[g := s.lockCounts[g] - 1]), g))
  {
    var g := s.closures[i].gate;
    var t := SetClosure(s, i, Draining(g)).(lockCounts := s.lockCounts[g := s.lockCounts[g] - 1]);
    PathUnfolds(s, g);
    HeadChanges(s, t, g, PathOf(s, g)[0].(lockCount := s.lockCounts[g] - 1));
  }

  lemma DrainOnPath(s: State, i: nat)
    requires Shaped(s) && Placed(s, i) && s.closures[i].Draining?
    ensures var g, r := s.closures[i].gate, DrainGate(s, i);
            && OnPath(r, i, g, DrainPath(PathOf(s, g)))
            && (forall h | g < h < |s.parents| :: r.lockCounts[h] == s.lockCounts[h] && r.resolveQueues[h] == s.resolveQueues[h])
    decreases s.closures[i].gate, 0
  {
    var g := s.closures[i].gate;
    if s.lockCounts[g] == 0 && s.resolveQueues[g] != [] {
      PauseOnPath(s, i);
    } else if s.parents[g].Some? {
      UnlockOnPath(SetClosure(s, i, Held(s.parents[g].value)), i);
      ClimbOnPath(s, i);
    } else {
      RootOnPath(s, i);
    }
  }

  lemma PauseOnPath(s: State, i: nat)
    requires Shaped(s) && Placed(s, i) && s.closures[i].Draining?
    requires s.lockCounts[s.closures[i].gate] == 0 && s.resolveQueues[s.closures[i].gate] != []
    ensures var g, r := s.closures[i].gate, DrainGate(s, i);
            OnPath(r, i, g, DrainPath(PathOf(s, g)))
  {
    var g := s.closures[i].gate;
    PathUnfolds(s, g);
    HeadChanges(s, LetThrough(s, g), g, PathOf(s, g)[0].(resolveQueue := s.resolveQueues[g][1..]));
  }

  lemma ClimbOnPath(s: State, i: nat)
    requires Shaped(s) && Placed(s, i) && s.closures[i].Draining? && s.parents[s.closures[i].gate].Some?
    requires s.lockCounts[s.closures[i].gate] > 0 || s.resolveQueues[s.closures[i].gate] == []
    requires var up := s.parents[s.closures[i].gate].value;
             var t := SetClosure(s, i, Held(up));
             && OnPath(UnlockGate(t, i), i, up, UnlockPath(PathOf(t, up)))
             && forall h | up < h < |s.parents| ::
                  UnlockGate(t, i).lockCounts[h] == s.lockCounts[h] && UnlockGate(t, i).resolveQueues[h] == s.resolveQueues[h]
    ensures var g, r := s.closures[i].gate, DrainGate(s, i);
            OnPath(r, i, g, DrainPath(PathOf(s, g)))
  {
    var g := s.closures[i].gate;
    var up := s.parents[g].value;
    var t := SetClosure(s, i, Held(up));
    SamePath(s, t, up);
    PathUnfolds(s, g);
    PathUnfolds(UnlockGate(t, i), g);
    FurtherReached(UnlockGate(t, i), i, g, UnlockPath(PathOf(t, up)).1);
  }

  lemma FurtherReached(s: State, i: nat, g: nat, o: Outcome)
    requires i < |s.closures| && g < |s.parents| && s.parents[g].Some? && Reached(s, i, s.parents[g].value, o)
    ensures Reached(s, i, g, Further(o))
  {
  }

  lemma RootOnPath(s: State, i: nat)
    requires Shaped(s) && Placed(s, i) && s.closures[i].Draining? && s.parents[s.closures[i].gate].None?
    requires s.lockCounts[s.closures[i].gate] > 0 || s.resolveQueues[s.closures[i].gate] == []
    ensures var g, r := s.closures[i].gate, DrainGate(s, i);
            OnPath(r, i, g, DrainPath(PathOf(s, g)))
  {
    var g := s.closures[i].gate;
    SamePath(s, SetClosure(s, i, Done), g);
    PathUnfolds(s, g);
  }
}
