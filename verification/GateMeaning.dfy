/** What closing a gate, waiting for it and opening it do, step by step, and what that means for
    the gates above in every run. */
module GateMeaning {
  import opened Common
  import opened InputGate

  // A new gate is open and nobody has ever waited for it; the others keep their queues.
  predicate GateAdded(s: State, r: State, parent: Option<nat>) {
    var n := |s.parents|;
    && Shaped(s) && Shaped(r)
    && |r.parents| == n + 1 && r.parents[..n] == s.parents && r.parents[n] == parent
    && r.lockCounts[n] == 0 && r.resolveQueues[n] == [] && r.queued[n] == [] && r.resolved[n] == []
    && r.resolveQueues[..n] == s.resolveQueues && r.queued[..n] == s.queued && r.resolved[..n] == s.resolved
    && r.failed == s.failed
  }

  lemma NewGateExact(s: State)
    requires Shaped(s) && Enabled(s, NewGate)
    ensures var r := Do(s, NewGate);
            GateAdded(s, r, None) && r.lockCounts[..|s.parents|] == s.lockCounts && r.closures == s.closures
  {
  }

  // One lock more on a gate, on the gate above one that has one more, and on no other.
  ghost predicate LockedUp(s: State, r: State, g: nat)
    requires Shaped(s) && Shaped(r) && |s.parents| <= |r.parents|
  {
    && g < |s.parents| && r.lockCounts[g] == s.lockCounts[g] + 1
    && (forall h | 0 <= h < |s.parents| :: r.lockCounts[h] == s.lockCounts[h] || LockedOnce(s, r, h))
    && (forall h | 0 <= h < |s.parents| && LockedOnce(s, r, h) && s.parents[h].Some? :: LockedOnce(s, r, s.parents[h].value))
    && (forall h | 0 <= h < |s.parents| && LockedOnce(s, r, h) && h != g ::
          exists x: nat :: x < |s.parents| && s.parents[x] == Some(h) && LockedOnce(s, r, x))
  }

  predicate LockedOnce(s: State, r: State, h: nat)
    requires Shaped(s) && Shaped(r) && h < |s.parents| <= |r.parents|
  {
    r.lockCounts[h] == s.lockCounts[h] + 1
  }

  // Running a closure with a gate closed locks it and every gate above it once more, and makes
  // a gate below it for the closure.
  lemma RunWithClosedExact(s: State, g: nat)
    requires Shaped(s) && Enabled(s, RunWithClosed(g))
    ensures var r := Do(s, RunWithClosed(g));
            && g < |s.parents| && GateAdded(s, r, Some(g)) && r.closures == s.closures + [Held(g)]
            && LockedUp(s, r, g)
  {
    var r := Do(s, RunWithClosed(g));
    forall h | 0 <= h < |s.parents| ensures r.lockCounts[h] == s.lockCounts[h] + if AtOrAbove(s.parents, g, h) then 1 else 0 {
      LockUpExact(s.parents, s.lockCounts, g, h);
    }
    forall h | 0 <= h < |s.parents| && LockedOnce(s, r, h) && s.parents[h].Some? ensures LockedOnce(s, r, s.parents[h].value) {
      AboveToo(s.parents, g, h, s.parents[h].value);
    }
    forall h | 0 <= h < |s.parents| && LockedOnce(s, r, h) && h != g
      ensures exists x: nat :: x < |s.parents| && s.parents[x] == Some(h) && LockedOnce(s, r, x)
    {
      assert LockedOnce(s, r, Via(s.parents, g, h));
    }
  }

  // Waiting for an open gate is over at once; for one that is locked the waiter queues up.
  lemma WaitExact(s: State, g: nat, w: nat)
    requires Shaped(s) && Enabled(s, WaitForOpen(g, w))
    ensures var r := Do(s, WaitForOpen(g, w));
            && g < |s.parents|
            && (s.lockCounts[g] == 0 ==> r == s)
            && (s.lockCounts[g] > 0 ==>
                  r == s.(resolveQueues := s.resolveQueues[g := s.resolveQueues[g] + [w]], queued := s.queued[g := s.queued[g] + [w]]))
  {
  }

  // Every gate can be waited for and closed, and every closure that is over can be unlocked.
  lemma StepsPossible(steps: seq<Step>, g: nat, w: nat, i: nat)
    requires IsRun(EMPTY, steps) && g < |After(EMPTY, steps).parents|
    ensures var s := After(EMPTY, steps);
            && Enabled(s, NewGate) && Enabled(s, WaitForOpen(g, w)) && Enabled(s, RunWithClosed(g))
            && (i < |s.closures| && s.closures[i].Held? ==> Enabled(s, Unlock(i)))
            && (i < |s.closures| && s.closures[i].Draining? ==> Enabled(s, Continue(i)))
  {
    RunInv(EMPTY, steps);
  }

  // --- Over runs ---------------------------------------------------------------------------------------

  lemma {:induction false} RunSplits(s: State, before: seq<Step>, more: seq<Step>)
    requires Shaped(s) && IsRun(s, before + more)
    ensures IsRun(s, before) && IsRun(After(s, before), more) && After(s, before + more) == After(After(s, before), more)
    decreases |before|
  {
    if before == [] {
      assert before + more == more;
    } else {
      assert (before + more)[1..] == before[1..] + more;
      RunSplits(Do(s, before[0]), before[1..], more);
    }
  }

  // Gates stay, and so do those above them; waiters once queued stay on record.
  ghost predicate Later(s: State, r: State) {
    && Shaped(s) && Shaped(r) && s.parents <= r.parents
    && forall g | 0 <= g < |s.parents| :: s.queued[g] <= r.queued[g]
  }

  lemma StepLater(s: State, step: Step)
    requires Shaped(s) && Enabled(s, step)
    ensures Later(s, Do(s, step))
  {
    if step.Unlock? {
      UnlockLater(s, step.closure);
    } else if step.Continue? {
      DrainLater(s, step.closure);
    }
  }

  lemma UnlockLater(s: State, i: nat)
    requires Shaped(s) && Placed(s, i) && s.closures[i].Held?
    ensures UnlockGate(s, i).parents == s.parents && UnlockGate(s, i).queued == s.queued
    decreases s.closures[i].gate, 1
  {
    var g := s.closures[i].gate;
    if s.lockCounts[g] != 0 {
      DrainLater(SetClosure(s, i, Draining(g)).(lockCounts := s.lockCounts[g := s.lockCounts[g] - 1]), i);
    }
  }

  lemma DrainLater(s: State, i: nat)
    requires Shaped(s) && Placed(s, i) && s.closures[i].Draining?
    ensures DrainGate(s, i).parents == s.parents && DrainGate(s, i).queued == s.queued
    decreases s.closures[i].gate, 0
  {
    var g := s.closures[i].gate;
    if !(s.lockCounts[g] == 0 && s.resolveQueues[g] != []) && s.parents[g].Some? {
      UnlockLater(SetClosure(s, i, Held(s.parents[g].value)), i);
    }
  }

  lemma {:induction false} RunLater(s: State, steps: seq<Step>)
    requires Shaped(s) && IsRun(s, steps)
    ensures Later(s, After(s, steps))
    decreases |steps|
  {
    if steps != [] {
      StepLater(s, steps[0]);
      RunLater(Do(s, steps[0]), steps[1..]);
    }
  }

  // A gate that is locked, or whose waiters are being let through, has the gate above it locked.
  lemma AboveLocked(steps: seq<Step>, g: nat, h: nat)
    requires IsRun(EMPTY, steps) && h < |After(EMPTY, steps).parents| && After(EMPTY, steps).parents[h] == Some(g)
    requires After(EMPTY, steps).lockCounts[h] > 0 || BeingDrained(After(EMPTY, steps), h)
    ensures After(EMPTY, steps).lockCounts[g] > 0
  {
    RunInv(EMPTY, steps);
    LockedAbove(After(EMPTY, steps), g, h);
  }

  lemma LockedAbove(s: State, g: nat, h: nat)
    requires Inv(s) && h < |s.parents| && s.parents[h] == Some(g) && (s.lockCounts[h] > 0 || BeingDrained(s, h))
    ensures s.lockCounts[g] > 0
  {
    if s.lockCounts[h] > 0 {
      var i := LockHolder(s.parents, s.closures, h);
      AboveToo(s.parents, s.closures[i].gate, h, g);
      LocksOnMember(s.parents, s.closures, i, g);
    } else {
      var i :| 0 <= i < |s.closures| && s.closures[i] == Draining(h);
      LocksOnMember(s.parents, s.closures, i, g);
    }
  }

  lemma {:induction false} LockHolder(parents: Parents, closures: seq<Closure>, h: nat) returns (i: nat)
    requires LocksOn(parents, closures, h) > 0
    ensures i < |closures| && Locks(parents, closures[i], h)
    decreases |closures|
  {
    if Locks(parents, closures[|closures| - 1], h) {
      i := |closures| - 1;
    } else {
      i := LockHolder(parents, closures[..|closures| - 1], h);
    }
  }

  lemma AboveToo(parents: Parents, c: nat, h: nat, g: nat)
    requires c < |parents| && AtOrAbove(parents, c, h) && h < |parents| && parents[h] == Some(g)
    ensures AtOrAbove(parents, c, g) && c != g
    decreases c
  {
    if c != h {
      AboveToo(parents, parents[c].value, h, g);
    }
    assert AtOrAbove(parents, h, g);
    AboveIsSmaller(parents, c, h);
  }

  // The gate made by running a closure with gate g closed stays below g, and as long as any
  // closure holds it, or lets its waiters through, gate g is locked.
  lemma ClosedWhileBelow(before: seq<Step>, g: nat, more: seq<Step>, i: nat)
    requires IsRun(EMPTY, before + ([RunWithClosed(g)] + more))
    requires IsRun(EMPTY, before) && i < |After(EMPTY, before + ([RunWithClosed(g)] + more)).closures|
    ensures var h, s := |After(EMPTY, before).parents|, After(EMPTY, before + ([RunWithClosed(g)] + more));
            && h < |s.parents| && s.parents[h] == Some(g) && g < h
            && (s.closures[i] == Held(h) || s.closures[i] == Draining(h) ==> s.lockCounts[g] > 0)
  {
    var steps := before + ([RunWithClosed(g)] + more);
    var b, s := After(EMPTY, before), After(EMPTY, steps);
    var h := |b.parents|;
    RunSplits(EMPTY, before, [RunWithClosed(g)] + more);
    RunSplits(b, [RunWithClosed(g)], more);
    var made := After(b, [RunWithClosed(g)]);
    assert made == Do(b, RunWithClosed(g));
    RunWithClosedExact(b, g);
    RunLater(made, more);
    assert s.parents[h] == made.parents[h];
    RunInv(EMPTY, steps);
    if s.closures[i] == Held(h) {
      LocksOnMember(s.parents, s.closures, i, h);
      LockedAbove(s, g, h);
    } else if s.closures[i] == Draining(h) {
      assert BeingDrained(s, h);
      LockedAbove(s, g, h);
    }
  }

  // Who waits for a gate that is locked is queued there, and has been let through once every
  // closure is over.
  lemma WaiterLetThrough(before: seq<Step>, g: nat, w: nat, more: seq<Step>)
    requires IsRun(EMPTY, before + ([WaitForOpen(g, w)] + more)) && IsRun(EMPTY, before)
    requires g < |After(EMPTY, before).parents| && After(EMPTY, before).lockCounts[g] > 0
    ensures var s := After(EMPTY, before + ([WaitForOpen(g, w)] + more));
            && g < |s.parents| && (w in s.resolveQueues[g] || w in s.resolved[g])
            && ((forall i | 0 <= i < |s.closures| :: s.closures[i].Done?) ==> w in s.resolved[g])
  {
    var steps := before + ([WaitForOpen(g, w)] + more);
    var b, s := After(EMPTY, before), After(EMPTY, steps);
    RunSplits(EMPTY, before, [WaitForOpen(g, w)] + more);
    RunSplits(b, [WaitForOpen(g, w)], more);
    var asked := After(b, [WaitForOpen(g, w)]);
    assert asked == Do(b, WaitForOpen(g, w));
    WaitExact(b, g, w);
    RunLater(asked, more);
    assert w in asked.queued[g];
    assert w in s.queued[g];
    ServedInOrder(steps, g);
    if forall i | 0 <= i < |s.closures| :: s.closures[i].Done? {
      QuietMeansOpen(steps, g);
    }
  }
}
