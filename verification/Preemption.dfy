/** What a preemption is for: once the victim's release has come back, and unless somebody else has acquired in
    the meantime, the one who asked gets a lease. */
module Preemption {
  import opened Retention
  import opened Wrappers
  import opened LeaseRules
  import opened WorkerRuns

  predicate Acquires(a: Action) { a.Acquire? || a.Retry? }

  /** Only an acquire makes a slot busy, and only the end of a recycling makes one free. */
  lemma SlotsOfAStep(w: Worker, a: Action)
    requires Conserved(w) && !Acquires(a) && !a.PoolDone?
    ensures Step(w, a).slots == w.slots && Step(w, a).recycled == w.recycled
    ensures !a.CallPool? ==> Step(w, a).recycling == w.recycling && w.closing <= Step(w, a).closing
  {
    ConservedParts(w);
    hide Conserved, GetStep, RenewStep, ParkCommit, AttachStep, SweepTouch, QuotaVictims;
    match a
    case Park(id) => if id in w.heap { ReleaseAllKeepsShape(w, QuotaVictims(w, id)); }
    case SweepScan => SweepTouchFacts(w, w.order);
    case Release(_) =>
    case CallPool(_) =>
    case _ => LeaseStepSameTable(w, a);
  }

  /** The slot of lease v is free from the moment its release has come back. */
  predicate FreedInTime(w: Worker, v: nat) {
    v in w.heap && w.heap[v].slot < |w.slots| && (v in w.recycled ==> w.slots[w.heap[v].slot].Free?)
  }

  lemma PoolFreesInTime(w: Worker, id: nat, ok: bool, v: nat)
    requires FreedInTime(w, v)
    ensures FreedInTime(Step(w, PoolDone(id, ok)), v)
  {
  }

  lemma StepFreesInTime(w: Worker, a: Action, v: nat)
    requires Conserved(w) && FreedInTime(w, v) && !Acquires(a)
    ensures FreedInTime(Step(w, a), v)
  {
    hide Conserved, Step;
    if a.PoolDone? {
      PoolFreesInTime(w, a.id, a.ok, v);
    } else {
      SlotsOfAStep(w, a);
      assert Distinct(w.order) && w.drawn !in w.heap by { NamesOf(w); }
      StepKeepsOrigin(w, a);
    }
  }

  lemma NamesOf(w: Worker)
    requires Conserved(w)
    ensures Distinct(w.order) && w.drawn !in w.heap
  {
  }

  lemma {:induction false} RunFreesInTime(w: Worker, actions: seq<Action>, v: nat)
    requires Conserved(w) && FreedInTime(w, v) && forall a | a in actions :: !Acquires(a)
    ensures FreedInTime(Run(w, actions), v)
    decreases |actions|
  {
    if actions == [] {
    } else {
      hide Conserved, Step, FreedInTime;
      assert actions[0] in actions && forall a | a in actions[1..] :: a in actions;
      StepFreesInTime(w, actions[0], v);
      StepConserved(w, actions[0]);
      RunFreesInTime(Step(w, actions[0]), actions[1..], v);
    }
  }

  /** A preempting acquire in any reachable state: whatever the worker does while it waits, if nobody acquires
      then by the time the victim's release has come back, the second try is granted, and the lease is on a
      slot that was free, for the user that asked. */
  lemma PreemptionPaysOff(c: Config, slots: nat, now: int, before: seq<Action>, username: string, ttl: Option<int>,
                          victim: nat, during: seq<Action>)
    requires AcquireStep(Run(Boot(c, slots, now), before), username, ttl).1 == Preempting(victim)
    requires forall a | a in during :: !Acquires(a)
    ensures var w := Run(AcquireStep(Run(Boot(c, slots, now), before), username, ttl).0, during);
            victim in w.recycled ==>
              var (w', got) := RetryStep(w, username, ttl);
              && got == Granted(w.drawn) && w.drawn in w'.heap && w'.heap[w.drawn].username == username
              && w'.heap[w.drawn].slot < |w.slots| && w.slots[w'.heap[w.drawn].slot].Free?
              && w'.slots == w.slots[w'.heap[w.drawn].slot := Busy(w.drawn)]
  {
    hide Run, RetryStep;
    var w0 := Run(Boot(c, slots, now), before);
    assert Conserved(w0) by { BootConserved(c, slots, now); RunConserved(Boot(c, slots, now), before); }
    VictimIsClosing(w0, username, ttl, victim);
    var w1 := AcquireStep(w0, username, ttl).0;
    RunFreesInTime(w1, during, victim);
    RetryTakesAFreeSlot(Run(w1, during), username, ttl);
  }

  lemma BootConserved(c: Config, slots: nat, now: int)
    ensures Conserved(Boot(c, slots, now))
  {
  }

  lemma VictimIsClosing(w: Worker, username: string, ttl: Option<int>, victim: nat)
    requires Conserved(w) && AcquireStep(w, username, ttl).1 == Preempting(victim)
    ensures var v := AcquireStep(w, username, ttl).0; Conserved(v) && FreedInTime(v, victim) && victim in v.closing
  {
    hide OldestParked, FirstFree, Without;
    OldestParkedIsOldest(w, w.order);
    assert Stages(w, victim) == (if victim in w.heap then 1 else 0);
    BeginReleaseConserved(w, victim);
  }

  // ---- the release comes back ----

  lemma {:induction false} RunAppends(w: Worker, a: seq<Action>, b: seq<Action>)
    ensures Run(w, a + b) == Run(Run(w, a), b)
    decreases |a|
  {
    if a == [] {
      assert [] + b == b;
    } else {
      assert (a + b)[1..] == a[1..] + b;
      RunAppends(Step(w, a[0]), a[1..], b);
    }
  }

  /** A release goes from closing to recycling to recycled, and only by its own pool call and the end of it. */
  lemma StepAdvances(w: Worker, a: Action, v: nat)
    requires Conserved(w) && !Acquires(a)
    ensures v in w.closing && a != CallPool(v) ==> v in Step(w, a).closing
    ensures v in w.recycling && a != PoolDone(v, true) && a != PoolDone(v, false) ==> v in Step(w, a).recycling
    ensures v in w.recycled ==> v in Step(w, a).recycled
  {
    if !a.PoolDone? && !a.CallPool? {
      hide Step, Conserved;
      SlotsOfAStep(w, a);
    }
  }

  lemma {:induction false} RunAdvances(w: Worker, actions: seq<Action>, v: nat)
    requires Conserved(w) && forall a | a in actions :: !Acquires(a)
    ensures v in w.closing && CallPool(v) !in actions ==> v in Run(w, actions).closing
    ensures v in w.recycling && PoolDone(v, true) !in actions && PoolDone(v, false) !in actions ==>
              v in Run(w, actions).recycling
    ensures v in w.recycled ==> v in Run(w, actions).recycled
    ensures Conserved(Run(w, actions))
    decreases |actions|
  {
    if actions == [] {
    } else {
      hide Conserved, Step;
      assert actions[0] in actions && forall a | a in actions[1..] :: a in actions;
      StepAdvances(w, actions[0], v);
      StepConserved(w, actions[0]);
      RunAdvances(Step(w, actions[0]), actions[1..], v);
    }
  }

  lemma OwnStepsAdvance(w: Worker, v: nat)
    requires Conserved(w)
    ensures v in w.closing ==> v in Step(w, CallPool(v)).recycling
    ensures v in w.recycling ==> v in Step(w, PoolDone(v, true)).recycled
  {
    assert Stages(w, v) == (if v in w.heap then 1 else 0);
  }

  /** The release of a lease comes back when its pool call has been made and has succeeded. */
  lemma ReleaseComesBack(w: Worker, v: nat, a: seq<Action>, b: seq<Action>)
    requires Conserved(w) && v in w.closing && CallPool(v) !in a && PoolDone(v, true) !in b && PoolDone(v, false) !in b
    requires forall x | x in a || x in b :: !Acquires(x)
    ensures v in Run(w, a + [CallPool(v)] + b + [PoolDone(v, true)]).recycled
  {
    hide Conserved, Step;
    var w1, w2 := Run(w, a), Run(w, a + [CallPool(v)]);
    RunAppends(w, a, [CallPool(v)]);
    RunAppends(w, a + [CallPool(v)], b);
    RunAppends(w, a + [CallPool(v)] + b, [PoolDone(v, true)]);
    assert w2 == Step(w1, CallPool(v)) by { RunOne(w1, CallPool(v)); }
    RunAdvances(w, a, v);
    OwnStepsAdvance(w1, v);
    StepConserved(w1, CallPool(v));
    RunAdvances(w2, b, v);
    OwnStepsAdvance(Run(w2, b), v);
    RunOne(Run(w2, b), PoolDone(v, true));
  }

  lemma RunOne(w: Worker, a: Action)
    ensures Run(w, [a]) == Step(w, a)
  {
    assert Run(Step(w, a), [a][1..]) == Step(w, a);
  }

  /** So with one pool call of the victim's release, which succeeds, the second try is granted. */
  lemma RetryIsGranted(c: Config, slots: nat, now: int, before: seq<Action>, username: string, ttl: Option<int>,
                       victim: nat, a: seq<Action>, b: seq<Action>, d: seq<Action>)
    requires AcquireStep(Run(Boot(c, slots, now), before), username, ttl).1 == Preempting(victim)
    requires forall x | x in a || x in b || x in d :: !Acquires(x)
    requires CallPool(victim) !in a && PoolDone(victim, true) !in b && PoolDone(victim, false) !in b
    ensures var during := a + [CallPool(victim)] + b + [PoolDone(victim, true)] + d;
            var w := Run(AcquireStep(Run(Boot(c, slots, now), before), username, ttl).0, during);
            RetryStep(w, username, ttl).1.Granted?
  {
    hide Run, RetryStep, Acquires, Conserved;
    var first := a + [CallPool(victim)] + b + [PoolDone(victim, true)];
    var w0 := Run(Boot(c, slots, now), before);
    assert Conserved(w0) by { BootConserved(c, slots, now); RunConserved(Boot(c, slots, now), before); }
    VictimIsClosing(w0, username, ttl, victim);
    var w1 := AcquireStep(w0, username, ttl).0;
    ReleaseComesBack(w1, victim, a, b);
    RunConserved(w1, first);
    assert forall x | x in first :: !Acquires(x) by { OwnStepsAcquireNothing(victim); }
    RunAdvances(Run(w1, first), d, victim);
    RunAppends(w1, first, d);
    PreemptionPaysOff(c, slots, now, before, username, ttl, victim, first + d);
  }

  lemma OwnStepsAcquireNothing(v: nat)
    ensures !Acquires(CallPool(v)) && !Acquires(PoolDone(v, true))
  {
  }
}
