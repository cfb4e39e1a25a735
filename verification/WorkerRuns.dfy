/** The worker under every interleaving: any number of handlers, sweeps and releases whose code between
    two awaits runs in any order. Slots are conserved, leases keep their time bounds, and the park quota
    holds in every reachable state. */
module WorkerRuns {
  import opened Retention
  import opened Wrappers
  import opened LeaseRules

  datatype Action =
    | Tick(elapsed: nat)
    | Acquire(username: string, ttl: Option<int>)
    | Retry(username: string, ttl: Option<int>)
    | Get(id: nat)
    | Renew(id: nat, extend: Option<int>)
    | Park(id: nat)                       // a park that is not interrupted
    | LatePark(id: nat, at: int)          // the tail of a park that had to wait for its victims
    | Attach(id: nat)
    | StartExec(id: nat)
    | EndExec(id: nat)
    | SweepScan                           // the scan; the releases it asks for are BeginRelease actions
    | Release(id: nat)              // client, sweep, quota, preemption, operator or shutdown
    | CallPool(id: nat)                   // a pending release reaches slotPool.release
    | PoolDone(id: nat, ok: bool)         // the recycling of the slot has finished or failed

  function Step(w: Worker, a: Action): Worker {
    match a
    case Tick(d) => w.(clock := w.clock + d)
    case Acquire(u, ttl) => AcquireStep(w, u, ttl).0
    case Retry(u, ttl) => RetryStep(w, u, ttl).0
    case Get(id) => GetStep(w, id)
    case Renew(id, ms) => RenewStep(w, id, ms)
    case Park(id) => if id in w.heap then ParkStep(w, id) else w
    case LatePark(id, at) => ParkCommit(w, id, at)
    case Attach(id) => AttachStep(w, id)
    case StartExec(id) =>
      if id in w.heap then w.(heap := w.heap[id := w.heap[id].(running := w.heap[id].running + 1)]) else w
    case EndExec(id) =>
      if id in w.heap && w.heap[id].running > 0
      then w.(heap := w.heap[id := w.heap[id].(running := w.heap[id].running - 1)]) else w
    case SweepScan => SweepTouch(w, w.order)
    case Release(id) => BeginRelease(w, id)
    case CallPool(id) =>
      if id in w.closing
      then w.(closing := w.closing - multiset{id}, recycling := w.recycling + multiset{id},
              poolCalls := w.poolCalls + multiset{id}) else w
    case PoolDone(id, ok) =>
      if id !in w.recycling || id !in w.heap || w.heap[id].slot >= |w.slots| then w
      else if ok
      then w.(recycling := w.recycling - multiset{id}, recycled := w.recycled + multiset{id},
              slots := w.slots[w.heap[id].slot := Free])
      else w.(recycling := w.recycling - multiset{id}, failed := w.failed + multiset{id})
  }

  function Boot(c: Config, slots: nat, now: int): Worker {
    Worker(c, now, seq(slots, _ => Free), [], map[], 0,
           multiset{}, multiset{}, multiset{}, multiset{}, multiset{})
  }

  function Run(w: Worker, actions: seq<Action>): Worker
    decreases |actions|
  {
    if actions == [] then w else Run(Step(w, actions[0]), actions[1..])
  }

  /** How much time passes in a run. */
  function Elapsed(actions: seq<Action>): nat {
    if actions == [] then 0 else (if actions[0].Tick? then actions[0].elapsed else 0) + Elapsed(actions[1..])
  }

  lemma {:induction false} ClockShowsElapsedTime(w: Worker, actions: seq<Action>)
    ensures Run(w, actions).clock == w.clock + Elapsed(actions)
    decreases |actions|
  {
    if actions == [] {
    } else {
      StepClock(w, actions[0]);
      ClockShowsElapsedTime(Step(w, actions[0]), actions[1..]);
    }
  }

  lemma StepClock(w: Worker, a: Action)
    ensures Step(w, a).clock == w.clock + if a.Tick? then a.elapsed else 0
  {
    match a
    case Park(id) => if id in w.heap { ReleaseAllKeepsShape(w, QuotaVictims(w, id)); }
    case SweepScan => SweepTouchKeepsShape(w, w.order);
    case _ =>
  }

  // ---- slot conservation ----

  function Listed(w: Worker, id: nat): nat { if id in w.order then 1 else 0 }

  /** Every lease ever made is in the table, or in exactly one stage of exactly one release. */
  ghost predicate Accounted(w: Worker) {
    forall id :: Stages(w, id) == (if id in w.heap then 1 else 0)
  }

  function Stages(w: Worker, id: nat): nat {
    Listed(w, id) + w.closing[id] + w.recycling[id] + w.recycled[id] + w.failed[id]
  }

  ghost predicate Named(w: Worker) {
    && Distinct(w.order)
    && forall id | id in w.heap ::
         w.heap[id].id == id && id < w.drawn && w.heap[id].token < w.drawn && w.heap[id].slot < |w.slots|
  }

  /** A lease keeps its slot until the recycling succeeds, and a busy slot is busy for such a lease. */
  ghost predicate Bound(w: Worker) {
    && (forall id | id in w.heap && w.recycled[id] == 0 ::
          w.heap[id].slot < |w.slots| && w.slots[w.heap[id].slot] == Busy(id))
    && (forall i | 0 <= i < |w.slots| && w.slots[i].Busy? ::
          w.slots[i].lease in w.heap && w.heap[w.slots[i].lease].slot == i && w.recycled[w.slots[i].lease] == 0)
  }

  ghost predicate CallsCounted(w: Worker) {
    forall id :: w.poolCalls[id] == Called(w, id)
  }

  function Called(w: Worker, id: nat): nat {
    w.recycling[id] + w.recycled[id] + w.failed[id]
  }

  ghost predicate Conserved(w: Worker) {
    Named(w) && Accounted(w) && Bound(w) && CallsCounted(w)
  }

  /** Two workers that agree on everything but the contents of lease objects that keep id and slot. */
  ghost predicate SameTable(w: Worker, v: Worker) {
    && v.order == w.order && v.slots == w.slots && v.heap.Keys == w.heap.Keys && w.drawn <= v.drawn
    && v.closing == w.closing && v.recycling == w.recycling && v.recycled == w.recycled
    && v.failed == w.failed && v.poolCalls == w.poolCalls
    && (forall id | id in w.heap :: v.heap[id].id == w.heap[id].id && v.heap[id].slot == w.heap[id].slot
                                    && v.heap[id].token < v.drawn)
  }

  lemma SameTableConserved(w: Worker, v: Worker)
    requires Conserved(w) && SameTable(w, v)
    ensures Conserved(v)
  {
    forall id ensures Stages(v, id) == Stages(w, id) && Called(v, id) == Called(w, id) {}
  }

  lemma BeginReleaseConserved(w: Worker, id: nat)
    requires Conserved(w)
    ensures Conserved(BeginRelease(w, id))
    ensures BeginRelease(w, id).heap == w.heap && BeginRelease(w, id).drawn == w.drawn
    ensures BeginRelease(w, id).config == w.config && BeginRelease(w, id).clock == w.clock
    ensures forall x :: x in BeginRelease(w, id).order <==> x in w.order && x != id
  {
    WithoutFacts(w.order, id);
    var v := BeginRelease(w, id);
    forall x ensures Stages(v, x) == Stages(w, x) && Called(v, x) == Called(w, x) {}
  }

  lemma {:induction false} ReleaseAllConserved(w: Worker, ids: seq<nat>)
    requires Conserved(w)
    ensures var v := ReleaseAll(w, ids);
            Conserved(v) && v.heap == w.heap && v.drawn == w.drawn && v.config == w.config && v.clock == w.clock
            && forall x :: x in v.order <==> x in w.order && x !in ids
    decreases |ids|
  {
    if ids == [] {
    } else {
      BeginReleaseConserved(w, ids[0]);
      ReleaseAllConserved(BeginRelease(w, ids[0]), ids[1..]);
      assert forall x :: x in ids <==> x == ids[0] || x in ids[1..];
    }
  }

  lemma CreateConserved(w: Worker, username: string, ttl: Option<int>)
    requires Conserved(w) && FirstFree(w.slots) < |w.slots|
    ensures Conserved(Create(w, FirstFree(w.slots), username, ttl))
  {
    hide FirstFree, Window, Bound;
    var slot := FirstFree(w.slots);
    var v := Create(w, slot, username, ttl);
    assert w.drawn !in w.heap;
    assert w.drawn !in w.order by {
      assert Stages(w, w.drawn) == 0;
    }
    CreateCounts(w, v);
    CreateBound(w, username, ttl);
  }

  lemma CreateCounts(w: Worker, v: Worker)
    requires Accounted(w) && CallsCounted(w) && w.drawn !in w.heap && w.drawn !in w.order
             && v.order == w.order + [w.drawn]
    requires v.heap.Keys == w.heap.Keys + {w.drawn}
    requires v.closing == w.closing && v.recycling == w.recycling && v.recycled == w.recycled
    requires v.failed == w.failed && v.poolCalls == w.poolCalls
    ensures Accounted(v) && CallsCounted(v)
  {
    forall x ensures Stages(v, x) == Stages(w, x) + (if x == w.drawn then 1 else 0) && Called(v, x) == Called(w, x) {}
  }

  lemma CreateBound(w: Worker, username: string, ttl: Option<int>)
    requires Bound(w) && Named(w) && Accounted(w) && w.drawn !in w.heap && FirstFree(w.slots) < |w.slots|
    ensures Bound(Create(w, FirstFree(w.slots), username, ttl))
  {
    hide Window;
    assert Stages(w, w.drawn) == 0;
  }

  lemma {:induction false} SweepTouchFacts(w: Worker, ids: seq<nat>)
    requires Distinct(ids)
    ensures var v := SweepTouch(w, ids);
            && v == w.(heap := v.heap) && v.heap.Keys == w.heap.Keys
            && forall id | id in w.heap ::
                 v.heap[id] == if id in ids then Swept(w.config, w.heap[id], w.clock) else w.heap[id]
  {
    if ids == [] {
    } else {
      var init, last := ids[..|ids| - 1], ids[|ids| - 1];
      SweepTouchFacts(w, init);
      assert ids == init + [last];
      assert last !in init;
    }
  }

  lemma PoolDoneConserved(w: Worker, id: nat, ok: bool)
    requires Conserved(w)
    ensures Conserved(Step(w, PoolDone(id, ok)))
  {
    var v := Step(w, PoolDone(id, ok));
    if v != w {
      PoolDoneAccounted(w, v, id, ok);
      PoolDoneBound(w, v, id, ok);
    }
  }

  lemma PoolDoneAccounted(w: Worker, v: Worker, id: nat, ok: bool)
    requires Conserved(w) && v == Step(w, PoolDone(id, ok)) && v != w
    ensures Named(v) && Accounted(v) && CallsCounted(v)
    ensures forall x :: v.recycled[x] == w.recycled[x] + (if ok && x == id then 1 else 0)
  {
    forall x ensures Stages(v, x) == Stages(w, x) && Called(v, x) == Called(w, x) {}
  }

  lemma PoolDoneBound(w: Worker, v: Worker, id: nat, ok: bool)
    requires Conserved(w) && v == Step(w, PoolDone(id, ok)) && v != w
    requires forall x :: v.recycled[x] == w.recycled[x] + (if ok && x == id then 1 else 0)
    ensures Bound(v)
  {
    assert w.recycling[id] >= 1;
    assert w.recycled[id] == 0 by {
      assert Stages(w, id) == 1;
    }
    assert w.slots[w.heap[id].slot] == Busy(id);
  }

  lemma CallPoolConserved(w: Worker, id: nat)
    requires Conserved(w)
    ensures Conserved(Step(w, CallPool(id)))
  {
    hide Stages, Called;
    var v := Step(w, CallPool(id));
    forall x ensures Stages(v, x) == Stages(w, x) && v.poolCalls[x] - Called(v, x) == w.poolCalls[x] - Called(w, x) {
      CallPoolCounts(w, id, x);
    }
  }

  lemma CallPoolCounts(w: Worker, id: nat, x: nat)
    ensures var v := Step(w, CallPool(id));
            Stages(v, x) == Stages(w, x) && v.poolCalls[x] - Called(v, x) == w.poolCalls[x] - Called(w, x)
  {
  }

  lemma ParkConserved(w: Worker, id: nat)
    requires Conserved(w) && id in w.heap
    ensures Conserved(ParkStep(w, id))
  {
    if ParkAllowed(w, id) {
      ReleaseAllConserved(w, QuotaVictims(w, id));
      SameTableConserved(ReleaseAll(w, QuotaVictims(w, id)), ParkStep(w, id));
    }
  }

  lemma LookupSameTable(w: Worker, id: nat, ms: Option<int>)
    requires Named(w)
    ensures SameTable(w, GetStep(w, id)) && SameTable(w, RenewStep(w, id, ms))
  {
  }

  lemma CustodySameTable(w: Worker, id: nat, at: int)
    requires Named(w)
    ensures SameTable(w, ParkCommit(w, id, at)) && SameTable(w, AttachStep(w, id))
  {
  }

  /** The actions that touch one lease object and nothing else. */
  lemma LeaseStepSameTable(w: Worker, a: Action)
    requires Named(w)
    requires a.Tick? || a.Get? || a.Renew? || a.LatePark? || a.Attach? || a.StartExec? || a.EndExec?
    ensures SameTable(w, Step(w, a))
  {
    hide GetStep, RenewStep, ParkCommit, AttachStep;
    match a
    case Get(id) => LookupSameTable(w, id, None);
    case Renew(id, ms) => LookupSameTable(w, id, ms);
    case LatePark(id, at) => CustodySameTable(w, id, at);
    case Attach(id) => CustodySameTable(w, id, 0);
    case _ =>
  }

  lemma ConservedParts(w: Worker)
    requires Conserved(w)
    ensures Named(w)
  {
  }

  lemma StepConserved(w: Worker, a: Action)
    requires Conserved(w)
    ensures Conserved(Step(w, a))
  {
    ConservedParts(w);
    hide Conserved, SameTable, FirstFree, OldestParked, Create, BeginRelease, ParkStep, SweepTouch;
    hide GetStep, RenewStep, ParkCommit, AttachStep;
    match a
    case Acquire(u, ttl) =>
      if FirstFree(w.slots) < |w.slots| { CreateConserved(w, u, ttl); }
      else if OldestParked(w, w.order).Some? { BeginReleaseConserved(w, OldestParked(w, w.order).value); }
    case Retry(u, ttl) => if FirstFree(w.slots) < |w.slots| { CreateConserved(w, u, ttl); }
    case Park(id) => if id in w.heap { ParkConserved(w, id); }
    case SweepScan => SweepConserved(w);
    case Release(id) => BeginReleaseConserved(w, id);
    case CallPool(id) => CallPoolConserved(w, id);
    case PoolDone(id, ok) => PoolDoneConserved(w, id, ok);
    case _ => LeaseStepSameTable(w, a); SameTableConserved(w, Step(w, a));
  }

  lemma SweepConserved(w: Worker)
    requires Conserved(w)
    ensures Conserved(SweepTouch(w, w.order))
  {
    hide SweepTouch;
    SweepTouchFacts(w, w.order);
    SameTableConserved(w, SweepTouch(w, w.order));
  }

  lemma {:induction false} RunConserved(w: Worker, actions: seq<Action>)
    requires Conserved(w)
    ensures Conserved(Run(w, actions))
    decreases |actions|
  {
    if actions == [] {
    } else {
      StepConserved(w, actions[0]);
      RunConserved(Step(w, actions[0]), actions[1..]);
    }
  }

  /** A command that starts and ends leaves no trace on the count of its lease. */
  lemma StartThenEnd(w: Worker, id: nat)
    ensures Step(Step(w, StartExec(id)), EndExec(id)) == w
    ensures id in w.heap ==> Step(w, StartExec(id)).heap[id] == w.heap[id].(running := w.heap[id].running + 1)
  {
    assert id in w.heap ==> w.heap[id := w.heap[id]] == w.heap;
  }

  // The four states a slot can be in.
  predicate InUse(w: Worker, i: nat) { i < |w.slots| && w.slots[i].Busy? && w.slots[i].lease in w.order }
  predicate BeingReleased(w: Worker, i: nat) {
    i < |w.slots| && w.slots[i].Busy? && w.closing[w.slots[i].lease] + w.recycling[w.slots[i].lease] > 0
  }
  predicate Abandoned(w: Worker, i: nat) { i < |w.slots| && w.slots[i].Busy? && w.slots[i].lease in w.failed }
  predicate IsFree(w: Worker, i: nat) { i < |w.slots| && w.slots[i].Free? }

  /** In every reachable state each slot is in exactly one of its four states, two leases that still own a
      slot never own the same one, and slotPool.release has been called for a lease exactly once if its
      release has got that far, and otherwise, in the table or on the way, not at all. */
  lemma SlotsAreConserved(c: Config, slots: nat, now: int, actions: seq<Action>)
    ensures var w := Run(Boot(c, slots, now), actions);
            && |w.slots| == |Boot(c, slots, now).slots| == slots
            && (forall i: nat | i < slots ::
                  (if IsFree(w, i) then 1 else 0) + (if InUse(w, i) then 1 else 0)
                  + (if BeingReleased(w, i) then 1 else 0) + (if Abandoned(w, i) then 1 else 0) == 1)
            && (forall x, y | x in w.heap && y in w.heap && x != y && w.recycled[x] == 0 && w.recycled[y] == 0 ::
                  w.heap[x].slot != w.heap[y].slot)
            && (forall id {:trigger w.poolCalls[id]} ::
                  w.poolCalls[id] == if id in w.heap && id !in w.order && id !in w.closing then 1 else 0)
  {
    var w0 := Boot(c, slots, now);
    assert Conserved(w0);
    RunConserved(w0, actions);
    RunKeepsShape(w0, actions);
    var w := Run(w0, actions);
    forall i: nat | i < slots && w.slots[i].Busy?
      ensures Stages(w, w.slots[i].lease) == 1 && w.recycled[w.slots[i].lease] == 0
    {
    }
    forall id ensures w.poolCalls[id] == if id in w.heap && id !in w.order && id !in w.closing then 1 else 0 {
      assert Stages(w, id) == (if id in w.heap then 1 else 0) && w.poolCalls[id] == Called(w, id);
    }
  }

  lemma {:induction false} ReleaseAllKeepsShape(w: Worker, ids: seq<nat>)
    ensures var v := ReleaseAll(w, ids);
            && v.slots == w.slots && v.config == w.config && v.clock == w.clock && v.heap == w.heap
              && w.closing <= v.closing && v.recycling == w.recycling && v.recycled == w.recycled
              && v.drawn == w.drawn
            && (forall x :: x in v.order <==> x in w.order && x !in ids)
            && (Distinct(w.order) ==> Distinct(v.order))
    decreases |ids|
  {
    if ids == [] {
    } else {
      WithoutFacts(w.order, ids[0]);
      ReleaseAllKeepsShape(BeginRelease(w, ids[0]), ids[1..]);
      assert forall x :: x in ids <==> x == ids[0] || x in ids[1..];
    }
  }

  lemma StepKeepsShape(w: Worker, a: Action)
    ensures |Step(w, a).slots| == |w.slots| && Step(w, a).config == w.config && w.clock <= Step(w, a).clock
    ensures w.heap.Keys <= Step(w, a).heap.Keys
  {
    match a
    case Park(id) => if id in w.heap { ReleaseAllKeepsShape(w, QuotaVictims(w, id)); }
    case SweepScan => SweepTouchKeepsShape(w, w.order);
    case _ =>
  }

  lemma {:induction false} RunKeepsShape(w: Worker, actions: seq<Action>)
    ensures |Run(w, actions).slots| == |w.slots| && Run(w, actions).config == w.config
            && w.clock <= Run(w, actions).clock
    ensures w.heap.Keys <= Run(w, actions).heap.Keys
    decreases |actions|
  {
    if actions == [] {
    } else {
      StepKeepsShape(w, actions[0]);
      RunKeepsShape(Step(w, actions[0]), actions[1..]);
    }
  }

  // ---- time bounds ----

  /** What holds of every lease object at every moment: the ceiling is fixed at creation and bounds the
      expiry; the expiry is at most one renewal beyond the last sign of life; a parked lease is at most
      one park window beyond its last use. */
  predicate Timed(c: Config, clock: int, l: Lease) {
    && l.hardExpiresAt == l.createdAt + c.maxLifetime
    && l.expiresAt <= l.hardExpiresAt
    && l.expiresAt <= Max(l.lastUsedAt, l.busyAt) + c.ttl
    && (l.parked ==> l.expiresAt <= l.lastUsedAt + c.parkTtl)
    && l.lastUsedAt <= clock && l.busyAt <= clock
  }

  ghost predicate AllTimed(w: Worker) {
    Validated(w.config) && forall id | id in w.heap :: Timed(w.config, w.clock, w.heap[id])
  }

  lemma LeaseOperationsTimed(c: Config, clock: int, l: Lease, ms: Option<int>, token: nat, at: int)
    requires Validated(c) && Timed(c, clock, l) && at <= clock
    ensures Timed(c, clock, Touch(c, l, clock))
    ensures Timed(c, clock, Renewed(c, l, ms, clock))
    ensures Timed(c, clock, Parked(c, l, at))
    ensures Timed(c, clock, Attached(c, l, token, clock))
    ensures Timed(c, clock, Swept(c, l, clock))
  {
  }

  lemma ParkTimed(w: Worker, id: nat)
    requires AllTimed(w) && id in w.heap
    ensures AllTimed(ParkStep(w, id))
  {
    ReleaseAllKeepsShape(w, QuotaVictims(w, id));
    LeaseOperationsTimed(w.config, w.clock, w.heap[id], None, 0, w.clock);
  }

  lemma SweepTimed(w: Worker)
    requires AllTimed(w) && Distinct(w.order)
    ensures AllTimed(SweepTouch(w, w.order))
  {
    SweepTouchFacts(w, w.order);
    forall id | id in w.heap ensures Timed(w.config, w.clock, Swept(w.config, w.heap[id], w.clock)) {
      LeaseOperationsTimed(w.config, w.clock, w.heap[id], None, 0, w.clock);
    }
  }

  lemma LookupTimed(w: Worker, id: nat, ms: Option<int>)
    requires AllTimed(w)
    ensures AllTimed(GetStep(w, id)) && AllTimed(RenewStep(w, id, ms))
  {
    hide Touch, Renewed, Timed;
    if id in w.heap { LeaseOperationsTimed(w.config, w.clock, w.heap[id], ms, 0, w.clock); }
  }

  lemma CustodyTimed(w: Worker, id: nat, at: int)
    requires AllTimed(w)
    ensures AllTimed(ParkCommit(w, id, at)) && AllTimed(AttachStep(w, id))
  {
    hide Parked, Attached, Timed;
    if id in w.heap {
      LeaseOperationsTimed(w.config, w.clock, w.heap[id], None, w.drawn, if at <= w.clock then at else w.clock);
    }
  }

  lemma AcquireTimed(w: Worker, username: string, ttl: Option<int>)
    requires AllTimed(w)
    ensures AllTimed(AcquireStep(w, username, ttl).0) && AllTimed(RetryStep(w, username, ttl).0)
  {
    hide FirstFree, OldestParked;
  }

  lemma OthersTimed(w: Worker, a: Action)
    requires AllTimed(w) && (a.Tick? || a.StartExec? || a.EndExec? || a.Release? || a.CallPool? || a.PoolDone?)
    ensures AllTimed(Step(w, a))
  {
    hide Without;
  }

  lemma StepTimed(w: Worker, a: Action)
    requires AllTimed(w) && Distinct(w.order)
    ensures AllTimed(Step(w, a))
  {
    hide AllTimed, AcquireStep, RetryStep, GetStep, RenewStep, ParkStep, ParkCommit, AttachStep, SweepTouch;
    match a
    case Acquire(u, ttl) => AcquireTimed(w, u, ttl);
    case Retry(u, ttl) => AcquireTimed(w, u, ttl);
    case Get(id) => LookupTimed(w, id, None);
    case Renew(id, ms) => LookupTimed(w, id, ms);
    case Park(id) => if id in w.heap { ParkTimed(w, id); }
    case LatePark(id, at) => CustodyTimed(w, id, at);
    case Attach(id) => CustodyTimed(w, id, 0);
    case SweepScan => SweepTimed(w);
    case _ => OthersTimed(w, a);
  }

  lemma {:induction false} RunTimed(w: Worker, actions: seq<Action>)
    requires AllTimed(w) && Conserved(w)
    ensures AllTimed(Run(w, actions))
    decreases |actions|
  {
    if actions == [] {
    } else {
      StepTimed(w, actions[0]);
      StepConserved(w, actions[0]);
      RunTimed(Step(w, actions[0]), actions[1..]);
    }
  }

  lemma LeasesStayInBounds(c: Config, slots: nat, now: int, actions: seq<Action>)
    requires Validated(c)
    ensures var w := Run(Boot(c, slots, now), actions);
            forall id | id in w.heap :: Timed(c, w.clock, w.heap[id])
  {
    var w0 := Boot(c, slots, now);
    assert Conserved(w0);
    RunTimed(w0, actions);
    RunKeepsShape(w0, actions);
  }

  predicate SameOrigin(l: Lease, m: Lease) {
    m.id == l.id && m.username == l.username && m.slot == l.slot
    && m.createdAt == l.createdAt && m.hardExpiresAt == l.hardExpiresAt
  }

  /** Leases keep owner, slot and ceiling, and unless one is parked, none loses time. */
  ghost predicate OriginKept(w: Worker, v: Worker, parks: bool) {
    && (forall id | id in w.heap :: id in v.heap && SameOrigin(w.heap[id], v.heap[id]))
    && (!parks ==> forall id | id in w.heap :: id in v.heap && w.heap[id].expiresAt <= v.heap[id].expiresAt)
  }

  lemma LookupKeepsOrigin(w: Worker, id: nat, ms: Option<int>)
    ensures OriginKept(w, GetStep(w, id), false) && OriginKept(w, RenewStep(w, id, ms), false)
  {
    hide Window;
  }

  lemma CustodyKeepsOrigin(w: Worker, id: nat, at: int)
    ensures OriginKept(w, ParkCommit(w, id, at), true) && OriginKept(w, AttachStep(w, id), false)
  {
  }

  lemma ParkKeepsOrigin(w: Worker, id: nat)
    requires id in w.heap
    ensures OriginKept(w, ParkStep(w, id), true)
  {
    hide QuotaVictims, ReleaseAll;
    ReleaseAllKeepsShape(w, QuotaVictims(w, id));
  }

  lemma SweepKeepsOrigin(w: Worker)
    requires Distinct(w.order)
    ensures OriginKept(w, SweepTouch(w, w.order), false)
  {
    hide SweepTouch;
    SweepTouchFacts(w, w.order);
  }

  lemma AcquireKeepsOrigin(w: Worker, username: string, ttl: Option<int>)
    requires w.drawn !in w.heap
    ensures OriginKept(w, AcquireStep(w, username, ttl).0, false)
    ensures OriginKept(w, RetryStep(w, username, ttl).0, false)
  {
    hide FirstFree, OldestParked, Window;
  }

  lemma OthersKeepOrigin(w: Worker, a: Action)
    requires a.Tick? || a.StartExec? || a.EndExec? || a.Release? || a.CallPool? || a.PoolDone?
    ensures OriginKept(w, Step(w, a), false)
  {
    hide Without;
  }

  lemma StepOriginKept(w: Worker, a: Action)
    requires Distinct(w.order) && w.drawn !in w.heap
    ensures OriginKept(w, Step(w, a), a.Park? || a.LatePark?)
  {
    hide AcquireStep, RetryStep, GetStep, RenewStep, ParkStep, ParkCommit, AttachStep, SweepTouch;
    match a
    case Acquire(u, ttl) => AcquireKeepsOrigin(w, u, ttl);
    case Retry(u, ttl) => AcquireKeepsOrigin(w, u, ttl);
    case Get(id) => LookupKeepsOrigin(w, id, None);
    case Renew(id, ms) => LookupKeepsOrigin(w, id, ms);
    case Park(id) => if id in w.heap { ParkKeepsOrigin(w, id); }
    case LatePark(id, at) => CustodyKeepsOrigin(w, id, at);
    case Attach(id) => CustodyKeepsOrigin(w, id, 0);
    case SweepScan => SweepKeepsOrigin(w);
    case _ => OthersKeepOrigin(w, a);
  }

  /** Owner, slot and ceiling of a lease never change, and only parking brings an expiry forward. */
  lemma StepKeepsOrigin(w: Worker, a: Action)
    requires Distinct(w.order) && w.drawn !in w.heap
    ensures forall id | id in w.heap :: id in Step(w, a).heap && SameOrigin(w.heap[id], Step(w, a).heap[id])
    ensures !a.Park? && !a.LatePark? ==>
              forall id | id in w.heap :: id in Step(w, a).heap && w.heap[id].expiresAt <= Step(w, a).heap[id].expiresAt
  {
    hide Step;
    StepOriginKept(w, a);
  }

  lemma {:induction false} CeilingNeverMoves(w: Worker, actions: seq<Action>)
    requires Conserved(w)
    ensures forall id | id in w.heap :: id in Run(w, actions).heap && SameOrigin(w.heap[id], Run(w, actions).heap[id])
    decreases |actions|
  {
    if actions == [] {
    } else {
      StepKeepsOrigin(w, actions[0]);
      StepConserved(w, actions[0]);
      CeilingNeverMoves(Step(w, actions[0]), actions[1..]);
    }
  }

  /** The latest a lease can live to without another sign of life. */
  function LastMoment(c: Config, l: Lease): int {
    Min(Max(l.lastUsedAt, l.busyAt) + c.ttl, l.hardExpiresAt)
  }

  lemma SweepSelects(w: Worker, id: nat)
    requires AllTimed(w) && Distinct(w.order) && id in w.order && id in w.heap
    ensures var l := w.heap[id];
            && ((l.running == 0 || l.parked) && w.clock >= LastMoment(w.config, l) ==> id in Expired(w, w.order))
            && (l.running > 0 && !l.parked && w.clock < l.hardExpiresAt && w.config.idleTimeout > 0
                ==> id !in Expired(w, w.order))
  {
    ExpiredFacts(w, w.order);
  }

  lemma SweepSpares(w: Worker, id: nat)
    requires AllTimed(w) && Distinct(w.order) && id in w.order && id in w.heap
    ensures var l, swept := w.heap[id], ReleaseAll(SweepTouch(w, w.order), Expired(w, w.order));
            && (id in swept.order <==> id !in Expired(w, w.order)) && id in swept.heap
            && (l.running > 0 && !l.parked ==>
                  swept.heap[id].expiresAt >= Min(w.clock + w.config.idleTimeout, l.hardExpiresAt))
  {
    hide AllTimed, Expired, SweepTouch, ReleaseAll;
    SweepTouchFacts(w, w.order);
    ReleaseAllKeepsShape(SweepTouch(w, w.order), Expired(w, w.order));
  }

  lemma Reached(c: Config, slots: nat, now: int, actions: seq<Action>)
    requires Validated(c)
    ensures var w := Run(Boot(c, slots, now), actions);
            && AllTimed(w) && Distinct(w.order) && w.config == c && forall id | id in w.order :: id in w.heap
  {
    hide Run;
    var w0 := Boot(c, slots, now);
    assert Conserved(w0);
    RunConserved(w0, actions);
    RunTimed(w0, actions);
    RunKeepsShape(w0, actions);
    forall id | id in Run(w0, actions).order ensures id in Run(w0, actions).heap {
      assert Stages(Run(w0, actions), id) >= 1;
    }
  }

  /** A lease nobody has used since max(lastUsedAt, busyAt), with nothing running on it or parked, is
      collected by the first sweep at or after the end of its window or its ceiling. A lease that is busy
      and below its ceiling is not collected, and lives on for the working window, as far as the ceiling allows. */
  lemma FirstSweepCollects(c: Config, slots: nat, now: int, actions: seq<Action>, id: nat)
    requires Validated(c)
    requires id in Run(Boot(c, slots, now), actions).order
    ensures var w := Run(Boot(c, slots, now), actions);
            && id in w.heap
            && var l := w.heap[id];
               var swept := ReleaseAll(Step(w, SweepScan), Expired(w, w.order));
               && ((l.running == 0 || l.parked) && w.clock >= LastMoment(c, l) ==> id !in swept.order)
               && (l.running > 0 && !l.parked && w.clock < l.hardExpiresAt && c.idleTimeout > 0 ==>
                     id in swept.order && id in swept.heap
                     && swept.heap[id].expiresAt >= Min(w.clock + c.idleTimeout, l.hardExpiresAt))
  {
    hide Run, AllTimed, Expired, SweepTouch, ReleaseAll;
    var w := Run(Boot(c, slots, now), actions);
    Reached(c, slots, now, actions);
    SweepSelects(w, id);
    SweepSpares(w, id);
  }

  // ---- park quota ----

  ghost predicate WithinQuota(w: Worker) {
    forall u :: |ParkedOf(w, u, w.order)| <= w.config.maxParkedPerUser
  }

  /** Nobody gains a parked lease, so nobody's count grows. */
  lemma QuotaKept(w: Worker, v: Worker)
    requires WithinQuota(w) && Distinct(v.order) && v.config == w.config
    requires forall x, u | x in v.order && ParkedBy(v, x, u) :: x in w.order && ParkedBy(w, x, u)
    ensures WithinQuota(v)
  {
    forall u ensures |ParkedOf(v, u, v.order)| <= v.config.maxParkedPerUser {
      ParkedOfFacts(w, u, w.order);
      ParkedOfFacts(v, u, v.order);
      SubsetIsShorter(ParkedOf(v, u, v.order), ParkedOf(w, u, w.order));
    }
  }

  /** An uninterrupted park drops only parked leases of the same user, none of which was parked after one
      that stays, and touches no lease of anyone else. */
  lemma ParkDropsOwnOldest(w: Worker, id: nat)
    requires Distinct(w.order) && id in w.heap
    ensures var v := ParkStep(w, id);
            && (forall x | x in v.order :: x in w.order)
            && (forall x | x in w.order && x !in v.order ::
                  && x != id && ParkedBy(w, x, w.heap[id].username)
                  && forall y | y in v.order && y != id && ParkedBy(w, y, w.heap[id].username) ::
                       w.heap[x].parkedAt <= w.heap[y].parkedAt)
            && (forall x | x in w.heap && x != id :: x in v.heap && v.heap[x] == w.heap[x])
  {
    if ParkAllowed(w, id) {
      ReleaseAllKeepsShape(w, QuotaVictims(w, id));
      QuotaVictimsFacts(w, id);
    }
  }

  /** The leases of the parking user that survive the quota. */
  function QuotaSurvivors(w: Worker, id: nat): seq<nat>
    requires id in w.heap
  {
    var mine := Without(ParkedOf(w, w.heap[id].username, w.order), id);
    Newest(mine, ParkedSince(w), |mine| - (w.config.maxParkedPerUser - 1))
  }

  lemma QuotaVictimsFacts(w: Worker, id: nat)
    requires Distinct(w.order) && id in w.heap
    ensures forall x :: x in QuotaVictims(w, id) || x in QuotaSurvivors(w, id)
                        <==> x in w.order && x != id && ParkedBy(w, x, w.heap[id].username)
    ensures Distinct(QuotaVictims(w, id)) && forall x :: !(x in QuotaVictims(w, id) && x in QuotaSurvivors(w, id))
    ensures forall x, y | x in QuotaVictims(w, id) && y in QuotaSurvivors(w, id) && x in w.heap && y in w.heap ::
              w.heap[x].parkedAt <= w.heap[y].parkedAt
    ensures w.config.maxParkedPerUser > 0 ==> |QuotaSurvivors(w, id)| <= w.config.maxParkedPerUser - 1
  {
    hide ParkedOf, Without, Oldest, Newest, SortBy;
    var all := ParkedOf(w, w.heap[id].username, w.order);
    ParkedOfFacts(w, w.heap[id].username, w.order);
    WithoutFacts(all, id);
    var mine := Without(all, id);
    var count := |mine| - (w.config.maxParkedPerUser - 1);
    OldestSplits(mine, ParkedSince(w), count);
    OldestSplitsDistinct(mine, ParkedSince(w), count);
    forall x, y | x in QuotaVictims(w, id) && y in QuotaSurvivors(w, id) && x in w.heap && y in w.heap
      ensures w.heap[x].parkedAt <= w.heap[y].parkedAt
    {
      assert ParkedSince(w)(x) <= ParkedSince(w)(y);
    }
  }

  lemma ParkWithinQuota(w: Worker, id: nat)
    requires Distinct(w.order) && WithinQuota(w) && id in w.heap
    ensures WithinQuota(ParkStep(w, id))
  {
    if ParkAllowed(w, id) {
      var u, v := w.heap[id].username, ParkStep(w, id);
      ReleaseAllKeepsShape(w, QuotaVictims(w, id));
      QuotaVictimsFacts(w, id);
      forall name ensures |ParkedOf(v, name, v.order)| <= v.config.maxParkedPerUser {
        ParkedOfFacts(v, name, v.order);
        if name == u {
          SubsetIsShorter(ParkedOf(v, u, v.order), [id] + QuotaSurvivors(w, id));
        } else {
          ParkedOfFacts(w, name, w.order);
          SubsetIsShorter(ParkedOf(v, name, v.order), ParkedOf(w, name, w.order));
        }
      }
    }
  }

  lemma StepWithinQuota(w: Worker, a: Action)
    requires Conserved(w) && WithinQuota(w) && !a.LatePark?
    ensures WithinQuota(Step(w, a))
  {
    if a.Park? {
      if a.id in w.heap { ParkWithinQuota(w, a.id); }
    } else {
      StepConserved(w, a);
      StepAddsNoParked(w, a);
      QuotaKept(w, Step(w, a));
    }
  }

  ghost predicate AddsNone(w: Worker, v: Worker) {
    v.config == w.config
    && forall x, u | x in v.order && ParkedBy(v, x, u) :: x in w.order && ParkedBy(w, x, u)
  }

  lemma LookupAddsNone(w: Worker, id: nat, ms: Option<int>)
    ensures AddsNone(w, GetStep(w, id)) && AddsNone(w, RenewStep(w, id, ms)) && AddsNone(w, AttachStep(w, id))
  {
    hide Window;
  }

  lemma SweepAddsNone(w: Worker)
    requires Distinct(w.order)
    ensures AddsNone(w, SweepTouch(w, w.order))
  {
    hide SweepTouch;
    SweepTouchFacts(w, w.order);
  }

  lemma ReleaseAddsNone(w: Worker, id: nat)
    requires Conserved(w)
    ensures AddsNone(w, BeginRelease(w, id))
  {
    hide Conserved, BeginRelease;
    BeginReleaseConserved(w, id);
  }

  lemma AcquireAddsNone(w: Worker, username: string, ttl: Option<int>)
    requires Conserved(w)
    ensures AddsNone(w, AcquireStep(w, username, ttl).0) && AddsNone(w, RetryStep(w, username, ttl).0)
  {
    assert w.drawn !in w.heap;
    hide Conserved, BeginRelease, FirstFree, OldestParked, Window;
    var victim := OldestParked(w, w.order);
    if victim.Some? { ReleaseAddsNone(w, victim.value); }
  }

  lemma OthersAddNone(w: Worker, a: Action)
    requires a.Tick? || a.StartExec? || a.EndExec? || a.CallPool? || a.PoolDone?
    ensures AddsNone(w, Step(w, a))
  {
  }

  lemma StepAddsNoParked(w: Worker, a: Action)
    requires Conserved(w) && !a.LatePark? && !a.Park?
    ensures var v := Step(w, a);
            v.config == w.config
            && forall x, u | x in v.order && ParkedBy(v, x, u) :: x in w.order && ParkedBy(w, x, u)
  {
    StepAddsNone(w, a);
    hide Step, Conserved;
  }

  lemma StepAddsNone(w: Worker, a: Action)
    requires Conserved(w) && !a.LatePark? && !a.Park?
    ensures AddsNone(w, Step(w, a))
  {
    ConservedParts(w);
    hide Conserved, AddsNone, AcquireStep, RetryStep, GetStep, RenewStep, AttachStep, SweepTouch, BeginRelease;
    match a
    case Acquire(u, ttl) => AcquireAddsNone(w, u, ttl);
    case Retry(u, ttl) => AcquireAddsNone(w, u, ttl);
    case Get(id) => LookupAddsNone(w, id, None);
    case Renew(id, ms) => LookupAddsNone(w, id, ms);
    case Attach(id) => LookupAddsNone(w, id, None);
    case SweepScan => SweepAddsNone(w);
    case Release(id) => ReleaseAddsNone(w, id);
    case _ => OthersAddNone(w, a);
  }

  lemma {:induction false} RunWithinQuota(w: Worker, actions: seq<Action>)
    requires Conserved(w) && WithinQuota(w)
    requires forall a | a in actions :: !a.LatePark?
    ensures WithinQuota(Run(w, actions))
    decreases |actions|
  {
    if actions == [] {
    } else {
      StepWithinQuota(w, actions[0]);
      StepConserved(w, actions[0]);
      RunWithinQuota(Step(w, actions[0]), actions[1..]);
    }
  }

  /** As long as every park runs to completion, no user ever has more parked leases than allowed, whatever
      else is interleaved with the parks. */
  lemma QuotaHolds(c: Config, slots: nat, now: int, actions: seq<Action>)
    requires Validated(c)
    requires forall a | a in actions :: !a.LatePark?
    ensures var w := Run(Boot(c, slots, now), actions);
            forall u :: |ParkedOf(w, u, w.order)| <= c.maxParkedPerUser
  {
    var w0 := Boot(c, slots, now);
    assert Conserved(w0);
    assert WithinQuota(w0);
    RunWithinQuota(w0, actions);
    RunKeepsShape(w0, actions);
  }
}
