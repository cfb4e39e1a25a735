/** What each lease operation of the sandbox worker does to the worker's state, as functions on values.
    A step is a stretch of code between two awaits; WorkerRuns interleaves the steps and LeaseManager
    carries them out in place. */
module LeaseRules {
  import opened Retention
  import opened Wrappers

  /** The lease section of the worker's configuration, times in milliseconds. */
  datatype Config = Config(ttl: int, idleTimeout: int, maxLifetime: int,
                           parkTtl: int, parkGrace: int, maxParkedPerUser: int)

  /** The ordering of windows that start-up insists on. */
  predicate Validated(c: Config) {
    && c.idleTimeout <= c.ttl <= c.maxLifetime
    && c.parkTtl <= c.idleTimeout
    && c.parkGrace < c.parkTtl
    && 0 <= c.maxParkedPerUser
  }

  datatype Slot = Free | Busy(lease: nat)

  /** A lease object. `busyAt` records the last sweep that found a command running; it is history, and
      no operation reads it. */
  datatype Lease = Lease(id: nat, username: string, slot: nat, token: nat,
                         createdAt: int, hardExpiresAt: int,
                         lastUsedAt: int, busyAt: int, expiresAt: int,
                         running: nat, parked: bool, parkedAt: int)

  /** `order` is the insertion-ordered key list of the lease table. `heap` holds every lease object ever
      made, since a handler may still hold one that has left the table. `drawn` stands for the random ids
      and tokens: everything below it has been drawn.
      A call of releaseLease that found its lease in the table is, in turn, in `closing` (before it calls
      the pool), in `recycling` (the pool call is pending), and then in `recycled` or `failed`.
      `poolCalls` logs the calls of slotPool.release. */
  datatype Worker = Worker(config: Config, clock: int, slots: seq<Slot>,
                           order: seq<nat>, heap: map<nat, Lease>, drawn: nat,
                           closing: multiset<nat>, recycling: multiset<nat>,
                           recycled: multiset<nat>, failed: multiset<nat>, poolCalls: multiset<nat>)

  function Min(a: int, b: int): int { if a <= b then a else b }
  function Max(a: int, b: int): int { if a <= b then b else a }

  // ---- one lease ----

  /** Pushes the expiry to now + window, but neither past the hard ceiling nor backwards. */
  function Extend(l: Lease, window: int, now: int): (r: Lease)
    ensures l.expiresAt <= r.expiresAt
    ensures l.expiresAt <= l.hardExpiresAt ==> r.expiresAt <= l.hardExpiresAt
    ensures r == l.(expiresAt := r.expiresAt)
    ensures Min(now + window, l.hardExpiresAt) <= r.expiresAt
    ensures r.expiresAt == l.expiresAt || r.expiresAt <= now + window
  {
    var wanted := Min(now + window, l.hardExpiresAt);
    if wanted > l.expiresAt then l.(expiresAt := wanted) else l
  }

  function Touch(c: Config, l: Lease, now: int): Lease {
    Extend(l.(lastUsedAt := now), if l.parked then c.parkTtl else c.idleTimeout, now)
  }

  /** `requested` is None for anything that is not a finite number. */
  function Window(requested: Option<int>, cap: int): int {
    if requested.Some? && requested.value > 0 then Min(requested.value, cap) else cap
  }

  function Renewed(c: Config, l: Lease, requested: Option<int>, now: int): Lease {
    var window := Window(requested, if l.parked then c.parkTtl else c.ttl);
    Extend(l, window, now).(lastUsedAt := now)
  }

  function Parked(c: Config, l: Lease, now: int): Lease {
    l.(parked := true, parkedAt := now, lastUsedAt := now,
       expiresAt := Min(now + c.parkTtl, l.hardExpiresAt))
  }

  function Attached(c: Config, l: Lease, token: nat, now: int): Lease {
    Extend(l.(parked := false, parkedAt := 0, lastUsedAt := now, token := token), c.idleTimeout, now)
  }

  /** What a sweep does to a lease before it looks at the expiry: running commands count as activity,
      unless the lease is parked. */
  function Swept(c: Config, l: Lease, now: int): Lease {
    if l.running > 0 && !l.parked then Extend(l.(busyAt := now), c.idleTimeout, now) else l
  }

  function NewLease(c: Config, id: nat, token: nat, slot: nat, username: string,
                    ttl: Option<int>, now: int): Lease {
    var hard := now + c.maxLifetime;
    Lease(id, username, slot, token, now, hard, now, now, Min(now + Window(ttl, c.ttl), hard), 0, false, 0)
  }

  // ---- the table and the slots ----

  function Without(ids: seq<nat>, id: nat): seq<nat> {
    if ids == [] then []
    else if ids[0] == id then Without(ids[1..], id)
    else [ids[0]] + Without(ids[1..], id)
  }

  /** releaseLease up to its first await. Unknown ids are ignored. */
  function BeginRelease(w: Worker, id: nat): Worker {
    if id in w.order then w.(order := Without(w.order, id), closing := w.closing + multiset{id}) else w
  }

  /** The pool hands out its first slot that is not busy. */
  function FirstFree(slots: seq<Slot>): (i: nat)
    ensures i <= |slots|
    ensures i < |slots| ==> slots[i].Free?
    ensures forall j | 0 <= j < i :: slots[j].Busy?
  {
    if slots == [] || slots[0].Free? then 0 else 1 + FirstFree(slots[1..])
  }

  function Create(w: Worker, slot: nat, username: string, ttl: Option<int>): Worker
    requires slot < |w.slots|
  {
    var id := w.drawn;
    w.(slots := w.slots[slot := Busy(id)],
       order := w.order + [id],
       heap := w.heap[id := NewLease(w.config, id, id + 1, slot, username, ttl, w.clock)],
       drawn := w.drawn + 2)
  }

  predicate Preemptible(w: Worker, id: nat) {
    id in w.heap && w.heap[id].parked && w.clock - w.heap[id].parkedAt >= w.config.parkGrace
  }

  /** The lease that may be preempted: the first, in table order, of the longest-parked ones. */
  function OldestParked(w: Worker, ids: seq<nat>): Option<nat> {
    if ids == [] then None
    else
      var victim := OldestParked(w, ids[..|ids| - 1]);
      var id := ids[|ids| - 1];
      if !Preemptible(w, id) then victim
      else if victim.None? || (victim.value in w.heap && w.heap[id].parkedAt < w.heap[victim.value].parkedAt)
        then Some(id)
      else victim
  }

  datatype Acquisition = Granted(lease: nat) | Preempting(victim: nat) | Full

  /** acquire up to its first await. With no slot free it starts releasing a victim and will retry. */
  function AcquireStep(w: Worker, username: string, ttl: Option<int>): (Worker, Acquisition) {
    var slot := FirstFree(w.slots);
    if slot < |w.slots| then (Create(w, slot, username, ttl), Granted(w.drawn))
    else
      var victim := OldestParked(w, w.order);
      if victim.Some? then (BeginRelease(w, victim.value), Preempting(victim.value)) else (w, Full)
  }

  /** acquire after the victim's release has come back: one more try at the pool, no second victim. */
  function RetryStep(w: Worker, username: string, ttl: Option<int>): (Worker, Acquisition) {
    var slot := FirstFree(w.slots);
    if slot < |w.slots| then (Create(w, slot, username, ttl), Granted(w.drawn)) else (w, Full)
  }

  predicate Visible(w: Worker, id: nat) {
    id in w.order && id in w.heap && w.clock < w.heap[id].expiresAt
  }

  /** The lookup every request inside a lease goes through; finding the lease counts as activity. */
  function GetStep(w: Worker, id: nat): Worker {
    if Visible(w, id) then w.(heap := w.heap[id := Touch(w.config, w.heap[id], w.clock)]) else w
  }

  function RenewStep(w: Worker, id: nat, requested: Option<int>): Worker {
    if id in w.heap then w.(heap := w.heap[id := Renewed(w.config, w.heap[id], requested, w.clock)]) else w
  }

  /** Sweeping in table order: the touched leases, and the ids found expired. */
  function SweepTouch(w: Worker, ids: seq<nat>): Worker {
    if ids == [] then w
    else
      var before := SweepTouch(w, ids[..|ids| - 1]);
      var id := ids[|ids| - 1];
      if id in before.heap then before.(heap := before.heap[id := Swept(w.config, before.heap[id], w.clock)])
        else before
  }

  function Expired(w: Worker, ids: seq<nat>): seq<nat> {
    if ids == [] then []
    else
      var id := ids[|ids| - 1];
      Expired(w, ids[..|ids| - 1])
      + (if id in w.heap && Swept(w.config, w.heap[id], w.clock).expiresAt <= w.clock then [id] else [])
  }

  function ReleaseAll(w: Worker, ids: seq<nat>): Worker
    decreases |ids|
  {
    if ids == [] then w else ReleaseAll(BeginRelease(w, ids[0]), ids[1..])
  }

  // ---- parking ----

  predicate ParkedBy(w: Worker, id: nat, username: string) {
    id in w.heap && w.heap[id].parked && w.heap[id].username == username
  }

  /** The parked leases of one user, in table order. */
  function ParkedOf(w: Worker, username: string, ids: seq<nat>): seq<nat> {
    if ids == [] then []
    else
      var id := ids[|ids| - 1];
      ParkedOf(w, username, ids[..|ids| - 1]) + (if ParkedBy(w, id, username) then [id] else [])
  }

  function ParkedSince(w: Worker): nat -> int {
    id => if id in w.heap then w.heap[id].parkedAt else 0
  }

  /** The leases a park has to drop first: the user's own longest-parked ones beyond the quota. */
  function QuotaVictims(w: Worker, id: nat): seq<nat>
    requires id in w.heap
  {
    var mine := Without(ParkedOf(w, w.heap[id].username, w.order), id);
    Oldest(mine, ParkedSince(w), |mine| - (w.config.maxParkedPerUser - 1))
  }

  predicate ParkAllowed(w: Worker, id: nat)
    requires id in w.heap
  {
    w.config.maxParkedPerUser > 0 && w.heap[id].hardExpiresAt - w.clock > w.config.parkGrace
  }

  /** A park that runs to completion: the quota victims go, then the lease is parked. */
  function ParkStep(w: Worker, id: nat): Worker
    requires id in w.heap
  {
    if !ParkAllowed(w, id) then w
    else
      var w1 := ReleaseAll(w, QuotaVictims(w, id));
      if id in w1.heap then w1.(heap := w1.heap[id := Parked(w.config, w1.heap[id], w.clock)]) else w1
  }

  /** The last part of a park whose clock reading was taken at `at`, before it waited for its victims. */
  function ParkCommit(w: Worker, id: nat, at: int): Worker {
    if id in w.heap && at <= w.clock then w.(heap := w.heap[id := Parked(w.config, w.heap[id], at)]) else w
  }

  function AttachStep(w: Worker, id: nat): Worker {
    if id in w.heap then
      w.(heap := w.heap[id := Attached(w.config, w.heap[id], w.drawn, w.clock)], drawn := w.drawn + 1)
    else w
  }

  // ---- facts about the table ----

  lemma {:induction false} WithoutFacts(ids: seq<nat>, id: nat)
    ensures forall x :: x in Without(ids, id) <==> x in ids && x != id
    ensures Distinct(ids) ==> Distinct(Without(ids, id))
    ensures Distinct(ids) && id in ids ==> |Without(ids, id)| == |ids| - 1
    ensures id !in ids ==> Without(ids, id) == ids
  {
    if ids == [] {
    } else {
      WithoutFacts(ids[1..], id);
      if Distinct(ids) {
        assert ids[0] !in ids[1..];
      }
    }
  }

  lemma {:induction false} SweepTouchKeepsShape(w: Worker, ids: seq<nat>)
    ensures var v := SweepTouch(w, ids); v == w.(heap := v.heap) && v.heap.Keys == w.heap.Keys
  {
    if ids == [] {
    } else {
      SweepTouchKeepsShape(w, ids[..|ids| - 1]);
    }
  }

  lemma {:induction false} ParkedOfFacts(w: Worker, username: string, ids: seq<nat>)
    ensures forall x :: x in ParkedOf(w, username, ids) <==> x in ids && ParkedBy(w, x, username)
    ensures Distinct(ids) ==> Distinct(ParkedOf(w, username, ids))
  {
    if ids == [] {
    } else {
      var init, last := ids[..|ids| - 1], ids[|ids| - 1];
      ParkedOfFacts(w, username, init);
      assert ids == init + [last];
      assert Distinct(ids) ==> Distinct(init) && last !in init;
    }
  }

  lemma {:induction false} ExpiredFacts(w: Worker, ids: seq<nat>)
    ensures forall x :: x in Expired(w, ids) <==>
                        x in ids && x in w.heap && Swept(w.config, w.heap[x], w.clock).expiresAt <= w.clock
  {
    if ids == [] {
    } else {
      var init, last := ids[..|ids| - 1], ids[|ids| - 1];
      ExpiredFacts(w, init);
      assert ids == init + [last];
    }
  }

  /** The victim is past its grace window and was parked no later than any other candidate; there is
      none exactly when nothing is preemptible. */
  lemma {:induction false} OldestParkedIsOldest(w: Worker, ids: seq<nat>)
    ensures OldestParked(w, ids).Some? ==>
              var v := OldestParked(w, ids).value;
              v in ids && Preemptible(w, v)
              && forall x | x in ids && Preemptible(w, x) :: w.heap[v].parkedAt <= w.heap[x].parkedAt
    ensures OldestParked(w, ids).None? ==> forall x | x in ids :: !Preemptible(w, x)
  {
    if ids == [] {
    } else {
      var init, last := ids[..|ids| - 1], ids[|ids| - 1];
      OldestParkedIsOldest(w, init);
      assert ids == init + [last];
    }
  }

  /** Preemption happens only when every slot is busy, and takes only the longest-parked lease that is
      past its grace window; otherwise acquire leaves every lease in the table. */
  lemma AcquirePreemptsFairly(w: Worker, username: string, ttl: Option<int>)
    ensures var (w', got) := AcquireStep(w, username, ttl);
            match got
            case Granted(id) =>
              && w'.order == w.order + [id] && w'.heap[id].username == username
              && w'.heap[id].slot < |w.slots| && w.slots[w'.heap[id].slot].Free?
              && w'.slots == w.slots[w'.heap[id].slot := Busy(id)]
            case Full => w' == w && forall x | x in w.order && x in w.heap && w.heap[x].parked ::
                                      w.clock < w.heap[x].parkedAt + w.config.parkGrace
            case Preempting(v) =>
              && (forall s | s in w.slots :: s.Busy?)
              && v in w.order && v in w.heap && w.heap[v].parked
              && w.clock >= w.heap[v].parkedAt + w.config.parkGrace
              && (forall x | x in w.order && Preemptible(w, x) :: w.heap[v].parkedAt <= w.heap[x].parkedAt)
              && (forall x :: x in w'.order <==> x in w.order && x != v)
  {
    OldestParkedIsOldest(w, w.order);
    var victim := OldestParked(w, w.order);
    if victim.Some? {
      WithoutFacts(w.order, victim.value);
    }
  }

  lemma {:induction false} FirstFreeFinds(slots: seq<Slot>)
    ensures FirstFree(slots) < |slots| <==> exists s :: s in slots && s.Free?
  {
    if slots == [] || slots[0].Free? {
    } else {
      FirstFreeFinds(slots[1..]);
      assert forall s | s in slots[1..] :: s in slots;
      assert forall s | s in slots :: s == slots[0] || s in slots[1..];
    }
  }

  /** The second try is granted if and only if a slot is free by then: a new lease of this user on a slot that
      was free. Otherwise it gives up, without another victim. */
  lemma RetryTakesAFreeSlot(w: Worker, username: string, ttl: Option<int>)
    ensures var (w', got) := RetryStep(w, username, ttl);
            if exists s :: s in w.slots && s.Free? then
              && got == Granted(w.drawn) && w'.order == w.order + [w.drawn]
              && w.drawn in w'.heap && w'.heap[w.drawn].username == username
              && w'.heap[w.drawn].slot < |w.slots| && w.slots[w'.heap[w.drawn].slot].Free?
              && w'.slots == w.slots[w'.heap[w.drawn].slot := Busy(w.drawn)]
            else got == Full && w' == w
  {
    FirstFreeFinds(w.slots);
  }

  /** Likewise the first try: it is granted whenever a slot is free, and only then. */
  lemma AcquireTakesAFreeSlot(w: Worker, username: string, ttl: Option<int>)
    ensures AcquireStep(w, username, ttl).1.Granted? <==> exists s :: s in w.slots && s.Free?
    ensures AcquireStep(w, username, ttl).1.Granted? ==> AcquireStep(w, username, ttl) == RetryStep(w, username, ttl)
  {
    FirstFreeFinds(w.slots);
  }

  /** A new lease on a slot that was free: busy for it and for nobody else, in use, and alive for the whole
      window asked for, as far as the caps allow. */
  lemma CreatedLeaseIsUsable(w: Worker, username: string, ttl: Option<int>)
    requires Validated(w.config) && w.config.ttl > 0 && FirstFree(w.slots) < |w.slots|
    ensures var v := Create(w, FirstFree(w.slots), username, ttl);
            var l := v.heap[w.drawn];
            && Visible(v, w.drawn) && !l.parked && l.username == username && v.slots[l.slot] == Busy(w.drawn)
            && (forall i | 0 <= i < |w.slots| && i != l.slot :: v.slots[i] == w.slots[i])
            && l.createdAt == l.lastUsedAt == w.clock && l.hardExpiresAt == w.clock + w.config.maxLifetime
            && l.expiresAt == w.clock + (if ttl.Some? && 0 < ttl.value <= w.config.ttl then ttl.value else w.config.ttl)
  {
  }

  /** Parking puts a lease on the short window at once, however long it had; attaching ends the parking, with
      a new token, and gives the working window back, as far as the ceiling allows. Nothing else changes. */
  lemma ParkedThenAttached(c: Config, l: Lease, parkedAt: int, token: nat, now: int)
    requires Validated(c) && parkedAt <= now
    ensures var p, a := Parked(c, l, parkedAt), Attached(c, Parked(c, l, parkedAt), token, now);
            && p.parked && p.parkedAt == parkedAt && p.expiresAt == Min(parkedAt + c.parkTtl, l.hardExpiresAt)
            && !a.parked && a.token == token && a.lastUsedAt == now
            && a.expiresAt == Min(now + c.idleTimeout, l.hardExpiresAt)
            && a == l.(parkedAt := 0, parked := false, token := token, lastUsedAt := now, expiresAt := a.expiresAt)
  {
  }

  /** A renewal gives exactly the window asked for, within the cap that applies, unless the lease already
      lives longer or the ceiling is nearer. */
  lemma RenewalGivesItsWindow(c: Config, l: Lease, requested: Option<int>, now: int)
    requires l.expiresAt <= l.hardExpiresAt
    ensures var cap := if l.parked then c.parkTtl else c.ttl;
            var window := if requested.Some? && 0 < requested.value <= cap then requested.value else cap;
            Renewed(c, l, requested, now) == Alive(l, window, now).(lastUsedAt := now)
  {
  }

  /** A lease that is to live for a window from now: no shorter than it would anyway, and not past its ceiling. */
  function Alive(l: Lease, window: int, now: int): Lease {
    l.(expiresAt := Max(l.expiresAt, Min(now + window, l.hardExpiresAt)))
  }

  /** What a request does: a lease in the table that has not expired gets its window from now, a working one
      the working window and a parked one only the park window. Nothing else changes, and nothing at all if
      there is no such lease. */
  lemma LookupSlidesTheWindow(w: Worker, id: nat)
    requires forall x | x in w.heap :: w.heap[x].expiresAt <= w.heap[x].hardExpiresAt
    ensures var window := if id in w.heap && w.heap[id].parked then w.config.parkTtl else w.config.idleTimeout;
            GetStep(w, id) ==
              if id in w.order && id in w.heap && w.clock < w.heap[id].expiresAt
              then w.(heap := w.heap[id := Alive(w.heap[id], window, w.clock).(lastUsedAt := w.clock)])
              else w
  {
  }

  /** What a renewal does: the lease object, in the table or not, gets the window asked for, within its cap, and
      nothing else changes. */
  lemma RenewalSlidesTheWindow(w: Worker, id: nat, requested: Option<int>)
    requires forall x | x in w.heap :: w.heap[x].expiresAt <= w.heap[x].hardExpiresAt
    ensures var cap := if id in w.heap && w.heap[id].parked then w.config.parkTtl else w.config.ttl;
            var window := if requested.Some? && 0 < requested.value <= cap then requested.value else cap;
            RenewStep(w, id, requested) ==
              if id in w.heap
              then w.(heap := w.heap[id := Alive(w.heap[id], window, w.clock).(lastUsedAt := w.clock)])
              else w
  {
  }

  /** What a sweep does to a lease: a running command counts as activity now, unless the lease is parked. */
  lemma SweepSlidesTheBusy(c: Config, l: Lease, now: int)
    requires l.expiresAt <= l.hardExpiresAt
    ensures Swept(c, l, now)
            == if l.running == 0 || l.parked then l else Alive(l, c.idleTimeout, now).(busyAt := now)
  {
  }

  /** A park is allowed exactly if anything may be parked at all and the lease, once parked, outlives its grace
      window: otherwise it would expire before it could be preempted. */
  lemma ParkNeedsMoreThanGrace(w: Worker, id: nat)
    requires Validated(w.config) && id in w.heap
    ensures ParkAllowed(w, id) <==>
              && w.config.maxParkedPerUser != 0
              && w.clock + w.config.parkGrace < Parked(w.config, w.heap[id], w.clock).expiresAt
  {
  }

  lemma {:induction false} ReleaseAllSpares(w: Worker, ids: seq<nat>, id: nat)
    requires id !in ids
    ensures var v := ReleaseAll(w, ids);
            v.heap == w.heap && v.clock == w.clock && v.config == w.config && (id in v.order <==> id in w.order)
    decreases |ids|
  {
    if ids == [] {
    } else {
      WithoutFacts(w.order, ids[0]);
      ReleaseAllSpares(BeginRelease(w, ids[0]), ids[1..], id);
    }
  }

  /** A park drops as many leases as it has to, and never the one it parks. */
  lemma VictimsAreOthers(w: Worker, id: nat)
    requires Distinct(w.order) && id in w.heap
    ensures id !in QuotaVictims(w, id)
    ensures var mine := Without(ParkedOf(w, w.heap[id].username, w.order), id);
            |QuotaVictims(w, id)| == Max(0, Min(|mine|, |mine| - (w.config.maxParkedPerUser - 1)))
  {
    hide ParkedOf, Without, Oldest;
    ParkedOfFacts(w, w.heap[id].username, w.order);
    WithoutFacts(ParkedOf(w, w.heap[id].username, w.order), id);
    var mine := Without(ParkedOf(w, w.heap[id].username, w.order), id);
    var count := |mine| - (w.config.maxParkedPerUser - 1);
    OldestSplits(mine, ParkedSince(w), count);
    OldestSplitsDistinct(mine, ParkedSince(w), count);
  }

  /** A park that is allowed parks the lease, in the table or not; one that is not allowed does nothing. */
  lemma ParkTakesEffect(w: Worker, id: nat)
    requires Distinct(w.order) && id in w.heap
    ensures var v := ParkStep(w, id);
            if ParkAllowed(w, id) then
              && v.heap == w.heap[id := Parked(w.config, w.heap[id], w.clock)]
              && (id in v.order <==> id in w.order)
            else v == w
  {
    hide QuotaVictims, ParkAllowed;
    VictimsAreOthers(w, id);
    ReleaseAllSpares(w, QuotaVictims(w, id), id);
  }
}
