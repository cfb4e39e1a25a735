/** The lease manager as it runs: lease objects updated in place, a table in insertion order, and loops that
    look for victims and expired leases. Each method does to `State` exactly what the step functions of
    LeaseRules say. A method here is one uninterrupted stretch; the slot recycling that a release waits for
    happens after it (WorkerRuns). */
module LeaseManager {
  import opened Retention
  import opened Wrappers
  import opened LeaseRules

  class LeaseObject {
    const id: nat
    const username: string
    const slot: nat
    const createdAt: int
    const hardExpiresAt: int
    var token: nat
    var lastUsedAt: int
    var expiresAt: int
    var running: nat
    var parked: bool
    var parkedAt: int
    ghost var busyAt: int

    constructor (l: Lease)
      ensures View() == l && id == l.id
    {
      id, username, slot, createdAt, hardExpiresAt := l.id, l.username, l.slot, l.createdAt, l.hardExpiresAt;
      token, lastUsedAt, expiresAt := l.token, l.lastUsedAt, l.expiresAt;
      running, parked, parkedAt, busyAt := l.running, l.parked, l.parkedAt, l.busyAt;
    }

    ghost function View(): Lease
      reads this
    {
      Lease(id, username, slot, token, createdAt, hardExpiresAt, lastUsedAt, busyAt, expiresAt,
            running, parked, parkedAt)
    }

    method Extend(window: int, now: int)
      modifies this`expiresAt
      ensures View() == LeaseRules.Extend(old(View()), window, now)
    {
      var wanted := Min(now + window, hardExpiresAt);
      if wanted > expiresAt { expiresAt := wanted; }
    }
  }

  class Manager {
    const config: Config
    var slots: seq<Slot>
    var order: seq<nat>
    var table: map<nat, LeaseObject>
    var drawn: nat
    ghost var objects: map<nat, LeaseObject>
    ghost var closing: multiset<nat>
    ghost var recycling: multiset<nat>
    ghost var recycled: multiset<nat>
    ghost var failed: multiset<nat>
    ghost var poolCalls: multiset<nat>

    ghost predicate Valid()
      reads this
    {
      && Distinct(order)
      && (forall id :: id in order <==> id in table)
      && (forall id | id in table :: id in objects && objects[id] == table[id])
      && (forall id | id in objects :: objects[id].id == id && id < drawn)
    }

    ghost function State(now: int): Worker
      reads this, objects.Values
    {
      Worker(config, now, slots, order, Heap(), drawn, closing, recycling, recycled, failed, poolCalls)
    }

    ghost function Heap(): map<nat, Lease>
      reads this, objects.Values
    {
      map id | id in objects :: objects[id].View()
    }

    constructor (config: Config, slots: nat)
      ensures Valid() && objects == map[] && this.config == config && |this.slots| == slots
      ensures order == [] && forall s | s in this.slots :: s.Free?
    {
      this.config := config;
      this.slots := seq(slots, _ => Free);
      order, table, drawn, objects := [], map[], 0, map[];
      closing, recycling, recycled, failed, poolCalls := multiset{}, multiset{}, multiset{}, multiset{}, multiset{};
    }

    /** Only the object with this id may have changed, so the heap differs in that entry alone. */
    twostate lemma OneObjectChanged(id: nat)
      requires old(Valid()) && id in objects && objects == old(objects)
      requires forall k | k in objects && k != id :: unchanged(objects[k])
      ensures Heap() == old(Heap())[id := objects[id].View()]
    {
    }

    method Get(id: nat, now: int) returns (lease: LeaseObject?)
      requires Valid()
      modifies table.Values
      ensures Valid() && State(now) == GetStep(old(State(now)), id)
      ensures lease != null <==> old(Visible(State(now), id))
      ensures lease != null ==> id in objects && lease == objects[id]
    {
      if id !in table || table[id].expiresAt <= now {
        lease := null;
      } else {
        lease := table[id];
        Slide(lease, now);
      }
    }

    /** Activity on a visible lease: its window slides, a parked one only by the park window. */
    method Slide(lease: LeaseObject, now: int)
      requires Valid() && lease.id in objects && objects[lease.id] == lease
      modifies lease
      ensures Valid() && unchanged(this)
      ensures State(now)
              == old(State(now)).(heap := old(State(now)).heap[lease.id := Touch(config, old(lease.View()), now)])
    {
      var window := if lease.parked then config.parkTtl else config.idleTimeout;
      lease.Extend(window, now);
      lease.lastUsedAt := now;
      OneObjectChanged(lease.id);
    }

    method Renew(lease: LeaseObject, requested: Option<int>, now: int)
      requires Valid() && lease.id in objects && objects[lease.id] == lease
      modifies lease
      ensures Valid() && State(now) == RenewStep(old(State(now)), lease.id, requested)
    {
      var cap := if lease.parked then config.parkTtl else config.ttl;
      var window := if requested.Some? && requested.value > 0 then Min(requested.value, cap) else cap;
      lease.Extend(window, now);
      lease.lastUsedAt := now;
      OneObjectChanged(lease.id);
    }

    method Attach(lease: LeaseObject, now: int) returns (token: nat)
      requires Valid() && lease.id in objects && objects[lease.id] == lease
      modifies lease, this`drawn
      ensures Valid() && State(now) == AttachStep(old(State(now)), lease.id)
      ensures token == lease.token == old(drawn)
    {
      lease.parked := false;
      lease.parkedAt := 0;
      lease.lastUsedAt := now;
      token := drawn;
      lease.token := token;
      assert lease.View() == old(lease.View()).(parked := false, parkedAt := 0, lastUsedAt := now, token := token);
      lease.Extend(config.idleTimeout, now);
      drawn := drawn + 1;
      assert lease.View() == Attached(config, old(lease.View()), token, now);
      OneObjectChanged(lease.id);
    }

    /** releaseLease up to its first await. */
    method Release(id: nat, ghost now: int) returns (found: bool)
      requires Valid()
      modifies this`order, this`table, this`closing
      ensures Valid() && State(now) == BeginRelease(old(State(now)), id)
      ensures found <==> old(id in order)
    {
      hide Without;
      found := id in table;
      if found {
        WithoutFacts(order, id);
        table := table - {id};
        order := Without(order, id);
        closing := closing + multiset{id};
      }
    }

    method FindOldestParked(now: int) returns (victim: LeaseObject?)
      requires Valid()
      ensures var expected := LeaseRules.OldestParked(State(now), order);
              if expected.None? then victim == null
              else expected.value in table && victim == table[expected.value]
    {
      victim := null;
      ghost var w := State(now);
      for i := 0 to |order|
        invariant var expected := LeaseRules.OldestParked(w, order[..i]);
                  if expected.None? then victim == null
                  else expected.value in table && victim == table[expected.value]
      {
        var lease := table[order[i]];
        assert order[..i + 1][..i] == order[..i];
        assert w.heap[order[i]] == lease.View();
        if lease.parked && now - lease.parkedAt >= config.parkGrace {
          if victim == null || lease.parkedAt < victim.parkedAt { victim := lease; }
        }
      }
      assert order[..|order|] == order;
    }

    method MakeLease(slot: nat, username: string, ttl: Option<int>, now: int) returns (lease: LeaseObject)
      requires Valid() && slot < |slots|
      modifies this`order, this`table, this`slots, this`drawn, this`objects
      ensures Valid() && State(now) == Create(old(State(now)), slot, username, ttl)
      ensures fresh(lease) && lease.id == old(drawn) && lease.id in objects && objects[lease.id] == lease
    {
      hide Window, Valid;
      lease := new LeaseObject(NewLease(config, drawn, drawn + 1, slot, username, ttl, now));
      Register(lease, slot);
    }

    method Register(lease: LeaseObject, slot: nat)
      requires Valid() && slot < |slots| && lease.id == drawn
      modifies this`order, this`table, this`slots, this`drawn, this`objects
      ensures Valid() && order == old(order) + [lease.id] && slots == old(slots)[slot := Busy(lease.id)]
      ensures drawn == old(drawn) + 2 && objects == old(objects)[lease.id := lease]
      ensures Heap() == old(Heap())[lease.id := lease.View()]
    {
      var id := lease.id;
      assert id !in objects && id !in table;
      assert id !in order;
      slots := slots[slot := Busy(id)];
      order := order + [id];
      table := table[id := lease];
      objects := objects[id := lease];
      drawn := drawn + 2;
    }

    /** acquire up to its first await: a new lease, or a victim whose slot the caller must wait for. */
    method Acquire(username: string, ttl: Option<int>, now: int)
      returns (lease: LeaseObject?, ghost outcome: Acquisition)
      requires Valid()
      modifies this`order, this`table, this`slots, this`drawn, this`objects, this`closing
      ensures Valid() && (State(now), outcome) == AcquireStep(old(State(now)), username, ttl)
      ensures lease != null <==> outcome.Granted?
      ensures lease != null ==> fresh(lease) && lease.id in objects && objects[lease.id] == lease
    {
      var slot := FirstFree(slots);
      if slot < |slots| {
        outcome := Granted(drawn);
        lease := MakeLease(slot, username, ttl, now);
      } else {
        lease := null;
        var victim := FindOldestParked(now);
        if victim == null {
          outcome := Full;
        } else {
          outcome := Preempting(victim.id);
          var _ := Release(victim.id, now);
        }
      }
    }

    /** acquire after its wait: one more try. */
    method Retry(username: string, ttl: Option<int>, now: int)
      returns (lease: LeaseObject?, ghost outcome: Acquisition)
      requires Valid()
      modifies this`order, this`table, this`slots, this`drawn, this`objects
      ensures Valid() && (State(now), outcome) == RetryStep(old(State(now)), username, ttl)
      ensures lease != null <==> old(exists s :: s in slots && s.Free?)
      ensures lease != null ==> fresh(lease) && lease.id in objects && objects[lease.id] == lease
    {
      var slot := FirstFree(slots);
      FirstFreeFinds(slots);
      lease, outcome := null, Full;
      if slot < |slots| {
        outcome := Granted(drawn);
        lease := MakeLease(slot, username, ttl, now);
      }
    }

    method ListParkedOf(username: string, except: nat, ghost now: int) returns (mine: seq<nat>)
      requires Valid()
      ensures mine == Without(ParkedOf(State(now), username, order), except)
    {
      mine := [];
      ghost var w := State(now);
      for i := 0 to |order|
        invariant mine == Without(ParkedOf(w, username, order[..i]), except)
      {
        var id := order[i];
        var lease := table[id];
        ghost var before := ParkedOf(w, username, order[..i]);
        assert order[..i + 1][..i] == order[..i] && order[..i + 1][i] == id;
        assert id in w.heap && w.heap[id] == lease.View();
        assert ParkedOf(w, username, order[..i + 1]) == before + (if ParkedBy(w, id, username) then [id] else []);
        WithoutAppend(before, id, except);
        assert before + [] == before;
        if lease.parked && lease.username == username && id != except { mine := mine + [id]; }
      }
      assert order[..|order|] == order;
    }

    /** The leases a park has to drop first, longest parked first. */
    method ListVictims(lease: LeaseObject, ghost now: int) returns (victims: seq<nat>)
      requires Valid() && lease.id in objects && objects[lease.id] == lease
      ensures victims == QuotaVictims(State(now), lease.id)
    {
      hide ParkedOf, Oldest, Without, QuotaVictims;
      ghost var w := State(now);
      var mine := ListParkedOf(lease.username, lease.id, now);
      var since := map id | id in table :: table[id].parkedAt;
      victims := Oldest(mine, KeyOf(since), |mine| - (config.maxParkedPerUser - 1));
      assert w.heap[lease.id] == lease.View();
      KeysAgree(mine, since, w, lease.id);
    }

    method ReleaseEach(ids: seq<nat>, ghost now: int)
      requires Valid()
      modifies this`order, this`table, this`closing
      ensures Valid() && State(now) == ReleaseAll(old(State(now)), ids)
    {
      for i := 0 to |ids|
        invariant Valid() && ReleaseAll(State(now), ids[i..]) == ReleaseAll(old(State(now)), ids)
      {
        assert ids[i..][0] == ids[i] && ids[i..][1..] == ids[i + 1..];
        var _ := Release(ids[i], now);
      }
    }

    /** A park that is not interrupted while it waits for its victims. */
    method Park(lease: LeaseObject, now: int) returns (parked: bool)
      requires Valid() && lease.id in objects && objects[lease.id] == lease
      modifies lease, this`order, this`table, this`closing
      ensures Valid() && State(now) == ParkStep(old(State(now)), lease.id)
      ensures parked <==> old(ParkAllowed(State(now), lease.id))
    {
      hide QuotaVictims, ReleaseAll, Parked;
      ghost var w := State(now);
      assert w.heap[lease.id] == lease.View();
      parked := config.maxParkedPerUser > 0 && lease.hardExpiresAt - now > config.parkGrace;
      if parked {
        var victims := ListVictims(lease, now);
        ReleaseEach(victims, now);
        MarkParked(lease, now);
      }
    }

    method MarkParked(lease: LeaseObject, now: int)
      requires Valid() && lease.id in objects && objects[lease.id] == lease
      modifies lease
      ensures Valid()
      ensures State(now)
              == old(State(now)).(heap := old(Heap())[lease.id := Parked(config, old(Heap())[lease.id], now)])
    {
      lease.parked := true;
      lease.parkedAt := now;
      lease.lastUsedAt := now;
      lease.expiresAt := Min(now + config.parkTtl, lease.hardExpiresAt);
      OneObjectChanged(lease.id);
    }

    /** Busy leases are extended first; what has expired after that is collected. */
    method ScanExpired(now: int) returns (dead: seq<nat>)
      requires Valid()
      modifies table.Values
      ensures Valid()
      ensures dead == old(Expired(State(now), order))
      ensures State(now) == SweepTouch(old(State(now)), order)
    {
      hide Swept, Expired, SweepTouch;
      dead := [];
      ghost var w := State(now);
      assert order[..0] == [] && SweepTouch(w, []) == w && Expired(w, []) == [] by { NothingSwept(w); }
      for i := 0 to |order|
        invariant Heap() == SweepTouch(w, order[..i]).heap
        invariant dead == Expired(w, order[..i])
        invariant forall k | i <= k < |order| :: table[order[k]].View() == w.heap[order[k]]
      {
        var lease := table[order[i]];
        SweepStep(w, order, i);
        OthersDiffer(i);
        ScanOne(lease, now);
        if now >= lease.expiresAt { dead := dead + [order[i]]; }
      }
      assert order[..|order|] == order;
      SweepTouchKeepsShape(w, order);
    }

    lemma OthersDiffer(i: nat)
      requires Valid() && i < |order|
      ensures order[i] in table && table[order[i]] in table.Values
      ensures forall k | 0 <= k < |order| && k != i :: order[k] in table && table[order[k]] != table[order[i]]
    {
      forall k | 0 <= k < |order| && k != i ensures order[k] in table && table[order[k]] != table[order[i]] {
        assert order[k] in order && order[i] in order;
        assert objects[order[k]].id == order[k] && objects[order[i]].id == order[i];
      }
    }

    method ScanOne(lease: LeaseObject, now: int)
      requires Valid() && lease.id in objects && objects[lease.id] == lease
      modifies lease
      ensures lease.View() == Swept(config, old(lease.View()), now)
      ensures Heap() == old(Heap())[lease.id := lease.View()]
    {
      SweepOne(lease, now);
      OneObjectChanged(lease.id);
    }

    method SweepOne(lease: LeaseObject, now: int)
      modifies lease
      ensures lease.View() == Swept(config, old(lease.View()), now)
    {
      if lease.running > 0 && !lease.parked {
        lease.busyAt := now;
        lease.Extend(config.idleTimeout, now);
      }
    }

    /** One sweep: extend what is busy, collect what has expired, then release the collected leases. */
    method Sweep(now: int) returns (dead: seq<nat>)
      requires Valid()
      modifies table.Values, this`order, this`table, this`closing
      ensures Valid()
      ensures dead == old(Expired(State(now), order))
      ensures State(now) == ReleaseAll(SweepTouch(old(State(now)), old(order)), dead)
    {
      dead := ScanExpired(now);
      ReleaseEach(dead, now);
    }
  }

  lemma SweepStep(w: Worker, order: seq<nat>, i: nat)
    requires i < |order| && order[i] in SweepTouch(w, order[..i]).heap
    ensures var heap := SweepTouch(w, order[..i]).heap;
            SweepTouch(w, order[..i + 1]).heap == heap[order[i] := Swept(w.config, heap[order[i]], w.clock)]
    ensures Expired(w, order[..i + 1]) == Expired(w, order[..i])
            + (if order[i] in w.heap && Swept(w.config, w.heap[order[i]], w.clock).expiresAt <= w.clock
               then [order[i]] else [])
  {
    assert order[..i + 1][..i] == order[..i] && order[..i + 1][i] == order[i];
  }

  lemma {:induction false} WithoutAppend(ids: seq<nat>, last: nat, id: nat)
    ensures Without(ids + [last], id) == Without(ids, id) + (if last == id then [] else [last])
  {
    if ids == [] {
    } else {
      assert (ids + [last])[1..] == ids[1..] + [last];
      WithoutAppend(ids[1..], last, id);
    }
  }

  function KeyOf(since: map<nat, int>): nat -> int {
    id => if id in since then since[id] else 0
  }

  lemma NothingSwept(w: Worker)
    ensures SweepTouch(w, []) == w && Expired(w, []) == []
  {
  }

  /** The victims are found by the times the table shows. */
  lemma KeysAgree(mine: seq<nat>, since: map<nat, int>, w: Worker, id: nat)
    requires id in w.heap && mine == Without(ParkedOf(w, w.heap[id].username, w.order), id)
    requires forall x | x in w.order :: x in since && x in w.heap && since[x] == w.heap[x].parkedAt
    ensures Oldest(mine, KeyOf(since), |mine| - (w.config.maxParkedPerUser - 1)) == QuotaVictims(w, id)
  {
    hide ParkedOf, Without, SortBy, Oldest;
    ParkedOfFacts(w, w.heap[id].username, w.order);
    WithoutFacts(ParkedOf(w, w.heap[id].username, w.order), id);
    forall x | x in mine ensures KeyOf(since)(x) == ParkedSince(w)(x) { assert x in w.order; }
    SameKeys(mine, KeyOf(since), ParkedSince(w));
  }
}
