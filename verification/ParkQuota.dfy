/** The park quota while parks wait: a park that has to drop leases first does so one at a time, and anything
    may happen in between but another park of the same user. */
module ParkQuota {
  import opened Retention
  import opened Wrappers
  import opened LeaseRules
  import opened WorkerRuns

  /** A park under way: its lease, its reading of the clock, the leases it still has to drop, and the parked
      ones it found that may stay. */
  datatype Pending = Pending(id: nat, at: int, victims: seq<nat>, stay: seq<nat>)

  datatype Parks = Parks(worker: Worker, open: map<string, Pending>)

  datatype Event =
    | Begin(id: nat)             // the checks, the clock and the list of victims
    | DropNext(user: string)     // the next victim leaves the table; the park waits for its slot
    | Commit(user: string)       // no victim is left: the lease is parked
    | Meanwhile(action: Action)  // anything else the worker does

  function Next(s: Parks, e: Event): Parks {
    match e
    case Begin(id) =>
      if id in s.worker.heap && ParkAllowed(s.worker, id)
      then s.(open := s.open[s.worker.heap[id].username :=
                Pending(id, s.worker.clock, QuotaVictims(s.worker, id), QuotaSurvivors(s.worker, id))])
      else s
    case DropNext(u) =>
      if u in s.open && s.open[u].victims != []
      then Parks(BeginRelease(s.worker, s.open[u].victims[0]),
                 s.open[u := s.open[u].(victims := s.open[u].victims[1..])])
      else s
    case Commit(u) =>
      if u in s.open && s.open[u].victims == []
      then Parks(ParkCommit(s.worker, s.open[u].id, s.open[u].at), s.open - {u})
      else s
    case Meanwhile(a) => s.(worker := Step(s.worker, a))
  }

  /** Parks go through their stages, and a user's next one begins only when the last is done. */
  predicate OneAtATime(s: Parks, e: Event) {
    && (e.Begin? && e.id in s.worker.heap ==> s.worker.heap[e.id].username !in s.open)
    && (e.Meanwhile? ==> !e.action.Park? && !e.action.LatePark?)
  }

  function Play(s: Parks, events: seq<Event>): Parks
    decreases |events|
  {
    if events == [] then s else Play(Next(s, events[0]), events[1..])
  }

  predicate Orderly(s: Parks, events: seq<Event>)
    decreases |events|
  {
    events == [] || (OneAtATime(s, events[0]) && Orderly(Next(s, events[0]), events[1..]))
  }

  // ---- what every step keeps ----

  /** Of the parked leases of its user, other than its own, a waiting park will drop all but its quota. */
  ghost predicate Prepared(w: Worker, u: string, p: Pending) {
    && p.id in w.heap && w.heap[p.id].username == u && p.at <= w.clock
    && |p.stay| < w.config.maxParkedPerUser
    && forall x | x in w.order && x != p.id && ParkedBy(w, x, u) :: x in p.victims || x in p.stay
  }

  ghost predicate Inv(s: Parks) {
    Conserved(s.worker) && WithinQuota(s.worker) && forall u | u in s.open :: Prepared(s.worker, u, s.open[u])
  }

  /** The worker moved on, and nobody's leases became parked. */
  ghost predicate NoneParked(w: Worker, v: Worker) {
    && v.config == w.config && w.clock <= v.clock
    && (forall id | id in w.heap :: id in v.heap && v.heap[id].username == w.heap[id].username)
    && (forall x, u | x in v.order && ParkedBy(v, x, u) :: x in w.order && ParkedBy(w, x, u))
  }

  lemma StillPrepared(w: Worker, v: Worker, u: string, p: Pending)
    requires Prepared(w, u, p) && NoneParked(w, v)
    ensures Prepared(v, u, p)
  {
  }

  lemma MeanwhileInv(s: Parks, a: Action)
    requires Inv(s) && !a.Park? && !a.LatePark?
    ensures Inv(Next(s, Meanwhile(a)))
  {
    hide Step, WithinQuota, Prepared, ParkedBy;
    var w, v := s.worker, Step(s.worker, a);
    StepConserved(w, a);
    StepAddsNoParked(w, a);
    StepKeepsShape(w, a);
    NothingMissing(w);
    StepKeepsOrigin(w, a);
    StepWithinQuota(w, a);
    forall u | u in s.open ensures Prepared(v, u, s.open[u]) { StillPrepared(w, v, u, s.open[u]); }
  }

  lemma NothingMissing(w: Worker)
    requires Conserved(w)
    ensures Distinct(w.order) && w.drawn !in w.heap
  {
  }

  lemma BeginInv(s: Parks, id: nat)
    requires Inv(s)
    ensures Inv(Next(s, Begin(id)))
  {
    if id in s.worker.heap && ParkAllowed(s.worker, id) {
      NothingMissing(s.worker);
      hide Conserved, WithinQuota, QuotaVictims, QuotaSurvivors;
      QuotaVictimsFacts(s.worker, id);
    }
  }

  lemma DropInv(s: Parks, u: string)
    requires Inv(s) && u in s.open && s.open[u].victims != []
    ensures Inv(Next(s, DropNext(u)))
  {
    hide Conserved, WithinQuota, BeginRelease;
    var w, victim := s.worker, s.open[u].victims[0];
    var v := BeginRelease(w, victim);
    BeginReleaseConserved(w, victim);
    NothingMissing(v);
    QuotaKept(w, v);
    forall q | q in s.open ensures Prepared(v, q, s.open[q]) { StillPrepared(w, v, q, s.open[q]); }
  }

  lemma CommitInv(s: Parks, u: string)
    requires Inv(s) && u in s.open && s.open[u].victims == []
    ensures Inv(Next(s, Commit(u)))
  {
    hide Conserved, WithinQuota, Parked;
    var w, p := s.worker, s.open[u];
    var v := ParkCommit(w, p.id, p.at);
    LatePark(w, p.id, p.at);
    CommitWithinQuota(w, u, p);
    forall q | q in s.open && q != u ensures Prepared(v, q, s.open[q]) {}
  }

  lemma LatePark(w: Worker, id: nat, at: int)
    requires Conserved(w) && id in w.heap && at <= w.clock
    ensures var v := ParkCommit(w, id, at);
            && Conserved(v) && v.order == w.order && v.config == w.config && v.clock == w.clock
            && v.heap == w.heap[id := v.heap[id]] && v.heap[id].username == w.heap[id].username && v.heap[id].parked
  {
    StepConserved(w, Action.LatePark(id, at));
  }

  lemma CommitWithinQuota(w: Worker, u: string, p: Pending)
    requires Conserved(w) && WithinQuota(w) && Prepared(w, u, p) && p.victims == []
    ensures WithinQuota(ParkCommit(w, p.id, p.at))
  {
    hide Conserved, ParkedOf;
    var v := ParkCommit(w, p.id, p.at);
    LatePark(w, p.id, p.at);
    NothingMissing(w);
    forall q ensures |ParkedOf(v, q, v.order)| <= v.config.maxParkedPerUser {
      ParkedOfFacts(v, q, v.order);
      ParkedOfFacts(w, q, w.order);
      SubsetIsShorter(ParkedOf(v, q, v.order), if q == u then [p.id] + p.stay else ParkedOf(w, q, w.order));
    }
  }

  lemma NextInv(s: Parks, e: Event)
    requires Inv(s) && OneAtATime(s, e)
    ensures Inv(Next(s, e))
  {
    hide Inv;
    match e
    case Begin(id) => BeginInv(s, id);
    case DropNext(u) => if u in s.open && s.open[u].victims != [] { DropInv(s, u); }
    case Commit(u) => if u in s.open && s.open[u].victims == [] { CommitInv(s, u); }
    case Meanwhile(a) => MeanwhileInv(s, a);
  }

  lemma {:induction false} PlayInv(s: Parks, events: seq<Event>)
    requires Inv(s) && Orderly(s, events)
    ensures Inv(Play(s, events)) && Play(s, events).worker.config == s.worker.config
    decreases |events|
  {
    hide Inv, Next, OneAtATime;
    if events == [] {
    } else {
      NextInv(s, events[0]);
      NextKeepsConfig(s, events[0]);
      PlayInv(Next(s, events[0]), events[1..]);
    }
  }

  lemma NextKeepsConfig(s: Parks, e: Event)
    ensures Next(s, e).worker.config == s.worker.config
  {
    hide Step;
    if e.Meanwhile? { StepKeepsShape(s.worker, e.action); }
  }

  /** No user ever has more parked leases than allowed, also while parks wait for the leases they drop and
      whatever else runs in between, as long as no user has two parks under way at once. */
  lemma QuotaHoldsWhileWaiting(c: Config, slots: nat, now: int, events: seq<Event>)
    requires Validated(c) && Orderly(Parks(Boot(c, slots, now), map[]), events)
    ensures var w := Play(Parks(Boot(c, slots, now), map[]), events).worker;
            forall u :: |ParkedOf(w, u, w.order)| <= c.maxParkedPerUser
  {
    var s := Parks(Boot(c, slots, now), map[]);
    assert Inv(s);
    PlayInv(s, events);
  }

  // ---- two parks of one user at once ----

  /** A park of `a`, and one of `b` that begins while the first waits, if it has to wait: within the quota it
      has one lease to drop at most. */
  function TwoParks(w: Worker, a: nat, b: nat): Worker
    requires a in w.heap
  {
    if ParkAllowed(w, a) && QuotaVictims(w, a) != []
    then ParkCommit(ParkIn(BeginRelease(w, QuotaVictims(w, a)[0]), b), a, w.clock)
    else ParkIn(ParkStep(w, a), b)
  }

  function ParkIn(w: Worker, id: nat): Worker { if id in w.heap then ParkStep(w, id) else w }

  function ParkedCount(w: Worker, u: string): nat { |ParkedOf(w, u, w.order)| }

  predicate InUseBy(w: Worker, id: nat, u: string) {
    id in w.order && id in w.heap && w.heap[id].username == u && !w.heap[id].parked
  }

  /** A park has to drop a lease exactly if the user's quota is full, and then just one. */
  lemma OneVictim(w: Worker, u: string, a: nat)
    requires Distinct(w.order) && WithinQuota(w) && InUseBy(w, a, u) && w.config.maxParkedPerUser > 0
    ensures |QuotaVictims(w, a)| == if ParkedCount(w, u) == w.config.maxParkedPerUser then 1 else 0
    ensures forall c | c in QuotaVictims(w, a) :: c in w.order && ParkedBy(w, c, u)
  {
    hide SortBy, Oldest;
    ParkedOfFacts(w, u, w.order);
    WithoutFacts(ParkedOf(w, u, w.order), a);
    assert a !in ParkedOf(w, u, w.order);
    OldestSplits(ParkedOf(w, u, w.order), ParkedSince(w), ParkedCount(w, u) - (w.config.maxParkedPerUser - 1));
    QuotaVictimsFacts(w, a);
  }

  /** Lists of parked leases are as long as what is in them. */
  lemma CountOf(w: Worker, u: string, ids: seq<nat>)
    requires Distinct(w.order) && Distinct(ids) && forall x :: x in ids <==> x in w.order && ParkedBy(w, x, u)
    ensures ParkedCount(w, u) == |ids|
  {
    ParkedOfFacts(w, u, w.order);
    SubsetIsShorter(ids, ParkedOf(w, u, w.order));
    SubsetIsShorter(ParkedOf(w, u, w.order), ids);
  }

  lemma Dropped(w: Worker, u: string, c: nat)
    requires Distinct(w.order) && WithinQuota(w) && c in w.order && ParkedBy(w, c, u)
    ensures var v := BeginRelease(w, c);
            && v == w.(order := v.order, closing := v.closing) && Distinct(v.order) && WithinQuota(v)
            && (forall x :: x in v.order <==> x in w.order && x != c) && ParkedCount(v, u) == ParkedCount(w, u) - 1
  {
    hide ParkedOf, Without, WithinQuota;
    var v, all := BeginRelease(w, c), ParkedOf(w, u, w.order);
    WithoutFacts(w.order, c);
    ParkedOfFacts(w, u, w.order);
    WithoutFacts(all, c);
    CountOf(v, u, Without(all, c));
    QuotaKept(w, v);
  }

  /** A lease in use is parked: one more. */
  lemma ParkedOneMore(w: Worker, v: Worker, u: string, id: nat)
    requires Distinct(w.order) && InUseBy(w, id, u) && v.order == w.order && ParkedBy(v, id, u)
    requires forall x | x in w.order && x != id :: ParkedBy(v, x, u) == ParkedBy(w, x, u)
    ensures ParkedCount(v, u) == ParkedCount(w, u) + 1
  {
    hide ParkedOf;
    ParkedOfFacts(w, u, w.order);
    CountOf(v, u, [id] + ParkedOf(w, u, w.order));
  }

  /** Parking by itself, with nothing to drop. */
  lemma ParkedNow(w: Worker, id: nat, at: int)
    requires id in w.heap && at <= w.clock
    ensures var v := ParkCommit(w, id, at);
            && v == w.(heap := v.heap) && v.heap == w.heap[id := v.heap[id]]
            && v.heap[id].parked && v.heap[id].username == w.heap[id].username
    ensures ParkAllowed(w, id) && QuotaVictims(w, id) == [] ==> ParkStep(w, id) == ParkCommit(w, id, w.clock)
  {
    hide QuotaVictims;
  }

  lemma CommitsOne(w: Worker, u: string, a: nat, at: int)
    requires Distinct(w.order) && WithinQuota(w) && InUseBy(w, a, u) && at <= w.clock
    requires ParkedCount(w, u) < w.config.maxParkedPerUser
    ensures WithinQuota(ParkCommit(w, a, at))
  {
    hide ParkedOf;
    var v := ParkCommit(w, a, at);
    ParkedNow(w, a, at);
    hide Parked;
    ParkedOneMore(w, v, u, a);
    forall q ensures |ParkedOf(v, q, v.order)| <= v.config.maxParkedPerUser {
      if q != u {
        ParkedOfFacts(w, q, w.order);
        CountOf(v, q, ParkedOf(w, q, w.order));
      }
    }
  }

  /** Once the first park has dropped its lease, the second has none to drop, and both park. */
  lemma BothPark(w: Worker, u: string, a: nat, b: nat)
    requires Distinct(w.order) && WithinQuota(w) && InUseBy(w, a, u) && InUseBy(w, b, u) && a != b
    requires ParkedCount(w, u) == w.config.maxParkedPerUser - 1
    ensures var v := ParkCommit(ParkIn(w, b), a, w.clock);
            && v.config == w.config
            && ParkedCount(v, u) == w.config.maxParkedPerUser + (if ParkAllowed(w, b) then 1 else 0)
            && (!ParkAllowed(w, b) ==> WithinQuota(v))
  {
    hide WithinQuota, QuotaVictims, ParkedCount, Parked, ParkedOf;
    var w2 := ParkIn(w, b);
    if ParkAllowed(w, b) {
      OneVictim(w, u, b);
      ParkedNow(w, b, w.clock);
      ParkedOneMore(w, w2, u, b);
    } else {
      CommitsOne(w, u, a, w.clock);
    }
    ParkedNow(w2, a, w.clock);
    ParkedOneMore(w2, ParkCommit(w2, a, w.clock), u, a);
  }

  lemma FullQuotaExceeded(w: Worker, u: string, a: nat, b: nat)
    requires Conserved(w) && WithinQuota(w) && InUseBy(w, a, u) && InUseBy(w, b, u) && a != b
    requires ParkAllowed(w, a) && ParkedCount(w, u) == w.config.maxParkedPerUser
    ensures ParkedCount(TwoParks(w, a, b), u)
            == w.config.maxParkedPerUser + if ParkAllowed(w, b) then 1 else 0
    ensures TwoParks(w, a, b).config == w.config
    ensures !ParkAllowed(w, b) ==> WithinQuota(TwoParks(w, a, b))
  {
    NothingMissing(w);
    hide Conserved, WithinQuota, QuotaVictims, ParkedCount, BeginRelease, ParkIn, ParkCommit;
    OneVictim(w, u, a);
    var c := QuotaVictims(w, a)[0];
    assert c in QuotaVictims(w, a);
    Dropped(w, u, c);
    BothPark(BeginRelease(w, c), u, a, b);
  }

  /** The first of two parks has nothing to drop, so they run one after the other. */
  lemma RoomForBoth(w: Worker, u: string, a: nat, b: nat)
    requires Conserved(w) && WithinQuota(w) && InUseBy(w, a, u) && b in w.heap
    requires !ParkAllowed(w, a) || ParkedCount(w, u) < w.config.maxParkedPerUser
    ensures WithinQuota(TwoParks(w, a, b))
  {
    NothingMissing(w);
    hide Conserved, WithinQuota, QuotaVictims;
    if ParkAllowed(w, a) { OneVictim(w, u, a); }
    var v := ParkStep(w, a);
    ParkWithinQuota(w, a);
    ReleaseAllKeepsShape(w, QuotaVictims(w, a));
    if b in v.heap { ParkWithinQuota(v, b); }
  }

  /** Two parks of leases a user has in use, the second of which begins while the first waits, exceed the quota
      exactly if the quota was full when the first began and neither is refused; then by one, whatever the
      quota is. */
  lemma TwoParksExceed(w: Worker, u: string, a: nat, b: nat)
    requires Conserved(w) && WithinQuota(w) && InUseBy(w, a, u) && InUseBy(w, b, u) && a != b
    ensures !WithinQuota(TwoParks(w, a, b))
            <==> ParkAllowed(w, a) && ParkAllowed(w, b) && ParkedCount(w, u) == w.config.maxParkedPerUser
    ensures !WithinQuota(TwoParks(w, a, b)) ==>
              ParkedCount(TwoParks(w, a, b), u) == TwoParks(w, a, b).config.maxParkedPerUser + 1
  {
    assert ParkedCount(w, u) <= w.config.maxParkedPerUser;
    if ParkAllowed(w, a) && ParkedCount(w, u) == w.config.maxParkedPerUser {
      FullQuotaExceeded(w, u, a, b);
    } else {
      RoomForBoth(w, u, a, b);
    }
  }

  /** The steps of the worker in two such parks. */
  function Overlap(w: Worker, a: nat, b: nat): seq<Action>
    requires a in w.heap
  {
    if ParkAllowed(w, a) && QuotaVictims(w, a) != []
    then [Action.Release(QuotaVictims(w, a)[0]), Action.Park(b), Action.LatePark(a, w.clock)]
    else [Action.Park(a), Action.Park(b)]
  }

  lemma ParkSteps(w: Worker, id: nat, at: int)
    ensures Step(w, Action.Release(id)) == BeginRelease(w, id) && Step(w, Action.Park(id)) == ParkIn(w, id)
    ensures Step(w, Action.LatePark(id, at)) == ParkCommit(w, id, at)
  {
  }

  lemma OverlapRuns(w: Worker, a: nat, b: nat)
    requires a in w.heap
    ensures Run(w, Overlap(w, a, b)) == TwoParks(w, a, b)
  {
    hide Step, Run, ParkStep, ParkCommit, BeginRelease, QuotaVictims, ParkAllowed;
    if ParkAllowed(w, a) && QuotaVictims(w, a) != [] {
      var victim := QuotaVictims(w, a)[0];
      var w1 := BeginRelease(w, victim);
      RunThree(w, Action.Release(victim), Action.Park(b), Action.LatePark(a, w.clock));
      ParkSteps(w, victim, 0);
      ParkSteps(w1, b, 0);
      ParkSteps(ParkIn(w1, b), a, w.clock);
    } else {
      RunTwo(w, Action.Park(a), Action.Park(b));
      ParkSteps(w, a, 0);
      ParkSteps(ParkStep(w, a), b, 0);
    }
  }

  lemma RunFirst(w: Worker, x: Action, rest: seq<Action>)
    ensures Run(w, [x] + rest) == Run(Step(w, x), rest)
  {
    hide Step;
    assert ([x] + rest)[1..] == rest;
  }

  lemma RunTwo(w: Worker, x: Action, y: Action)
    ensures Run(w, [x, y]) == Step(Step(w, x), y)
  {
    hide Step;
    assert [x, y] == [x] + [y] && [y] == [y] + [];
    RunFirst(w, x, [y]);
    RunFirst(Step(w, x), y, []);
  }

  lemma RunThree(w: Worker, x: Action, y: Action, z: Action)
    ensures Run(w, [x, y, z]) == Step(Step(Step(w, x), y), z)
  {
    hide Step, Run;
    assert [x, y, z] == [x] + [y, z];
    RunFirst(w, x, [y, z]);
    RunTwo(Step(w, x), y, z);
  }

  // ---- a worker in which it happens ----

  const LIMITS := Config(1000, 1000, 100000, 500, 10, 1)

  const OPENING: seq<Action> := [Action.Acquire("u", None), Action.Acquire("u", None), Action.Acquire("u", None),
                                 Action.Park(0)]

  function Guest(id: nat, slot: nat, parked: bool): Lease {
    Lease(id, "u", slot, id + 1, 0, 100000, 0, 0, if parked then 500 else 1000, 0, parked, 0)
  }

  function House(slots: seq<Slot>, order: seq<nat>, heap: map<nat, Lease>, drawn: nat): Worker {
    Worker(LIMITS, 0, slots, order, heap, drawn, multiset{}, multiset{}, multiset{}, multiset{}, multiset{})
  }

  function Full(parked: bool): Worker {
    House([Busy(0), Busy(2), Busy(4)], [0, 2, 4],
          map[0 := Guest(0, 0, parked), 2 := Guest(2, 1, false), 4 := Guest(4, 2, false)], 6)
  }

  function OneGuest(): Worker { House([Busy(0), Free, Free], [0], map[0 := Guest(0, 0, false)], 2) }

  function TwoGuests(): Worker {
    House([Busy(0), Busy(2), Free], [0, 2], map[0 := Guest(0, 0, false), 2 := Guest(2, 1, false)], 4)
  }

  lemma FirstComes()
    ensures Step(Boot(LIMITS, 3, 0), OPENING[0]) == OneGuest()
  {
    EmptyHouse();
    hide Step, Boot;
    Acquired(House([Free, Free, Free], [], map[], 0), OneGuest(), 0);
  }

  lemma SecondComes()
    ensures Step(OneGuest(), OPENING[1]) == TwoGuests()
  {
    hide Step;
    Acquired(OneGuest(), TwoGuests(), 1);
  }

  lemma ThirdComes()
    ensures Step(TwoGuests(), OPENING[2]) == Full(false)
  {
    hide Step;
    Acquired(TwoGuests(), Full(false), 2);
  }

  lemma Opened()
    ensures Run(Boot(LIMITS, 3, 0), OPENING) == Full(true)
  {
    hide Step, Run, Boot, OneGuest, TwoGuests, Full;
    FirstComes();
    SecondComes();
    ThirdComes();
    FirstParks();
    assert OPENING == [OPENING[0]] + [OPENING[1], OPENING[2], OPENING[3]];
    RunFirst(Boot(LIMITS, 3, 0), OPENING[0], [OPENING[1], OPENING[2], OPENING[3]]);
    RunThree(OneGuest(), OPENING[1], OPENING[2], OPENING[3]);
  }

  lemma EmptyHouse()
    ensures Boot(LIMITS, 3, 0) == House([Free, Free, Free], [], map[], 0)
  {
  }

  lemma Acquired(w: Worker, v: Worker, slot: nat)
    requires slot < |w.slots| && w.slots[slot].Free? && forall j | 0 <= j < slot :: w.slots[j].Busy?
    requires w.config == LIMITS && w.clock == 0
    requires v == w.(slots := w.slots[slot := Busy(w.drawn)], order := w.order + [w.drawn],
                     heap := w.heap[w.drawn := Guest(w.drawn, slot, false)], drawn := w.drawn + 2)
    ensures Step(w, Action.Acquire("u", None)) == v
  {
    hide FirstFree;
    assert FirstFree(w.slots) == slot;
  }

  lemma FirstParks()
    ensures Step(Full(false), Action.Park(0)) == Full(true)
  {
    hide QuotaVictims, Full;
    NothingToDrop();
    FullFacts();
    ParkedNow(Full(false), 0, 0);
  }

  lemma FullFacts()
    ensures 0 in Full(false).heap && ParkAllowed(Full(false), 0) && Full(false).clock == 0
    ensures ParkCommit(Full(false), 0, 0) == Full(true)
  {
  }

  lemma OneParked()
    ensures ParkedCount(Full(true), "u") == 1
  {
    CountOf(Full(true), "u", [0]);
  }

  lemma NothingToDrop()
    ensures QuotaVictims(Full(false), 0) == []
  {
    CountOf(Full(false), "u", []);
    NobodyParked();
    hide ParkedOf, QuotaVictims, WithinQuota, ParkedCount;
    OneVictim(Full(false), "u", 0);
  }

  lemma NobodyParked()
    ensures WithinQuota(Full(false))
  {
    forall q ensures |ParkedOf(Full(false), q, Full(false).order)| <= 1 {
      CountOf(Full(false), q, []);
    }
  }

  /** A user with one parked lease, which is the quota, and two in use; two overlapping parks leave two. */
  lemma FullQuotaIsReached()
    ensures var w := Run(Boot(LIMITS, 3, 0), OPENING);
            && InUseBy(w, 2, "u") && InUseBy(w, 4, "u")
            && WithinQuota(w) && !WithinQuota(Run(w, Overlap(w, 2, 4)))
  {
    Opened();
    OneParked();
    FullIsSound();
    hide Run, Step, Conserved, WithinQuota, ParkedCount, Overlap, TwoParks;
    TwoParksExceed(Full(true), "u", 2, 4);
    OverlapRuns(Full(true), 2, 4);
  }

  lemma FullIsSound()
    ensures Conserved(Full(true)) && WithinQuota(Full(true))
  {
    var w0 := Boot(LIMITS, 3, 0);
    assert Conserved(w0) && WithinQuota(w0);
    hide Run, Step, Conserved, WithinQuota, Boot, Full;
    RunConserved(w0, OPENING);
    RunWithinQuota(w0, OPENING);
    Opened();
  }
}
