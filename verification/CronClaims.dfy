/** Several replicas tick over one table of cron tasks. Reading what is due and claiming a slot are
    separate; only the claim, a read-modify-write of one record, is atomic. */
module CronClaims {
  import opened Wrappers
  import opened Retention
  import opened CronSchedule
  import opened WallTime

  datatype Schedule = Calendar(fields: Fields, zone: Zone) | Every(everyMs: int, firstFireAt: Option<int>) | Unset

  /** A stored task. Absent times are fields that the record does not have. */
  datatype Task = Task(schedule: Schedule, createdAt: int, lastFiredAt: Option<int>, nextFireAt: Option<int>,
                       enabled: bool, archived: bool)

  datatype Due = Due(id: string, scheduledAt: int)

  const MAX_FIRES_PER_TICK := 5

  predicate Sane(t: Task) { t.schedule.Every? ==> t.schedule.everyMs > 0 }

  /** The slot after one fired at `firedAt`. */
  function Advance(s: Schedule, firedAt: int): Option<int> {
    match s
    case Calendar(fields, zone) => NextFire(fields, zone, firedAt)
    case Every(ms, _) => Some(firedAt + ms)
    case Unset => None
  }

  /** The slot a record is waiting for: the stored one, or else what its schedule gives. */
  function Recover(t: Task): Option<int> {
    if t.nextFireAt.Some? then t.nextFireAt
    else match t.schedule
      case Calendar(fields, zone) =>
        NextFire(fields, zone, if t.lastFiredAt.Some? then t.lastFiredAt.value else t.createdAt)
      case Every(ms, first) =>
        if t.lastFiredAt.Some? then Some(t.lastFiredAt.value + ms)
        else if first.Some? then first else Some(t.createdAt)
      case Unset => None
  }

  predicate Active(t: Task) { t.enabled && !t.archived }

  predicate Claimable(t: Task, scheduledAt: int) { Active(t) && Recover(t) == Some(scheduledAt) }

  /** The record after a successful claim: on to the next slot that is still ahead, not to the next in line. */
  function Claimed(t: Task, scheduledAt: int, at: int): Task {
    var from := if t.schedule.Calendar? && at < scheduledAt then scheduledAt else at;
    t.(lastFiredAt := Some(at), nextFireAt := Advance(t.schedule, from))
  }

  predicate IsDue(t: Task, now: int) { Active(t) && Recover(t).Some? && Recover(t).value <= now }

  /** The slot stored by a claim is later than the claim and, on a calendar, later than the slot claimed,
      even if the clock was behind; a claim made when its slot was due leaves the record waiting for a later
      time, or for none at all. */
  lemma ClaimMovesOn(t: Task, scheduledAt: int, at: int)
    requires Sane(t)
    ensures var next := Claimed(t, scheduledAt, at).nextFireAt;
            next.Some? ==> at < next.value && (t.schedule.Calendar? ==> scheduledAt < next.value)
    ensures scheduledAt <= at ==> var next := Recover(Claimed(t, scheduledAt, at)); next.Some? ==> at < next.value
    ensures Sane(Claimed(t, scheduledAt, at))
  {
    hide NextFire;
    if t.schedule.Calendar? {
      NextFireIsLater(t.schedule.fields, t.schedule.zone, at);
      NextFireIsLater(t.schedule.fields, t.schedule.zone, scheduledAt);
    }
  }

  lemma NextFireIsLater(f: Fields, zone: Zone, after: int)
    ensures NextFire(f, zone, after).Some? ==> after < NextFire(f, zone, after).value
  {
    hide NextFire, WallClock;
    NextFireIsSound(f, zone, after);
  }

  // ---- one replica's table ----

  type Tasks = map<string, Task>

  function DueOf(ids: seq<string>, tasks: Tasks, now: int): seq<Due> {
    if ids == [] then []
    else
      var id := ids[|ids| - 1];
      DueOf(ids[..|ids| - 1], tasks, now)
      + (if id in tasks && IsDue(tasks[id], now) then [Due(id, Recover(tasks[id]).value)] else [])
  }

  function TimeOf(): Due -> int { (d: Due) => d.scheduledAt }

  /** Every task that is due is listed, once, with the slot it waits for, and the earliest slots come first. */
  ghost predicate IsAgenda(due: seq<Due>, tasks: Tasks, now: int) {
    && (forall id :: (exists d | d in due :: d.id == id) <==>
          && id in tasks && tasks[id].enabled && !tasks[id].archived
          && Recover(tasks[id]).Some? && Recover(tasks[id]).value <= now)
    && (forall d | d in due :: d.id in tasks && Recover(tasks[d.id]) == Some(d.scheduledAt))
    && (forall i, j | 0 <= i < j < |due| :: due[i].id != due[j].id && due[i].scheduledAt <= due[j].scheduledAt)
  }

  /** The store: rows in key order, updated one record at a time. */
  class Store {
    var ids: seq<string>
    var tasks: Tasks

    ghost predicate Valid()
      reads this
    {
      Distinct(ids) && forall id :: id in ids <==> id in tasks
    }

    constructor (ids: seq<string>, tasks: Tasks)
      requires Distinct(ids) && forall id :: id in ids <==> id in tasks
      ensures Valid() && this.ids == ids && this.tasks == tasks
    {
      this.ids, this.tasks := ids, tasks;
    }

    /** What is due, earliest first. */
    method DueNow(now: int) returns (out: seq<Due>)
      requires Valid()
      ensures IsAgenda(out, tasks, now) && out == SortBy(DueOf(ids, tasks, now), TimeOf())
    {
      hide Recover, Active, IsAgenda, SortBy;
      out := [];
      for i := 0 to |ids|
        invariant out == DueOf(ids[..i], tasks, now)
      {
        assert ids[..i + 1][..i] == ids[..i];
        var task := tasks[ids[i]];
        if IsDue(task, now) {
          out := out + [Due(ids[i], Recover(task).value)];
        }
      }
      assert ids[..|ids|] == ids;
      DueIsAgenda(ids, tasks, now);
      out := SortBy(out, TimeOf());
    }

    /** Claims a slot if, at this moment, the record is on and waiting for exactly that slot. */
    method ClaimSlot(id: string, scheduledAt: int, at: int) returns (claimed: bool)
      requires Valid()
      modifies this`tasks
      ensures Valid()
      ensures claimed <==>
              && id in old(tasks) && old(tasks)[id].enabled && !old(tasks)[id].archived
              && Recover(old(tasks)[id]) == Some(scheduledAt)
      ensures tasks == if claimed then old(tasks)[id := Claimed(old(tasks)[id], scheduledAt, at)] else old(tasks)
    {
      hide Recover, Advance, IsDue;
      claimed := false;
      if id !in tasks { return; }
      var task := tasks[id];
      if task.archived || !task.enabled { return; }
      if Recover(task) != Some(scheduledAt) { return; }
      claimed := true;
      var from := if task.schedule.Calendar? then (if at < scheduledAt then scheduledAt else at) else at;
      tasks := tasks[id := task.(lastFiredAt := Some(at), nextFireAt := Advance(task.schedule, from))];
    }
  }

  class Scheduler {
    var ticking: bool
    constructor () ensures !ticking { ticking := false; }

    /** A tick that nothing else interrupts claims the earliest due tasks, as many as a tick may, and moves
        exactly those on; the rest wait for the next tick. */
    method Tick(store: Store, now: int) returns (fired: nat)
      requires store.Valid()
      modifies this, store`tasks
      ensures store.Valid() && ticking == old(ticking)
      ensures old(ticking) ==> fired == 0 && store.tasks == old(store.tasks)
      ensures !old(ticking) ==>
                var due := SortBy(DueOf(store.ids, old(store.tasks), now), TimeOf());
                && fired == (if |due| < 5 then |due| else 5)
                && store.tasks == Moved(old(store.tasks), due[..fired], now)
    {
      hide Recover, Claimed, SortBy, DueOf, AllDue, Moved, IsAgenda;
      fired := 0;
      if ticking { return; }
      ticking := true;
      var due := store.DueNow(now);
      ghost var before := store.tasks;
      var batch := if |due| < MAX_FIRES_PER_TICK then due else due[..MAX_FIRES_PER_TICK];
      assert batch == due[..|batch|];
      BatchIsDue(store.ids, before, now, |batch|);
      assert Moved(before, batch[..0], now) == before by { NothingMoved(before, now); }
      for i := 0 to |batch|
        invariant store.Valid() && store.ids == old(store.ids) && fired == i
        invariant store.tasks == Moved(before, batch[..i], now)
      {
        StillDue(before, batch, i, now);
        var claimed := store.ClaimSlot(batch[i].id, batch[i].scheduledAt, now);
        if claimed { fired := fired + 1; }
      }
      assert batch[..|batch|] == due[..fired];
      ticking := false;
    }
  }

  /** The table after these tasks have been claimed. */
  function Moved(tasks: Tasks, due: seq<Due>, now: int): Tasks {
    if due == [] then tasks
    else
      var rest, d := Moved(tasks, due[..|due| - 1], now), due[|due| - 1];
      if d.id in rest then rest[d.id := Claimed(rest[d.id], d.scheduledAt, now)] else rest
  }

  lemma {:induction false} MovedFacts(tasks: Tasks, due: seq<Due>, now: int)
    ensures Moved(tasks, due, now).Keys == tasks.Keys
    ensures forall id | id in tasks && (forall d | d in due :: d.id != id) :: Moved(tasks, due, now)[id] == tasks[id]
  {
    hide Claimed;
    if due == [] {
    } else {
      assert due == due[..|due| - 1] + [due[|due| - 1]];
      MovedFacts(tasks, due[..|due| - 1], now);
    }
  }

  lemma NothingMoved(tasks: Tasks, now: int)
    ensures Moved(tasks, [], now) == tasks
  {
  }

  /** What a tick sets out to fire is due. */
  lemma BatchIsDue(ids: seq<string>, tasks: Tasks, now: int, n: nat)
    requires Distinct(ids) && n <= |SortBy(DueOf(ids, tasks, now), TimeOf())|
    ensures AllDue(SortBy(DueOf(ids, tasks, now), TimeOf())[..n], tasks)
  {
    hide Recover, Active, Claimable, SortBy, DueOf;
    DueFacts(ids, tasks, now);
    SortByKeepsDue(DueOf(ids, tasks, now), tasks);
  }

  /** What was due before the tick is still unclaimed when its turn comes. */
  lemma StillDue(tasks: Tasks, due: seq<Due>, i: nat, now: int)
    requires i < |due| && AllDue(due, tasks)
    ensures var moved, d := Moved(tasks, due[..i], now), due[i];
            && d.id in moved && Claimable(moved[d.id], d.scheduledAt)
            && Moved(tasks, due[..i + 1], now) == moved[d.id := Claimed(moved[d.id], d.scheduledAt, now)]
  {
    hide Claimed, Claimable;
    MovedFacts(tasks, due[..i], now);
    assert due[..i + 1][..i] == due[..i] && due[i] in due;
  }

  ghost predicate AllDue(due: seq<Due>, tasks: Tasks) {
    && (forall i, j | 0 <= i < j < |due| :: due[i].id != due[j].id)
    && (forall d | d in due :: d.id in tasks && Claimable(tasks[d.id], d.scheduledAt))
  }

  lemma {:induction false} DueFacts(ids: seq<string>, tasks: Tasks, now: int)
    requires Distinct(ids)
    ensures AllDue(DueOf(ids, tasks, now), tasks)
    ensures forall d | d in DueOf(ids, tasks, now) :: d.id in ids && d.scheduledAt <= now
    ensures forall id | id in ids && id in tasks && IsDue(tasks[id], now) ::
              Due(id, Recover(tasks[id]).value) in DueOf(ids, tasks, now)
  {
    hide Recover, Active;
    if ids == [] {
    } else {
      var init, last := ids[..|ids| - 1], ids[|ids| - 1];
      assert ids == init + [last];
      DueFacts(init, tasks, now);
    }
  }

  lemma DueIsAgenda(ids: seq<string>, tasks: Tasks, now: int)
    requires Distinct(ids) && forall id :: id in ids <==> id in tasks
    ensures IsAgenda(SortBy(DueOf(ids, tasks, now), TimeOf()), tasks, now)
  {
    hide Recover, DueOf, SortBy;
    var due := DueOf(ids, tasks, now);
    var sorted := SortBy(due, TimeOf());
    DueFacts(ids, tasks, now);
    SortByKeepsDue(due, tasks);
    SortByIsSorted(due, TimeOf());
    forall d ensures d in sorted <==> d in due { assert d in multiset(sorted) <==> d in multiset(due); }
    forall i, j | 0 <= i < j < |sorted| ensures sorted[i].scheduledAt <= sorted[j].scheduledAt {
      assert TimeOf()(sorted[i]) <= TimeOf()(sorted[j]);
    }
    forall id ensures id in tasks && IsDue(tasks[id], now) <==> exists d | d in sorted :: d.id == id {
      if id in tasks && IsDue(tasks[id], now) { assert Due(id, Recover(tasks[id]).value) in sorted; }
    }
  }

  lemma SortByKeepsDue(due: seq<Due>, tasks: Tasks)
    requires AllDue(due, tasks)
    ensures AllDue(SortBy(due, TimeOf()), tasks)
  {
    hide Recover, Active, Claimable;
    var sorted := SortBy(due, TimeOf());
    SortByIsSorted(due, TimeOf());
    DistinctCounts(due);
    forall d | d in sorted ensures d in due && multiset(sorted)[d] == 1 {
      assert d in multiset(sorted) && d in multiset(due);
    }
    CountsDistinct(sorted);
    forall i, j | 0 <= i < j < |sorted| ensures sorted[i].id != sorted[j].id {
      assert sorted[i] in due && sorted[j] in due && sorted[i] != sorted[j];
    }
  }

  // ---- many replicas ----

  /** What a replica has read as due, with the clock reading of its tick. */
  datatype Snapshot = Snapshot(due: Due, now: int)

  datatype Claim = Claim(id: string, scheduledAt: int, at: int)

  /** `log` lists the successful claims in the order the database made them. */
  datatype World = World(tasks: Tasks, seen: map<nat, Snapshot>, log: seq<Claim>)

  datatype Event =
    | Read(snapshot: nat, id: string, now: int)   // some replica, by its own clock, finds a task due
    | Try(snapshot: nat)                          // and later tries to claim what it saw
    | SwitchOff(id: string)                       // too many failures

  function Next(w: World, e: Event): World {
    match e
    case Read(n, id, now) =>
      if id in w.tasks && IsDue(w.tasks[id], now)
      then w.(seen := w.seen[n := Snapshot(Due(id, Recover(w.tasks[id]).value), now)]) else w
    case Try(n) =>
      if n !in w.seen || w.seen[n].due.id !in w.tasks then w
      else
        var Snapshot(Due(id, scheduledAt), at) := w.seen[n];
        if Claimable(w.tasks[id], scheduledAt)
        then w.(tasks := w.tasks[id := Claimed(w.tasks[id], scheduledAt, at)],
                log := w.log + [Claim(id, scheduledAt, at)])
        else w
    case SwitchOff(id) => if id in w.tasks then w.(tasks := w.tasks[id := w.tasks[id].(enabled := false)]) else w
  }

  function Play(w: World, events: seq<Event>): World
    decreases |events|
  {
    if events == [] then w else Play(Next(w, events[0]), events[1..])
  }

  ghost predicate Ahead(w: World) {
    && (forall id | id in w.tasks :: Sane(w.tasks[id]))
    && (forall n | n in w.seen :: w.seen[n].due.scheduledAt <= w.seen[n].now)
    && (forall c | c in w.log :: c.scheduledAt <= c.at && c.id in w.tasks
          && (Recover(w.tasks[c.id]).Some? ==> c.at < Recover(w.tasks[c.id]).value))
    && (forall i, j | 0 <= i < j < |w.log| && w.log[i].id == w.log[j].id :: w.log[i].at < w.log[j].scheduledAt)
  }

  lemma NextKeepsAhead(w: World, e: Event)
    requires Ahead(w)
    ensures Ahead(Next(w, e))
  {
    hide Recover, Claimed;
    match e
    case Read(n, id, now) =>
    case Try(n) =>
      if n in w.seen && w.seen[n].due.id in w.tasks && Claimable(w.tasks[w.seen[n].due.id], w.seen[n].due.scheduledAt) {
        TryKeepsAhead(w, w.seen[n].due.id, w.seen[n].due.scheduledAt, w.seen[n].now);
      }
    case SwitchOff(id) =>
      if id in w.tasks { SwitchKeepsSlot(w.tasks[id], false); }
  }

  lemma SwitchKeepsSlot(t: Task, on: bool)
    ensures Recover(t.(enabled := on)) == Recover(t)
  {
    hide NextFire;
  }

  lemma TryKeepsAhead(w: World, id: string, scheduledAt: int, at: int)
    requires Ahead(w) && id in w.tasks && Claimable(w.tasks[id], scheduledAt) && scheduledAt <= at
    ensures Ahead(w.(tasks := w.tasks[id := Claimed(w.tasks[id], scheduledAt, at)],
                     log := w.log + [Claim(id, scheduledAt, at)]))
  {
    hide Recover, Claimed;
    ClaimMovesOn(w.tasks[id], scheduledAt, at);
  }

  lemma {:induction false} PlayKeepsAhead(w: World, events: seq<Event>)
    requires Ahead(w)
    ensures Ahead(Play(w, events))
    decreases |events|
  {
    hide Next, Ahead;
    if events == [] {
    } else {
      NextKeepsAhead(w, events[0]);
      PlayKeepsAhead(Next(w, events[0]), events[1..]);
    }
  }

  /** Whatever the replicas' clocks say and however their reads and claims interleave: the claims of one
      task have strictly increasing slots, each later than the time at which the one before was claimed. So
      no slot is claimed twice, and of the slots missed while nothing ran only one is made up for. */
  lemma SlotsAreClaimedOnce(tasks: Tasks, events: seq<Event>, i: nat, j: nat)
    requires forall id | id in tasks :: Sane(tasks[id])
    requires i < j < |Play(World(tasks, map[], []), events).log|
    requires var log := Play(World(tasks, map[], []), events).log; log[i].id == log[j].id
    ensures var log := Play(World(tasks, map[], []), events).log;
            log[i].scheduledAt <= log[i].at < log[j].scheduledAt <= log[j].at
  {
    hide Recover, Next;
    PlayKeepsAhead(World(tasks, map[], []), events);
  }

  /** After a claim the record waits for a slot later than the claim, or will never be claimed again. */
  lemma NextSlotIsAhead(tasks: Tasks, events: seq<Event>, c: Claim)
    requires forall id | id in tasks :: Sane(tasks[id])
    requires c in Play(World(tasks, map[], []), events).log
    ensures var w := Play(World(tasks, map[], []), events);
            c.id in w.tasks && match Recover(w.tasks[c.id])
                               case Some(next) => c.at < next
                               case None => forall slot :: !Claimable(w.tasks[c.id], slot)
  {
    hide Recover, Next;
    PlayKeepsAhead(World(tasks, map[], []), events);
  }

  /** A job that is switched off is not claimed any more. */
  lemma SwitchedOffStaysOff(w: World, events: seq<Event>, id: string)
    requires id in w.tasks
    ensures var off := Next(w, SwitchOff(id)); var end := Play(off, events);
            w.log <= end.log && forall i | |w.log| <= i < |end.log| :: end.log[i].id != id
  {
    OffGoesOn(Next(w, SwitchOff(id)), events, id);
  }

  lemma {:induction false} OffGoesOn(w: World, events: seq<Event>, id: string)
    requires id in w.tasks && !w.tasks[id].enabled
    ensures w.log <= Play(w, events).log
    ensures forall i | |w.log| <= i < |Play(w, events).log| :: Play(w, events).log[i].id != id
    decreases |events|
  {
    hide Recover;
    if events == [] {
    } else {
      OffGoesOn(Next(w, events[0]), events[1..], id);
    }
  }

  // ---- which slot comes next ----

  /** An interval counts from the claim, not from the slot. */
  lemma IntervalCountsFromTheClaim(t: Task, scheduledAt: int, at: int)
    requires t.schedule.Every?
    ensures Recover(Claimed(t, scheduledAt, at)) == Some(at + t.schedule.everyMs)
  {
  }

  /** ts is the first whole minute after `after`, within the days searched, that the expression names. */
  ghost predicate IsNextMinute(f: Fields, offset: int, after: int, ts: Option<int>) {
    var end := StartDay(Fixed(offset), after) + 366;
    if ts.Some? then
      && after < ts.value && MatchesAt(f, offset, ts.value) && DayAt(offset, ts.value) < end
      && forall x | after < x < ts.value :: !MatchesAt(f, offset, x)
    else forall x | after < x && DayAt(offset, x) < end :: !MatchesAt(f, offset, x)
  }

  /** A calendar goes on from whatever is later, the slot or the claim, to the first minute it names after that. */
  lemma CalendarGoesOnFromTheLater(t: Task, scheduledAt: int, at: int, f: Fields, offset: int)
    requires t.schedule == Calendar(f, Fixed(offset)) && offset % MINUTE == 0 && -DAY < offset < DAY
    ensures IsNextMinute(f, offset, if scheduledAt <= at then at else scheduledAt,
                         Claimed(t, scheduledAt, at).nextFireAt)
  {
    hide NextFire, MatchesAt, StartDay, DayAt;
    NextFireIsLeast(f, offset, if scheduledAt <= at then at else scheduledAt);
  }

  predicate Recoverable(t: Task) { Recover(t.(nextFireAt := None)) == Recover(t) }

  predicate LastOfTask(log: seq<Claim>, i: int) {
    0 <= i < |log| && forall j | i < j < |log| :: log[j].id != log[i].id
  }

  /** The record of a task is what its last claim made of it. */
  predicate MadeBy(t: Task, c: Claim) {
    c.scheduledAt <= c.at && t.lastFiredAt == Some(c.at) && t.nextFireAt == Advance(t.schedule, c.at)
  }

  /** Every task's last claim has made its record. */
  ghost predicate LastClaimsMade(tasks: Tasks, log: seq<Claim>) {
    && (forall c | c in log :: c.id in tasks)
    && (forall i | 0 <= i < |log| && LastOfTask(log, i) :: MadeBy(tasks[log[i].id], log[i]))
  }

  predicate Unclaimed(log: seq<Claim>, id: string) { forall c | c in log :: c.id != id }

  ghost predicate Settled(tasks: Tasks, w: World) {
    && w.tasks.Keys == tasks.Keys
    && (forall id | id in tasks :: w.tasks[id].schedule == tasks[id].schedule)
    && (forall n | n in w.seen :: w.seen[n].due.scheduledAt <= w.seen[n].now)
    && LastClaimsMade(w.tasks, w.log)
    && (forall id | id in tasks && Unclaimed(w.log, id) :: w.tasks[id] == tasks[id].(enabled := w.tasks[id].enabled))
  }

  lemma ClaimIsLast(tasks: Tasks, log: seq<Claim>, c: Claim, t: Task)
    requires LastClaimsMade(tasks, log) && c.id in tasks && MadeBy(t, c)
    ensures LastClaimsMade(tasks[c.id := t], log + [c])
  {
    hide LastOfTask, MadeBy;
    assert forall i | 0 <= i < |log + [c]| :: (log + [c])[i] == c || (log + [c])[i] in log;
    forall i | 0 <= i < |log + [c]| && LastOfTask(log + [c], i)
      ensures MadeBy(tasks[c.id := t][(log + [c])[i].id], (log + [c])[i])
    {
      LastAfterClaim(log, c, i);
    }
  }

  lemma UnclaimedBefore(log: seq<Claim>, c: Claim, id: string)
    ensures Unclaimed(log + [c], id) <==> Unclaimed(log, id) && id != c.id
  {
    assert forall x :: x in log + [c] <==> x in log || x == c;
  }

  lemma TrySettles(tasks: Tasks, w: World, id: string, scheduledAt: int, at: int)
    requires Settled(tasks, w) && id in w.tasks && scheduledAt <= at
    ensures Settled(tasks, w.(tasks := w.tasks[id := Claimed(w.tasks[id], scheduledAt, at)],
                              log := w.log + [Claim(id, scheduledAt, at)]))
  {
    hide LastClaimsMade, Unclaimed, Claimed, Claimable, Recover, Advance, IsDue, Active, NextFire, MadeBy, Sane;
    var c, t := Claim(id, scheduledAt, at), Claimed(w.tasks[id], scheduledAt, at);
    ClaimMakes(w.tasks[id], c);
    ClaimIsLast(w.tasks, w.log, c, t);
    var after := w.tasks[id := t];
    assert after.Keys == w.tasks.Keys;
    forall x | x in tasks && Unclaimed(w.log + [c], x) ensures after[x] == tasks[x].(enabled := after[x].enabled) {
      UnclaimedBefore(w.log, c, x);
    }
  }

  lemma ClaimMakes(t: Task, c: Claim)
    requires c.scheduledAt <= c.at
    ensures MadeBy(Claimed(t, c.scheduledAt, c.at), c) && Claimed(t, c.scheduledAt, c.at).schedule == t.schedule
  {
    hide Advance;
  }

  lemma LastIsInLog(log: seq<Claim>, i: int)
    requires LastOfTask(log, i)
    ensures 0 <= i < |log|
  {
  }

  lemma LastAfterClaim(log: seq<Claim>, c: Claim, i: int)
    requires LastOfTask(log + [c], i)
    ensures if i == |log| then (log + [c])[i] == c
            else LastOfTask(log, i) && (log + [c])[i] == log[i] && log[i].id != c.id
  {
    if i < |log| {
      assert (log + [c])[|log|].id != (log + [c])[i].id;
      assert forall j | i < j < |log| :: (log + [c])[j] == log[j];
    }
  }

  lemma MadeByWaits(t: Task, c: Claim)
    requires MadeBy(t, c)
    ensures Recoverable(t)
    ensures match t.schedule
            case Every(ms, _) => Recover(t) == Some(c.at + ms)
            case Calendar(f, zone) => Recover(t) == NextFire(f, zone, c.at)
            case Unset => Recover(t) == None
  {
    hide NextFire;
  }

  lemma NextSettles(tasks: Tasks, w: World, e: Event)
    requires Settled(tasks, w)
    ensures Settled(tasks, Next(w, e))
  {
    hide Recover, Claimed, Advance, LastOfTask;
    match e
    case Try(n) =>
      if n in w.seen && w.seen[n].due.id in w.tasks {
        TrySettles(tasks, w, w.seen[n].due.id, w.seen[n].due.scheduledAt, w.seen[n].now);
      }
    case _ =>
  }

  lemma {:induction false} PlaySettles(tasks: Tasks, w: World, events: seq<Event>)
    requires Settled(tasks, w)
    ensures Settled(tasks, Play(w, events))
    decreases |events|
  {
    hide Next, Settled;
    if events == [] {
    } else {
      NextSettles(tasks, w, events[0]);
      PlaySettles(tasks, Next(w, events[0]), events[1..]);
    }
  }

  /** Whatever the interleaving, the last claim of a job decides what it waits for: an interval for
      exactly its length after that claim, a calendar for what the search finds after it. A task that has not
      been claimed waits for what it was waiting for. */
  lemma LastClaimDecides(tasks: Tasks, events: seq<Event>, i: nat)
    requires LastOfTask(Play(World(tasks, map[], []), events).log, i)
    ensures var w := Play(World(tasks, map[], []), events); var c := w.log[i];
            && c.id in tasks && c.id in w.tasks && w.tasks[c.id].schedule == tasks[c.id].schedule
            && match tasks[c.id].schedule
               case Every(ms, _) => Recover(w.tasks[c.id]) == Some(c.at + ms)
               case Calendar(f, zone) => Recover(w.tasks[c.id]) == NextFire(f, zone, c.at)
               case Unset => Recover(w.tasks[c.id]) == None
  {
    hide NextFire, Play, Recover, MadeBy, LastOfTask;
    StartSettled(tasks, events);
    var w := Play(World(tasks, map[], []), events);
    assert 0 <= i < |w.log| by { LastIsInLog(w.log, i); }
    MadeByWaits(w.tasks[w.log[i].id], w.log[i]);
  }

  lemma StartSettled(tasks: Tasks, events: seq<Event>)
    ensures Settled(tasks, Play(World(tasks, map[], []), events))
  {
    assert Settled(tasks, World(tasks, map[], []));
    hide Settled;
    PlaySettles(tasks, World(tasks, map[], []), events);
  }

  lemma UnclaimedWaitsOn(tasks: Tasks, events: seq<Event>, id: string)
    requires id in tasks && Unclaimed(Play(World(tasks, map[], []), events).log, id)
    ensures var w := Play(World(tasks, map[], []), events);
            id in w.tasks && Recover(w.tasks[id]) == Recover(tasks[id])
  {
    hide NextFire, Play, Recover, MadeBy, LastOfTask;
    StartSettled(tasks, events);
    SwitchKeepsSlot(tasks[id], Play(World(tasks, map[], []), events).tasks[id].enabled);
  }

  /** In a zone with a fixed offset: the first minute the expression names after the claim. */
  lemma LastClaimDecidesMinute(tasks: Tasks, events: seq<Event>, i: nat, f: Fields, offset: int)
    requires LastOfTask(Play(World(tasks, map[], []), events).log, i) && offset % MINUTE == 0 && -DAY < offset < DAY
    requires var id := Play(World(tasks, map[], []), events).log[i].id;
             id in tasks && tasks[id].schedule == Calendar(f, Fixed(offset))
    ensures var w := Play(World(tasks, map[], []), events); var c := w.log[i];
            c.id in w.tasks && IsNextMinute(f, offset, c.at, Recover(w.tasks[c.id]))
  {
    hide NextFire, Next, MatchesAt, StartDay, DayAt, Recover;
    LastClaimDecides(tasks, events, i);
    NextFireIsLeast(f, offset, Play(World(tasks, map[], []), events).log[i].at);
  }

  // ---- a record that has lost its slot ----

  /** A record as it is created: the first slot is worked out at that moment. */
  predicate New(t: Task) {
    && t.lastFiredAt.None?
    && match t.schedule
       case Calendar(f, zone) => t.nextFireAt == NextFire(f, zone, t.createdAt)
       case Every(_, first) => first.Some? && t.nextFireAt == first
       case Unset => t.nextFireAt.None?
  }

  lemma NewIsRecoverable(t: Task)
    requires New(t)
    ensures Recoverable(t)
  {
    hide NextFire;
  }

  /** The slot a record waits for need not be stored: if it is lost at any time, what is worked out from the
      rest of the record is the very same slot. */
  lemma LostSlotIsRecovered(tasks: Tasks, events: seq<Event>, id: string)
    requires id in tasks && New(tasks[id])
    ensures var w := Play(World(tasks, map[], []), events);
            id in w.tasks && Recover(w.tasks[id].(nextFireAt := None)) == Recover(w.tasks[id])
  {
    hide Recover, Play, NextFire, Advance, MadeBy, LastOfTask;
    var w := Play(World(tasks, map[], []), events);
    StartSettled(tasks, events);
    if !Unclaimed(w.log, id) {
      var i := LastClaim(w.log, id);
      MadeByWaits(w.tasks[id], w.log[i]);
    } else {
      NewIsRecoverable(w.tasks[id]);
    }
  }

  lemma LastClaim(log: seq<Claim>, id: string) returns (i: nat)
    requires !Unclaimed(log, id)
    ensures LastOfTask(log, i) && log[i].id == id
  {
    i := |log| - 1;
    while log[i].id != id
      invariant 0 <= i < |log| && (forall j | i < j < |log| :: log[j].id != id)
      invariant exists k :: 0 <= k <= i && log[k].id == id
      decreases i
    {
      i := i - 1;
    }
  }
}
