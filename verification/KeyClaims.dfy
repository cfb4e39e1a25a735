/** Who holds the keys of the sticky table. A key is locked only by a run that is going and owns it, so a turn
    that has ended never stands in the way of the next one, and what it left behind is what the next one gets. */
module KeyClaims {
  import opened Wrappers
  import opened LeaseRules
  import opened Sticky
  import opened Handover
  import W = WorkerRuns

  /** Run r may hold key k: it exists, has not ended, owns its key, and k is that key. */
  predicate Entitled(s: System, r: nat, k: string) {
    r in s.runs && !s.runs[r].phase.Done? && s.runs[r].owner && s.runs[r].key == k
  }

  predicate Claimant(s: System, k: string, r: nat) { k in s.sticky && s.sticky[k].busyRun == Some(r) }

  ghost predicate ClaimsLive(s: System) { forall k, r | Claimant(s, k, r) :: Entitled(s, r, k) }

  /** From s to t no claim is new, and runs keep their keys; those that end hold nothing any more. */
  ghost predicate NoNewClaims(s: System, t: System) {
    && (forall k, r | Claimant(t, k, r) :: Claimant(s, k, r))
    && (forall r | r in s.runs ::
          r in t.runs && t.runs[r].key == s.runs[r].key && t.runs[r].owner == s.runs[r].owner)
    && (forall r | r in s.runs && t.runs[r].phase.Done? && !s.runs[r].phase.Done? :: forall k :: !Claimant(t, k, r))
  }

  lemma ClaimsStayLive(s: System, t: System)
    requires ClaimsLive(s) && NoNewClaims(s, t)
    ensures ClaimsLive(t)
  {
    forall k, r | Claimant(t, k, r) ensures Entitled(t, r, k) { assert Claimant(s, k, r); }
  }

  /** A run of a new number claims its key, or finds it taken or stale. */
  lemma BeginClaims(s: System, r: nat, user: string, sessionKey: string, parkEnabled: bool, now: int)
    requires ClaimsLive(s)
    ensures ClaimsLive(BeginRun(s, r, user, sessionKey, parkEnabled, now))
  {
    var key, t := KeyOf(user, sessionKey), BeginRun(s, r, user, sessionKey, parkEnabled, now);
    hide KeyOf;
    forall k, q | Claimant(t, k, q) ensures Entitled(t, q, k) {
      assert Claimant(s, k, q) || (k == key && q == r);
    }
  }

  /** A run ends: its claim is the one thing that goes. */
  lemma EndClaims(s: System, t: System, r: nat)
    requires ClaimsLive(s) && r in s.runs && t.runs == s.runs[r := Over(s.runs[r])]
    requires forall k, q | Claimant(t, k, q) :: Claimant(s, k, q)
    requires s.runs[r].owner ==> !Claimant(t, s.runs[r].key, r)
    ensures ClaimsLive(t)
  {
    forall k ensures !Claimant(t, k, r) { assert Claimant(t, k, r) ==> Entitled(s, r, k); }
    ClaimsStayLive(s, t);
  }

  lemma FinishClaims(s: System, r: nat, park: bool, expiresAt: int)
    requires ClaimsLive(s)
    ensures ClaimsLive(FinishRun(s, r, park, expiresAt))
  {
    hide ClaimsLive;
    var t := FinishRun(s, r, park, expiresAt);
    if InPhase(s, r, Active) && s.runs[r].lease.None? { EndClaims(s, t, r); }
    else { ClaimsStayLive(s, t); }
  }

  lemma ParkReplyClaims(s: System, m: nat, expiresAt: int)
    requires ClaimsLive(s)
    ensures ClaimsLive(TakeParkReply(s, m, expiresAt))
  {
    hide ClaimsLive;
    var t := TakeParkReply(s, m, expiresAt);
    if m in s.net && s.net[m].ParkReply? && InPhase(s, s.net[m].run, Parking) && s.net[m].parked {
      EndClaims(s, t, s.net[m].run);
    } else {
      ClaimsStayLive(s, t);
    }
  }

  /** What happens at the worker is between the worker and the network. */
  lemma RequestLeavesRuns(s: System, e: Event)
    requires AboutMessage(e) && !e.DeliverPark? && !e.DeliverAttach? && !e.AdoptLease?
    ensures Next(s, e).runs == s.runs && Next(s, e).sticky == s.sticky
  {
    hide GetStep, BeginRelease, Accepts, MayAttach, ParkAllowed, ParkCommit, AttachStep, Attempt, W.Step;
  }

  lemma MessageClaims(s: System, e: Event)
    requires ClaimsLive(s) && AboutMessage(e) && !e.DeliverPark?
    ensures ClaimsLive(Next(s, e))
  {
    hide ClaimsLive, ReceiveAsk, DoAttach, Serve, BeginPark, BeginUse, CommitPark, TakeParkReply;
    if !e.DeliverAttach? && !e.AdoptLease? { RequestLeavesRuns(s, e); }
    ClaimsStayLive(s, Next(s, e));
  }

  /** A run changes its phase without ending, or what it has in hand. */
  lemma SessionClaims(s: System, t: System, r: nat)
    requires ClaimsLive(s) && (t.sticky == s.sticky || (r in s.runs && t.sticky == Forget(s.sticky, s.runs[r].key, r)))
    requires r in s.runs ==>
               && r in t.runs && t.runs == s.runs[r := t.runs[r]]
               && (t.runs[r].phase.Done? ==> s.runs[r].phase.Done?)
               && t.runs[r].key == s.runs[r].key && t.runs[r].owner == s.runs[r].owner
    requires r !in s.runs ==> t.runs == s.runs
    ensures ClaimsLive(t)
  {
    hide ClaimsLive;
    ClaimsStayLive(s, t);
  }

  lemma RunClaims(s: System, e: Event)
    requires ClaimsLive(s) && !AboutMessage(e) && !e.Begin? && !e.Finish? && !e.EndRelease?
    ensures ClaimsLive(Next(s, e))
  {
    hide ClaimsLive, W.Step, Forget;
    match e
    case TimeoutAttach(r) => if InPhase(s, r, Resuming) { SessionClaims(s, GiveUpAttach(s, r), r); }
    case SendAttach(r) => SessionClaims(s, StartAttach(s, r), r);
    case TimeoutPark(r) => if r in s.runs { SessionClaims(s, StartRelease(s, r), r); }
    case SkipResume(r) => SessionClaims(s, Next(s, e), r);
    case LoseLease(r) => SessionClaims(s, Next(s, e), r);
    case _ => ClaimsStayLive(s, Next(s, e));
  }

  lemma NextClaims(s: System, e: Event)
    requires ClaimsLive(s)
    ensures ClaimsLive(Next(s, e))
  {
    hide ClaimsLive, BeginRun, FinishRun, TakeParkReply;
    match e
    case Begin(r, user, sessionKey, parkEnabled, now) => BeginClaims(s, r, user, sessionKey, parkEnabled, now);
    case Finish(r, park, expiresAt) => FinishClaims(s, r, park, expiresAt);
    case DeliverPark(m, expiresAt) => ParkReplyClaims(s, m, expiresAt);
    case EndRelease(r) => if InPhase(s, r, Releasing) { EndClaims(s, Next(s, e), r); }
    case _ =>
      hide Next;
      if AboutMessage(e) { MessageClaims(s, e); } else { RunClaims(s, e); }
  }

  lemma {:induction false} PlayClaims(s: System, events: seq<Event>)
    requires ClaimsLive(s)
    ensures ClaimsLive(Play(s, events))
    decreases |events|
  {
    if events == [] {
    } else {
      hide ClaimsLive, Next;
      NextClaims(s, events[0]);
      PlayClaims(Next(s, events[0]), events[1..]);
    }
  }

  /** However runs, messages, evictions and failures interleave: whoever holds a key of the table is a run that
      is still going, owns its key, and holds that key and no other. */
  lemma KeysAreHeldByTheLiving(c: Config, slots: nat, now: int, events: seq<Event>)
    ensures var s := Play(Boot(c, slots, now), events);
            forall k | k in s.sticky && s.sticky[k].busyRun.Some? ::
              var r := s.sticky[k].busyRun.value;
              r in s.runs && !s.runs[r].phase.Done? && s.runs[r].owner && s.runs[r].key == k
  {
    hide Play;
    var s := Play(Boot(c, slots, now), events);
    PlayClaims(Boot(c, slots, now), events);
    forall k | k in s.sticky && s.sticky[k].busyRun.Some? ensures Entitled(s, s.sticky[k].busyRun.value, k) {
      assert Claimant(s, k, s.sticky[k].busyRun.value);
    }
  }

  predicate Taken(s: System, key: string) {
    exists r | r in s.runs :: !s.runs[r].phase.Done? && s.runs[r].owner && s.runs[r].key == key
  }

  /** So a session none of whose turns is going can always have its key: its next turn owns it. */
  lemma NextTurnOwnsItsKey(c: Config, slots: nat, now: int, events: seq<Event>,
                           next: nat, user: string, sessionKey: string, at: int)
    requires next !in Play(Boot(c, slots, now), events).runs && '\0' !in user
    requires !Taken(Play(Boot(c, slots, now), events), KeyOf(user, sessionKey))
    ensures var s := Next(Play(Boot(c, slots, now), events), Begin(next, user, sessionKey, true, at));
            next in s.runs && s.runs[next].owner && s.runs[next].key == KeyOf(user, sessionKey)
  {
    hide Play, KeyOf;
    KeysAreHeldByTheLiving(c, slots, now, events);
  }

  // ---- what one turn leaves to the next ----

  /** Nothing but the next turn of the session, or the table running full, touches what lies unlocked in it. */
  predicate Concerns(e: Event, key: string) {
    e == Evict(key) || (e.Begin? && KeyOf(e.user, e.sessionKey) == key)
  }

  predicate Lies(s: System, key: string, c: Cred, expiresAt: int) {
    key in s.sticky && s.sticky[key] == Entry(None, Some(c), expiresAt)
  }

  lemma NextLies(s: System, e: Event, key: string, c: Cred, expiresAt: int)
    requires Lies(s, key, c, expiresAt) && !Concerns(e, key)
    ensures Lies(Next(s, e), key, c, expiresAt)
  {
    hide KeyOf, W.Step;
    if AboutMessage(e) && !e.DeliverPark? && !e.DeliverAttach? && !e.AdoptLease? {
      hide Next;
      RequestLeavesRuns(s, e);
    }
  }

  lemma {:induction false} PlayLies(s: System, events: seq<Event>, key: string, c: Cred, expiresAt: int)
    requires Lies(s, key, c, expiresAt) && forall e | e in events :: !Concerns(e, key)
    ensures Lies(Play(s, events), key, c, expiresAt)
    decreases |events|
  {
    if events == [] {
    } else {
      hide Next, Concerns, Lies;
      assert events[0] in events && forall e | e in events[1..] :: e in events;
      NextLies(s, events[0], key, c, expiresAt);
      PlayLies(Next(s, events[0]), events[1..], key, c, expiresAt);
    }
  }

  /** A turn that ends with its lease parked, or with a handle it never used, leaves it to the next turn of the
      session: whatever the system does in between, that turn begins as the owner of its key, with the very
      credential in hand, and asks for the lease first. */
  lemma LeftForTheNextTurn(s: System, r: nat, c: Cred, e: Event, between: seq<Event>,
                           next: nat, user: string, sessionKey: string, now: int)
    requires r in s.runs && s.runs[r].key == KeyOf(user, sessionKey) && Claimant(s, s.runs[r].key, r)
    requires
      || (e.Finish? && e.run == r && InPhase(s, r, Active) && s.runs[r].owner
          && s.runs[r].lease.None? && s.runs[r].handle == Some(c))
      || (e.DeliverPark? && e.msg in s.net && s.net[e.msg] == ParkReply(r, true) && InPhase(s, r, Parking)
          && s.runs[r].lease == Some(c))
    requires forall b | b in between :: !Concerns(b, s.runs[r].key)
    requires next !in Play(Next(s, e), between).runs && '\0' !in user
    requires e.expiresAt == 0 || now < e.expiresAt
    ensures r in Next(s, e).runs && Next(s, e).runs[r].phase.Done?
    ensures var t := Next(Play(Next(s, e), between), Begin(next, user, sessionKey, true, now));
            && t.runs[next] == Session(user, s.runs[r].key, Starting, true, Some(c), None)
            && Claimant(t, s.runs[r].key, next)
            && var u := Next(t, SendAttach(next));
               t.nextMsg in u.net && u.net[t.nextMsg] == Ask(next, c, Attach) && InPhase(u, next, Resuming)
  {
    hide KeyOf, Play;
    PlayLies(Next(s, e), between, s.runs[r].key, c, e.expiresAt);
  }
}
