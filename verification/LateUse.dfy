/** Commands under way when their run ends. If no run ends while a command of its is under way, a lease in use
    is touched by the commands of its user run only; otherwise not. */
module LateUse {
  import opened Wrappers
  import opened LeaseRules
  import opened Sticky
  import opened Handover
  import W = WorkerRuns

  predicate AboutUse(m: Msg) { m.UseAdmitted? || (m.Ask? && m.verb == Use) }

  predicate UseMsg(s: System, m: nat) { m in s.net && AboutUse(s.net[m]) }

  function UseOf(m: Msg): nat
    requires AboutUse(m)
  {
    if m.UseAdmitted? then m.lease else m.cred.lease
  }

  predicate Idle(s: System, r: nat) { forall m | m in s.net && AboutUse(s.net[m]) :: s.net[m].run != r }

  /** A run ends only when no command of its is under way, and sends commands only while it is going. */
  predicate Careful(s: System, e: Event) {
    (e.Finish? ==> Idle(s, e.run)) && (e.SendUse? ==> InPhase(s, e.run, Active))
  }

  predicate AllCareful(s: System, events: seq<Event>)
    decreases |events|
  {
    events == [] || (Careful(s, events[0]) && AllCareful(Next(s, events[0]), events[1..]))
  }

  /** The run of a use is going, and nobody else has a way to the lease. */
  ghost predicate UseInOrder(s: System, m: Msg)
    requires AboutUse(m)
  {
    InPhase(s, m.run, Active) && forall p | Has(s, p, UseOf(m)) :: p == ByRun(m.run)
  }

  ghost predicate UsesLinked(s: System) { forall m | UseMsg(s, m) :: UseInOrder(s, s.net[m]) }

  /** From s to t no use is new, runs with a use stay active, and custody stays or moves from p to q, where p
      is not a run with a use. */
  ghost predicate Carries(s: System, t: System, p: Place, q: Place) {
    && (forall m | UseMsg(t, m) :: UseMsg(s, m) && t.net[m] == s.net[m])
    && (forall r | InPhase(s, r, Active) :: InPhase(t, r, Active) || Idle(t, r))
    && (forall x, l | Has(t, x, l) :: Has(s, x, l) || (x == q && Has(s, p, l)))
    && (p == q || (p.ByRun? ==> Idle(t, p.run)))
  }

  const NOWHERE := ByMsg(0)

  ghost predicate Keeps(s: System, t: System) { Carries(s, t, NOWHERE, NOWHERE) }

  lemma CarriedUses(s: System, t: System, p: Place, q: Place)
    requires UsesLinked(s) && Carries(s, t, p, q)
    ensures UsesLinked(t)
  {
    hide Has, InPhase;
    forall m | UseMsg(t, m) ensures UseInOrder(t, t.net[m]) {
      assert UseInOrder(s, s.net[m]) && UseMsg(s, m);
    }
  }

  lemma PostHas(t: System, m: Msg)
    requires t.nextMsg !in t.net && !m.GotLease?
    ensures forall p, l :: Has(Post(t, m), p, l) == Has(t, p, l)
  {
  }

  lemma PostCarries(s: System, t: System, m: Msg, p: Place, q: Place)
    requires Carries(s, t, p, q) && t.nextMsg !in t.net && !m.GotLease? && !AboutUse(m)
    ensures Carries(s, Post(t, m), p, q)
  {
    PostHas(t, m);
    hide Has, AboutUse;
    forall n | UseMsg(Post(t, m), n) ensures UseMsg(t, n) && Post(t, m).net[n] == t.net[n] {}
    forall r ensures InPhase(Post(t, m), r, Active) == InPhase(t, r, Active) {}
  }

  /** Posting a use that is in order. */
  lemma PostUse(t: System, m: Msg)
    requires UsesLinked(t) && t.nextMsg !in t.net && AboutUse(m) && UseInOrder(t, m)
    ensures UsesLinked(Post(t, m))
  {
    PostHas(t, m);
    hide Has;
    forall n | UseMsg(Post(t, m), n) ensures UseInOrder(Post(t, m), Post(t, m).net[n]) {
      assert n != t.nextMsg ==> UseMsg(t, n);
    }
  }

  lemma FreshNumber(s: System)
    requires Inv(s)
    ensures forall m | m in s.net :: m < s.nextMsg
  {
    forall m | m in s.net ensures m < s.nextMsg { assert MsgKnown(s, m); }
  }

  // ---- events that hand nothing on ----

  lemma TakenKeeps(s: System, m: nat, w: Worker)
    ensures Keeps(s, Take(s, m).(worker := w))
  {
  }

  lemma TableKeeps(s: System, table: Table<Cred>)
    requires forall k | k in table :: table[k].handle.None? || (k in s.sticky && table[k] == s.sticky[k])
    ensures Keeps(s, s.(sticky := table))
  {
  }

  /** A run loses what it has, or changes its phase without leaving its commands behind. */
  lemma SessionKeeps(s: System, r: nat, x: Session)
    requires r in s.runs && Less(x.handle, s.runs[r].handle) && Less(x.lease, s.runs[r].lease)
    requires s.runs[r].phase.Active? && !x.phase.Active? ==> Idle(s, r)
    ensures Keeps(s, SetRun(s, r, x))
  {
  }

  lemma ThenCarries(s: System, t: System, u: System, p: Place, q: Place)
    requires Keeps(s, t) && Carries(t, u, p, q)
    ensures Carries(s, u, p, q)
  {
    hide Has, InPhase;
  }

  // ---- attaches ----

  lemma BeginUses(s: System, r: nat, user: string, sessionKey: string, parkEnabled: bool, now: int)
    requires Inv(s) && UsesLinked(s)
    ensures UsesLinked(BeginRun(s, r, user, sessionKey, parkEnabled, now))
  {
    hide Inv, UsesLinked;
    if r !in s.runs && '\0' !in user {
      var key, t := KeyOf(user, sessionKey), BeginRun(s, r, user, sessionKey, parkEnabled, now);
      UserOfKey(user, sessionKey);
      assert Begun(s, t, r, key);
      InvKnown(s);
      BegunPlaces(s, t, r, key);
      hide BeginRun, Has, Known;
      CarriedUses(s, t, ByKey(key), ByRun(r));
    }
  }

  lemma StartAttachUses(s: System, r: nat)
    requires Inv(s) && UsesLinked(s)
    ensures UsesLinked(StartAttach(s, r))
  {
    hide Inv, UsesLinked, Has;
    FreshNumber(s);
    if InPhase(s, r, Starting) && s.runs[r].handle.Some? {
      var t := SetRun(s, r, s.runs[r].(phase := Resuming));
      SessionKeeps(s, r, s.runs[r].(phase := Resuming));
      hide Carries;
      PostCarries(s, t, Ask(r, s.runs[r].handle.value, Attach), NOWHERE, NOWHERE);
      CarriedUses(s, StartAttach(s, r), NOWHERE, NOWHERE);
    }
  }

  lemma GiveUpKeeps(s: System, r: nat)
    requires Known(s) && InPhase(s, r, Resuming)
    ensures Keeps(s, GiveUpAttach(s, r))
  {
    GiveUpKnown(s, r);
    hide Known, Has, Forget;
  }

  lemma TakeAttachReplyUses(s: System, m: nat)
    requires Inv(s) && UsesLinked(s)
    ensures UsesLinked(TakeAttachReply(s, m))
  {
    hide Inv, UsesLinked, Has, GiveUpAttach;
    if m in s.net && s.net[m].AttachReply? {
      var AttachReply(r, got) := s.net[m];
      var t := Take(s, m);
      TakenKeeps(s, m, s.worker);
      TakeInv(s, m);
      InvKnown(t);
      if InPhase(s, r, Resuming) {
        if got.Some? {
          AttachReplyFacts(s, m, got.value);
          AttachedKnown(t, r, got.value);
          AttachedKeeps(t, r, got.value);
        } else {
          GiveUpKeeps(t, r);
        }
        hide Carries;
        ThenCarries(s, t, TakeAttachReply(s, m), NOWHERE, NOWHERE);
      }
      CarriedUses(s, TakeAttachReply(s, m), NOWHERE, NOWHERE);
    }
  }

  lemma AttachedKeeps(t: System, r: nat, c: Cred)
    requires InPhase(t, r, Resuming)
    requires var u := SetRun(t, r, t.runs[r].(phase := Active, lease := Some(c)));
             forall p, l :: Has(u, p, l) == Has(t, p, l)
    ensures Keeps(t, SetRun(t, r, t.runs[r].(phase := Active, lease := Some(c))))
  {
    hide Has;
  }

  // ---- requests at the worker ----

  lemma ReceiveUses(s: System, m: nat)
    requires Inv(s) && UsesLinked(s)
    ensures UsesLinked(ReceiveAsk(s, m))
  {
    hide Inv, UsesLinked, Has, GetStep, Accepts, BeginRelease;
    FreshNumber(s);
    if m in s.net && s.net[m].Ask? {
      var Ask(r, c, verb) := s.net[m];
      var t := TakenUp(s, m);
      TakenKeeps(s, m, t.worker);
      CarriedUses(s, t, NOWHERE, NOWHERE);
      match verb
      case Attach =>
        PostKeepsUses(t, AttachReply(r, None));
        PostKeepsUses(t, Admitted(r, c.lease));
      case Park =>
        PostKeepsUses(t, ParkReply(r, false));
        PostKeepsUses(t, ParkAdmitted(r, c.lease));
      case Delete => WorkerKeepsUses(t, BeginRelease(t.worker, c.lease));
      case Use =>
        UseTakenUp(s, t, m);
        PostUse(t, UseAdmitted(r, c.lease));
    }
  }

  lemma UseTakenUp(s: System, t: System, m: nat)
    requires UsesLinked(s) && UseMsg(s, m) && s.net[m].Ask? && Keeps(s, t) && t.runs == s.runs
    ensures UseInOrder(t, UseAdmitted(s.net[m].run, s.net[m].cred.lease))
  {
    hide Has;
    assert UseInOrder(s, s.net[m]);
    forall p | Has(t, p, s.net[m].cred.lease) ensures p == ByRun(s.net[m].run) {
      assert Has(s, p, UseOf(s.net[m]));
    }
  }

  lemma PostKeepsUses(t: System, m: Msg)
    requires UsesLinked(t) && t.nextMsg !in t.net && !m.GotLease? && !AboutUse(m)
    ensures UsesLinked(Post(t, m))
  {
    hide UsesLinked, Has;
    PostCarries(t, t, m, NOWHERE, NOWHERE);
    CarriedUses(t, Post(t, m), NOWHERE, NOWHERE);
  }

  lemma WorkerKeepsUses(t: System, w: Worker)
    requires UsesLinked(t)
    ensures UsesLinked(t.(worker := w))
  {
    hide UsesLinked;
    CarriedUses(t, t.(worker := w), NOWHERE, NOWHERE);
  }

  /** A message is taken out of the net, the worker does something, and an answer may go out. */
  lemma HandledUses(s: System, m: nat, w: Worker, answer: Msg)
    requires Inv(s) && UsesLinked(s) && !answer.GotLease? && !AboutUse(answer)
    ensures UsesLinked(Take(s, m).(worker := w)) && UsesLinked(Post(Take(s, m).(worker := w), answer))
  {
    hide Inv, UsesLinked, Has;
    FreshNumber(s);
    TakenKeeps(s, m, w);
    CarriedUses(s, Take(s, m).(worker := w), NOWHERE, NOWHERE);
    PostKeepsUses(Take(s, m).(worker := w), answer);
  }

  lemma HandlerUses(s: System, m: nat)
    requires Inv(s) && UsesLinked(s)
    ensures UsesLinked(DoAttach(s, m)) && UsesLinked(BeginPark(s, m)) && UsesLinked(CommitPark(s, m))
    ensures UsesLinked(BeginUse(s, m))
  {
    hide Inv, UsesLinked, MayAttach, ParkAllowed, AttachStep, ParkCommit, W.Step;
    if m in s.net {
      match s.net[m]
      case Admitted(r, lease) =>
        HandledUses(s, m, AttachStep(s.worker, lease), AttachReply(r, Some(Cred(lease, s.worker.drawn))));
        HandledUses(s, m, s.worker, AttachReply(r, None));
      case ParkAdmitted(r, lease) =>
        HandledUses(s, m, s.worker, ParkReply(r, false));
        HandledUses(s, m, s.worker, ParkBegun(r, lease, s.worker.clock));
      case ParkBegun(r, lease, at) => HandledUses(s, m, ParkCommit(s.worker, lease, at), ParkReply(r, true));
      case UseAdmitted(r, lease) => HandledUses(s, m, W.Step(s.worker, W.StartExec(lease)), ParkReply(r, true));
      case _ =>
    }
  }

  // ---- leases ----

  lemma ServeUses(s: System, m: nat, retry: bool)
    requires Inv(s) && UsesLinked(s)
    ensures UsesLinked(Serve(s, m, retry))
  {
    hide Inv, UsesLinked, Has, Attempt, Known;
    FreshNumber(s);
    if m in s.net && s.net[m].AskLease? && s.net[m].run in s.runs {
      var (w, got) := Attempt(s.worker, s.runs[s.net[m].run].user, retry);
      InvDrawn(s);
      AttemptFacts(s.worker, s.runs[s.net[m].run].user, retry);
      InvKnown(s);
      TakenKeeps(s, m, w);
      CarriedUses(s, Take(s, m).(worker := w), NOWHERE, NOWHERE);
      if got.Granted? {
        GrantUses(s, m, w, Cred(got.lease, got.lease + 1));
      } else if got.Preempting? {
        WorkerKeepsUses(s, w);
      }
    }
  }

  lemma PostGrantHas(t: System, r: nat, c: Cred)
    requires t.nextMsg !in t.net
    ensures forall p, l ::
              Has(Post(t, GotLease(r, c)), p, l) == (Has(t, p, l) || (p == ByMsg(t.nextMsg) && l == c.lease))
  {
  }

  /** A granted lease is new, so no use is for it. */
  lemma GrantUses(s: System, m: nat, w: Worker, c: Cred)
    requires Known(s) && UsesLinked(s) && c.lease !in s.worker.heap && s.nextMsg !in s.net
    requires m in s.net && UsesLinked(Take(s, m).(worker := w))
    ensures UsesLinked(Post(Take(s, m).(worker := w), GotLease(s.net[m].run, c)))
  {
    hide Has, Known;
    var t := Take(s, m).(worker := w);
    var v := Post(t, GotLease(s.net[m].run, c));
    PostGrantHas(t, s.net[m].run, c);
    forall n | UseMsg(v, n) ensures UseInOrder(v, v.net[n]) {
      assert UseMsg(t, n) && UseInOrder(t, t.net[n]);
      KnownAt(s, n);
      assert UseOf(v.net[n]) != c.lease;
    }
  }

  lemma AdoptUses(s: System, m: nat)
    requires Inv(s) && UsesLinked(s)
    ensures UsesLinked(Adopt(s, m))
  {
    hide Inv, UsesLinked, Has, Known;
    if m in s.net && s.net[m].GotLease? && s.net[m].run in s.runs {
      InvKnown(s);
      AdoptKnown(s, m);
      CarriedUses(s, Adopt(s, m), ByMsg(m), ByRun(s.net[m].run));
    }
  }

  lemma SendUseUses(s: System, r: nat)
    requires Inv(s) && UsesLinked(s) && InPhase(s, r, Active) && s.runs[r].lease.Some?
    ensures UsesLinked(Post(s, Ask(r, s.runs[r].lease.value, Use)))
  {
    FreshNumber(s);
    var c := s.runs[r].lease.value;
    assert Has(s, ByRun(r), c.lease);
    assert UseInOrder(s, Ask(r, c, Use));
    hide Inv, UsesLinked, UseInOrder;
    PostUse(s, Ask(r, c, Use));
  }

  // ---- a turn ends ----

  lemma KeptUses(s: System, r: nat, c: Cred, expiresAt: int)
    requires Inv(s) && UsesLinked(s) && r in s.runs && Idle(s, r)
    requires s.runs[r].lease == Some(c) || s.runs[r].handle == Some(c)
    ensures UsesLinked(Kept(s, r, c, expiresAt))
  {
    hide Inv, UsesLinked, Has, Known, Keep;
    InvKnown(s);
    KeptKnown(s, r, c, expiresAt);
    CarriedUses(s, Kept(s, r, c, expiresAt), ByRun(r), ByKey(s.runs[r].key));
  }

  lemma SessionUses(s: System, r: nat, x: Session)
    requires UsesLinked(s) && r in s.runs && Idle(s, r)
    requires Less(x.handle, s.runs[r].handle) && Less(x.lease, s.runs[r].lease)
    ensures UsesLinked(SetRun(s, r, x)) && Idle(SetRun(s, r, x), r)
  {
    hide UsesLinked, Has;
    SessionKeeps(s, r, x);
    CarriedUses(s, SetRun(s, r, x), NOWHERE, NOWHERE);
  }

  lemma OverUses(s: System, r: nat, table: Table<Cred>)
    requires UsesLinked(s) && r in s.runs && Idle(s, r)
    requires forall k | k in table :: table[k].handle.None? || (k in s.sticky && table[k] == s.sticky[k])
    ensures UsesLinked(SetRun(s, r, Over(s.runs[r])).(sticky := table))
  {
    hide UsesLinked, Carries;
    SessionUses(s, r, Over(s.runs[r]));
    TableKeeps(SetRun(s, r, Over(s.runs[r])), table);
    CarriedUses(SetRun(s, r, Over(s.runs[r])), SetRun(s, r, Over(s.runs[r])).(sticky := table), NOWHERE, NOWHERE);
  }

  lemma ClosingUses(s: System, r: nat, phase: Phase, verb: Verb)
    requires UsesLinked(s) && r in s.runs && Idle(s, r) && s.nextMsg !in s.net && verb != Use
    ensures var t := SetRun(s, r, s.runs[r].(phase := phase));
            UsesLinked(t) && (s.runs[r].lease.Some? ==> UsesLinked(Post(t, Ask(r, s.runs[r].lease.value, verb))))
  {
    hide UsesLinked;
    SessionUses(s, r, s.runs[r].(phase := phase));
    if s.runs[r].lease.Some? {
      PostKeepsUses(SetRun(s, r, s.runs[r].(phase := phase)), Ask(r, s.runs[r].lease.value, verb));
    }
  }

  lemma FinishUses(s: System, r: nat, park: bool, expiresAt: int)
    requires Inv(s) && UsesLinked(s) && Idle(s, r)
    ensures UsesLinked(FinishRun(s, r, park, expiresAt))
  {
    hide Inv, UsesLinked, Keep, Idle;
    FreshNumber(s);
    if InPhase(s, r, Active) {
      var x := s.runs[r];
      ClosingUses(s, r, Parking, Park);
      ClosingUses(s, r, Releasing, Delete);
      if x.lease.None? {
        if x.owner && x.handle.Some? { KeptUses(s, r, x.handle.value, expiresAt); }
        else { OverUses(s, r, KeyReturned(s, r)); }
      }
    }
  }

  lemma NotActiveIsIdle(s: System, r: nat)
    requires UsesLinked(s) && !InPhase(s, r, Active)
    ensures Idle(s, r)
  {
    hide Has;
    forall m | m in s.net && AboutUse(s.net[m]) ensures s.net[m].run != r {
      assert UseMsg(s, m) && UseInOrder(s, s.net[m]);
    }
  }

  lemma ParkReplyUses(s: System, m: nat, expiresAt: int)
    requires Inv(s) && UsesLinked(s)
    ensures UsesLinked(TakeParkReply(s, m, expiresAt))
  {
    hide Inv, UsesLinked, Keep, Idle;
    if m in s.net && s.net[m].ParkReply? {
      var ParkReply(r, parked) := s.net[m];
      var t := Take(s, m);
      TakenKeeps(s, m, s.worker);
      CarriedUses(s, t, NOWHERE, NOWHERE);
      TakeInv(s, m);
      FreshNumber(t);
      if InPhase(s, r, Parking) {
        NotActiveIsIdle(t, r);
        if !parked { ClosingUses(t, r, Releasing, Delete); }
        else if s.runs[r].lease.Some? { KeptUses(t, r, s.runs[r].lease.value, expiresAt); }
        else { OverUses(t, r, Drop(t.sticky, t.runs[r].key, r)); }
      }
    }
  }

  // ---- every careful run ----

  lemma MessageUses(s: System, e: Event)
    requires Inv(s) && UsesLinked(s) && AboutMessage(e)
    ensures UsesLinked(Next(s, e))
  {
    hide Inv, UsesLinked, ReceiveAsk, DoAttach, TakeAttachReply, Serve, Adopt, BeginPark, BeginUse, CommitPark,
         TakeParkReply;
    match e
    case Receive(m) => ReceiveUses(s, m);
    case FinishAttach(m) => HandlerUses(s, m);
    case StartPark(m) => HandlerUses(s, m);
    case StartUse(m) => HandlerUses(s, m);
    case FinishPark(m) => HandlerUses(s, m);
    case DeliverAttach(m) => TakeAttachReplyUses(s, m);
    case ServeLease(m, retry) => ServeUses(s, m, retry);
    case AdoptLease(m) => AdoptUses(s, m);
    case DeliverPark(m, expiresAt) => ParkReplyUses(s, m, expiresAt);
    case LoseMsg(m) => HandledUses(s, m, s.worker, AskLease(0));
  }

  lemma RunUses(s: System, e: Event)
    requires Inv(s) && UsesLinked(s) && !AboutMessage(e) && Careful(s, e)
    ensures UsesLinked(Next(s, e))
  {
    hide Inv, UsesLinked, BeginRun, StartAttach, GiveUpAttach, FinishRun, Idle, W.Step, Has;
    FreshNumber(s);
    match e
    case Begin(r, user, sessionKey, parkEnabled, now) => BeginUses(s, r, user, sessionKey, parkEnabled, now);
    case SendAttach(r) => StartAttachUses(s, r);
    case SkipResume(r) =>
      if InPhase(s, r, Starting) { NotActiveIsIdle(s, r); SessionUses(s, r, s.runs[r].(phase := Active)); }
    case TimeoutAttach(r) =>
      if InPhase(s, r, Resuming) {
        InvKnown(s);
        GiveUpKeeps(s, r);
        CarriedUses(s, GiveUpAttach(s, r), NOWHERE, NOWHERE);
      }
    case RequestLease(r) => PostKeepsUses(s, AskLease(r));
    case LoseLease(r) =>
      if r in s.runs {
        SessionKeeps(s, r, s.runs[r].(lease := None));
        CarriedUses(s, SetRun(s, r, s.runs[r].(lease := None)), NOWHERE, NOWHERE);
      }
    case SendUse(r) => if s.runs[r].lease.Some? { SendUseUses(s, r); }
    case Finish(r, park, expiresAt) => FinishUses(s, r, park, expiresAt);
    case TimeoutPark(r) =>
      if InPhase(s, r, Parking) { NotActiveIsIdle(s, r); ClosingUses(s, r, Releasing, Delete); }
    case EndRelease(r) =>
      if InPhase(s, r, Releasing) { NotActiveIsIdle(s, r); OverUses(s, r, KeyReturned(s, r)); }
    case Evict(key) =>
      TableKeeps(s, s.sticky - {key});
      CarriedUses(s, s.(sticky := s.sticky - {key}), NOWHERE, NOWHERE);
    case Inside(a) => WorkerKeepsUses(s, W.Step(s.worker, a));
    case _ =>
  }

  lemma {:induction false} PlayUses(s: System, events: seq<Event>)
    requires Inv(s) && UsesLinked(s) && AllCareful(s, events)
    ensures Inv(Play(s, events)) && UsesLinked(Play(s, events))
    decreases |events|
  {
    if events == [] {
    } else {
      hide Inv, UsesLinked, Next, Careful;
      NextInv(s, events[0]);
      if AboutMessage(events[0]) { MessageUses(s, events[0]); } else { RunUses(s, events[0]); }
      PlayUses(Next(s, events[0]), events[1..]);
    }
  }

  /** If runs end only when no command of theirs is under way, then in every reachable state every command under
      way, before the check or past it, for a lease in use belongs to the run that is using it. */
  lemma UsesAreTheUsers(c: Config, slots: nat, now: int, events: seq<Event>, r: nat, cred: Cred)
    requires AllCareful(Boot(c, slots, now), events) && Using(Play(Boot(c, slots, now), events), r, cred)
    ensures var s := Play(Boot(c, slots, now), events);
            forall m | m in s.net && AboutUse(s.net[m]) && UseOf(s.net[m]) == cred.lease :: s.net[m].run == r
  {
    var s0 := Boot(c, slots, now);
    assert Inv(s0) by { BootPlays(c, slots, now, []); }
    PlayUses(s0, events);
    var s := Play(s0, events);
    assert Has(s, ByRun(r), cred.lease);
    forall m | m in s.net && AboutUse(s.net[m]) && UseOf(s.net[m]) == cred.lease ensures s.net[m].run == r {
      assert UseMsg(s, m) && UseInOrder(s, s.net[m]);
    }
  }

  // ---- a run that does not wait ----

  const KEY: string := ['u', '\0', 's']
  const LIMITS := Config(1000, 1000, 100000, 500, 10, 1)

  /** A command of run 1 has passed the check when the run ends. The run parks, run 2 of the session attaches,
      and the command's body is still to come. */
  const STORY: seq<Event> := [
    Begin(1, "u", "s", true, 0), SkipResume(1), RequestLease(1), ServeLease(0, false), AdoptLease(1), SendUse(1),
    Receive(2), Finish(1, true, 400), Receive(4), StartPark(5), FinishPark(6), DeliverPark(7, 400),
    Begin(2, "u", "s", true, 20), SendAttach(2), Receive(8), FinishAttach(9), DeliverAttach(10)]

  function Going(phase: Phase, lease: Option<Cred>): Session { Session("u", KEY, phase, true, None, lease) }
  function Coming(phase: Phase, lease: Option<Cred>): Session {
    Session("u", KEY, phase, true, Some(Cred(0, 1)), lease)
  }

  /** The one lease of the worker, with its token, expiry and whether it is parked. */
  function Holding(token: nat, expiresAt: int, parked: bool, drawn: nat): Worker {
    Worker(LIMITS, 0, [Slot.Busy(0)], [0],
           map[0 := Lease(0, "u", 0, token, 0, 100000, 0, 0, expiresAt, 0, parked, 0)], drawn,
           multiset{}, multiset{}, multiset{}, multiset{}, multiset{})
  }

  function First(w: Worker, x: Session, net: map<nat, Msg>, n: nat): System {
    System(w, map[KEY := Entry(Some(1), None, 0)], map[1 := x], net, n)
  }

  function Second(w: Worker, x: Session, net: map<nat, Msg>, n: nat): System {
    System(w, map[KEY := Entry(Some(2), Some(Cred(0, 1)), 400)], map[1 := Going(Done, None), 2 := x], net, n)
  }

  /** The states of the story, one after the other. */
  function Scene(i: nat): System {
    var empty, use := W.Boot(LIMITS, 1, 0), map[3 := UseAdmitted(1, 0)];
    var held, kept, c := Holding(1, 1000, false, 2), Holding(1, 500, true, 2), Cred(0, 1);
    if i == 0 then Boot(LIMITS, 1, 0)
    else if i == 1 then First(empty, Going(Starting, None), map[], 0)
    else if i == 2 then First(empty, Going(Active, None), map[], 0)
    else if i == 3 then First(empty, Going(Active, None), map[0 := AskLease(1)], 1)
    else if i == 4 then First(held, Going(Active, None), map[1 := GotLease(1, c)], 2)
    else if i == 5 then First(held, Going(Active, Some(c)), map[], 2)
    else if i == 6 then First(held, Going(Active, Some(c)), map[2 := Ask(1, c, Use)], 3)
    else if i == 7 then First(held, Going(Active, Some(c)), use, 4)
    else if i == 8 then First(held, Going(Parking, Some(c)), use[4 := Ask(1, c, Park)], 5)
    else if i == 9 then First(held, Going(Parking, Some(c)), use[5 := ParkAdmitted(1, 0)], 6)
    else if i == 10 then First(held, Going(Parking, Some(c)), use[6 := ParkBegun(1, 0, 0)], 7)
    else if i == 11 then First(kept, Going(Parking, Some(c)), use[7 := ParkReply(1, true)], 8)
    else if i == 12 then
      System(kept, map[KEY := Entry(None, Some(c), 400)], map[1 := Going(Done, None)], use, 8)
    else if i == 13 then Second(kept, Coming(Starting, None), use, 8)
    else if i == 14 then Second(kept, Coming(Resuming, None), use[8 := Ask(2, c, Attach)], 9)
    else if i == 15 then Second(kept, Coming(Resuming, None), use[9 := Admitted(2, 0)], 10)
    else if i == 16 then
      Second(Holding(2, 1000, false, 3), Coming(Resuming, None), use[10 := AttachReply(2, Some(Cred(0, 2)))], 11)
    else Second(Holding(2, 1000, false, 3), Coming(Active, Some(Cred(0, 2))), use, 11)
  }

  ghost predicate Follows(i: nat)
    requires i < |STORY|
  {
    Next(Scene(i), STORY[i]) == Scene(i + 1)
  }

  lemma LookupsChangeNothing()
    ensures GetStep(Holding(1, 1000, false, 2), 0) == Holding(1, 1000, false, 2)
    ensures GetStep(Holding(1, 500, true, 2), 0) == Holding(1, 500, true, 2)
  {
  }

  lemma ParkingParks()
    ensures ParkCommit(Holding(1, 1000, false, 2), 0, 0) == Holding(1, 500, true, 2)
  {
  }

  lemma KeepingKeeps()
    ensures Keep(map[KEY := Entry(Some(1), None, 0)], KEY, 1, Cred(0, 1), 400)
            == map[KEY := Entry(None, Some(Cred(0, 1)), 400)]
  {
  }

  lemma AttachRotates()
    ensures AttachStep(Holding(1, 500, true, 2), 0) == Holding(2, 1000, false, 3)
  {
  }

  lemma Scene0()
    ensures Follows(0)
  {
    assert KeyOf("u", "s") == KEY;
  }

  lemma Scene1()
    ensures Follows(1)
  {
  }

  lemma Scene2()
    ensures Follows(2)
  {
  }

  lemma Scene3()
    ensures Follows(3)
  {
  }

  lemma Scene4()
    ensures Follows(4)
  {
  }

  lemma Scene5()
    ensures Follows(5)
  {
  }

  lemma Scene6()
    ensures Follows(6)
  {
  }

  lemma Scene7()
    ensures Follows(7)
  {
  }

  lemma Scene8()
    ensures Follows(8)
  {
  }

  lemma Scene9()
    ensures Follows(9)
  {
  }

  lemma Scene10()
    ensures Follows(10)
  {
    hide ParkCommit;
    ParkingParks();
  }

  lemma Scene11()
    ensures Follows(11)
  {
    hide Keep, Drop, StartRelease, Holding;
    KeepingKeeps();
  }

  lemma Scene12()
    ensures Follows(12)
  {
    assert KeyOf("u", "s") == KEY;
    hide KeyOf;
  }

  lemma Scene13()
    ensures Follows(13)
  {
  }

  lemma Scene14()
    ensures Follows(14)
  {
    hide GetStep;
    LookupsChangeNothing();
  }

  lemma Scene15()
    ensures Follows(15)
  {
    hide AttachStep;
    AttachRotates();
  }

  lemma Scene16()
    ensures Follows(16)
  {
  }

  lemma StoryFollows(i: nat)
    requires i < |STORY|
    ensures Follows(i)
  {
    hide Follows;
    if i == 0 { Scene0(); }
    if i == 1 { Scene1(); }
    if i == 2 { Scene2(); }
    if i == 3 { Scene3(); }
    if i == 4 { Scene4(); }
    if i == 5 { Scene5(); }
    if i == 6 { Scene6(); }
    if i == 7 { Scene7(); }
    if i == 8 { Scene8(); }
    if i == 9 { Scene9(); }
    if i == 10 { Scene10(); }
    if i == 11 { Scene11(); }
    if i == 12 { Scene12(); }
    if i == 13 { Scene13(); }
    if i == 14 { Scene14(); }
    if i == 15 { Scene15(); }
    if i == 16 { Scene16(); }
  }

  lemma {:induction false} StoryEnds(i: nat)
    requires i <= |STORY|
    ensures Play(Scene(i), STORY[i..]) == Scene(|STORY|)
    decreases |STORY| - i
  {
    hide Scene, Next;
    if i == |STORY| {
    } else {
      StoryFollows(i);
      assert STORY[i..][1..] == STORY[i + 1..];
      StoryEnds(i + 1);
    }
  }

  lemma LastScene()
    ensures var s := Scene(|STORY|);
            && Using(s, 2, Cred(0, 2)) && UseMsg(s, 3) && s.net[3] == UseAdmitted(1, 0)
            && Next(s, StartUse(3)).worker.heap.Keys == {0} && Next(s, StartUse(3)).worker.heap[0].running == 1
  {
  }

  /** Run 2 uses the lease, with the current token, and the command of run 1 may still start on it. Nothing in
      the story is careless but the end of run 1. */
  lemma LateUseHappens()
    ensures var s := Play(Boot(LIMITS, 1, 0), STORY);
            && Using(s, 2, Cred(0, 2)) && UseMsg(s, 3) && s.net[3] == UseAdmitted(1, 0)
            && Next(s, StartUse(3)).worker.heap.Keys == {0} && Next(s, StartUse(3)).worker.heap[0].running == 1
    ensures forall i | 0 <= i < |STORY| :: Careful(Scene(i), STORY[i]) <==> i != 7
  {
    assert Scene(0) == Boot(LIMITS, 1, 0);
    OnlyTheEndIsCareless();
    hide Play, Next, Scene;
    StoryEnds(0);
    assert STORY[0..] == STORY;
    LastScene();
  }

  lemma OnlyTheEndIsCareless()
    ensures forall i | 0 <= i < |STORY| :: Careful(Scene(i), STORY[i]) <==> i != 7
  {
    assert 3 in Scene(7).net && AboutUse(Scene(7).net[3]);
    forall i | 0 <= i < |STORY| ensures (STORY[i].Finish? <==> i == 7) && (STORY[i].SendUse? <==> i == 5) {}
    assert InPhase(Scene(5), 1, Active);
  }
}
