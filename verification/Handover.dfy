/** Handing a sandbox from one run to the next: runs, the sticky table, the worker, and a network that may
    delay, reorder or lose every message, but never duplicates one. Keys carry the agent replica in their
    session part, so the one table here stands for the tables of all replicas. */
module Handover {
  import opened Wrappers
  import opened LeaseRules
  import opened Sticky
  import W = WorkerRuns

  /** What it takes to use a lease. */
  datatype Cred = Cred(lease: nat, token: nat)

  datatype Phase = Starting | Resuming | Active | Parking | Releasing | Done

  /** One run's sandbox session: `handle` is what the claim of the sticky key handed out, `lease` the lease
      the session is using. */
  datatype Session = Session(user: string, key: string, phase: Phase, owner: bool,
                             handle: Option<Cred>, lease: Option<Cred>)

  datatype Verb = Attach | Park | Delete | Use

  datatype Msg =
    | Ask(run: nat, cred: Cred, verb: Verb)
    | Admitted(run: nat, lease: nat)              // an attach that passed the token check and reads its body
    | UseAdmitted(run: nat, lease: nat)           // likewise any other use, such as a command
    | AttachReply(run: nat, got: Option<Cred>)
    | AskLease(run: nat)
    | GotLease(run: nat, cred: Cred)
    | ParkAdmitted(run: nat, lease: nat)          // likewise a park
    | ParkBegun(run: nat, lease: nat, at: int)    // a park waiting for the leases it drops
    | ParkReply(run: nat, parked: bool)

  datatype System = System(worker: Worker, sticky: Table<Cred>, runs: map<nat, Session>,
                           net: map<nat, Msg>, nextMsg: nat)

  datatype Event =
    | Begin(run: nat, user: string, sessionKey: string, parkEnabled: bool, now: int)
    | SendAttach(run: nat)
    | SkipResume(run: nat)
    | Receive(msg: nat)               // the worker takes a request up
    | FinishAttach(msg: nat)          // the attach handler has its body
    | StartPark(msg: nat)             // the park handler has its body
    | StartUse(msg: nat)              // the handler of a command has its body
    | DeliverAttach(msg: nat)
    | TimeoutAttach(run: nat)
    | RequestLease(run: nat)
    | ServeLease(msg: nat, retry: bool)
    | AdoptLease(msg: nat)
    | LoseLease(run: nat)             // the session was told that its lease is gone
    | SendUse(run: nat)
    | Finish(run: nat, park: bool, expiresAt: int)
    | FinishPark(msg: nat)
    | DeliverPark(msg: nat, expiresAt: int)
    | TimeoutPark(run: nat)
    | EndRelease(run: nat)
    | LoseMsg(msg: nat)
    | Evict(key: string)
    | Inside(action: W.Action)        // anything the worker does on its own, or for others

  // ---- steps ----

  function Post(s: System, m: Msg): System { s.(net := s.net[s.nextMsg := m], nextMsg := s.nextMsg + 1) }
  function Take(s: System, m: nat): System { s.(net := s.net - {m}) }
  function SetRun(s: System, r: nat, x: Session): System { s.(runs := s.runs[r := x]) }

  predicate InPhase(s: System, r: nat, p: Phase) { r in s.runs && s.runs[r].phase == p }

  /** The worker's check of a request: the lease is there, not expired, and the token is its current one. */
  predicate Accepts(w: Worker, c: Cred) { Visible(w, c.lease) && w.heap[c.lease].token == c.token }

  function BeginRun(s: System, r: nat, user: string, sessionKey: string, parkEnabled: bool, now: int): System {
    if r in s.runs || '\0' in user then s
    else if !parkEnabled then SetRun(s, r, Session(user, KeyOf(user, sessionKey), Starting, false, None, None))
    else
      var key := KeyOf(user, sessionKey);
      var (table, claimed) := Claim(s.sticky, key, r, now);
      SetRun(s, r, Session(user, key, Starting, claimed.owner, claimed.handle, None)).(sticky := table)
  }

  function StartAttach(s: System, r: nat): System {
    if InPhase(s, r, Starting) && s.runs[r].handle.Some?
    then Post(SetRun(s, r, s.runs[r].(phase := Resuming)), Ask(r, s.runs[r].handle.value, Attach))
    else s
  }

  /** Taking a request up: the lookup counts as activity before the token is compared. */
  function TakenUp(s: System, m: nat): System
    requires m in s.net && s.net[m].Ask?
  {
    Take(s, m).(worker := GetStep(s.worker, s.net[m].cred.lease))
  }

  function ReceiveAsk(s: System, m: nat): System {
    if m !in s.net || !s.net[m].Ask? then s
    else
      var Ask(r, c, verb) := s.net[m];
      var ok := Accepts(s.worker, c);
      var t := TakenUp(s, m);
      match verb
      case Attach => if ok then Post(t, Admitted(r, c.lease)) else Post(t, AttachReply(r, None))
      case Park => if ok then Post(t, ParkAdmitted(r, c.lease)) else Post(t, ParkReply(r, false))
      case Delete => if ok then t.(worker := BeginRelease(t.worker, c.lease)) else t
      case Use => if ok then Post(t, UseAdmitted(r, c.lease)) else t
  }

  /** A command starts, on the lease object the lookup found. */
  function BeginUse(s: System, m: nat): System {
    if m in s.net && s.net[m].UseAdmitted?
    then Take(s, m).(worker := W.Step(s.worker, W.StartExec(s.net[m].lease))) else s
  }

  /** park up to its first await, on the lease object the lookup found. */
  function BeginPark(s: System, m: nat): System {
    if m !in s.net || !s.net[m].ParkAdmitted? then s
    else
      var ParkAdmitted(r, lease) := s.net[m];
      if lease in s.worker.heap && ParkAllowed(s.worker, lease)
      then Post(Take(s, m), ParkBegun(r, lease, s.worker.clock)) else Post(Take(s, m), ParkReply(r, false))
  }

  predicate MayAttach(s: System, r: nat, lease: nat) {
    && lease in s.worker.heap && s.worker.heap[lease].parked
    && (r in s.runs && s.runs[r].user != "" && s.worker.heap[lease].username != ""
        ==> s.runs[r].user == s.worker.heap[lease].username)
  }

  function DoAttach(s: System, m: nat): System {
    if m !in s.net || !s.net[m].Admitted? then s
    else
      var Admitted(r, lease) := s.net[m];
      if MayAttach(s, r, lease)
      then Post(Take(s, m).(worker := AttachStep(s.worker, lease)), AttachReply(r, Some(Cred(lease, s.worker.drawn))))
      else Post(Take(s, m), AttachReply(r, None))
  }

  function GiveUpAttach(s: System, r: nat): System
    requires r in s.runs
  {
    SetRun(s, r, s.runs[r].(phase := Active, handle := None)).(sticky := Forget(s.sticky, s.runs[r].key, r))
  }

  function TakeAttachReply(s: System, m: nat): System {
    if m !in s.net || !s.net[m].AttachReply? then s
    else
      var AttachReply(r, got) := s.net[m];
      if !InPhase(s, r, Resuming) then Take(s, m)
      else if got.Some? then SetRun(Take(s, m), r, s.runs[r].(phase := Active, lease := got))
      else GiveUpAttach(Take(s, m), r)
  }

  /** The two tries of an acquire. */
  function Attempt(w: Worker, user: string, retry: bool): (Worker, Acquisition) {
    if retry then RetryStep(w, user, None) else AcquireStep(w, user, None)
  }

  function Serve(s: System, m: nat, retry: bool): System {
    if m !in s.net || !s.net[m].AskLease? || s.net[m].run !in s.runs then s
    else
      var (w, got) := Attempt(s.worker, s.runs[s.net[m].run].user, retry);
      Served(s, m, w, got)
  }

  /** What becomes of a request for a lease: a preempting one stays for its retry. */
  function Served(s: System, m: nat, w: Worker, got: Acquisition): System
    requires m in s.net
  {
    match got
    case Granted(id) => Post(Take(s, m).(worker := w), GotLease(s.net[m].run, Cred(id, id + 1)))
    case Preempting(_) => s.(worker := w)
    case Full => Take(s, m)
  }

  function Adopt(s: System, m: nat): System {
    if m in s.net && s.net[m].GotLease? && s.net[m].run in s.runs
    then SetRun(Take(s, m), s.net[m].run, s.runs[s.net[m].run].(lease := Some(s.net[m].cred)))
    else s
  }

  function Over(x: Session): Session { x.(phase := Done, handle := None, lease := None) }

  /** The table after a run has given its key back. */
  function KeyReturned(s: System, r: nat): Table<Cred>
    requires r in s.runs
  {
    if s.runs[r].owner then Drop(s.sticky, s.runs[r].key, r) else s.sticky
  }

  /** The end of a turn: an untouched handle goes back, a used lease is parked or released. */
  function FinishRun(s: System, r: nat, park: bool, expiresAt: int): System {
    if !InPhase(s, r, Active) then s
    else
      var x := s.runs[r];
      if x.lease.None? then
        var table := if x.owner && x.handle.Some? then Keep(s.sticky, x.key, r, x.handle.value, expiresAt)
                     else KeyReturned(s, r);
        SetRun(s, r, Over(x)).(sticky := table)
      else if park && x.owner
      then Post(SetRun(s, r, x.(phase := Parking)), Ask(r, x.lease.value, Park))
      else StartRelease(s, r)
  }

  function StartRelease(s: System, r: nat): System
    requires r in s.runs
  {
    var t := SetRun(s, r, s.runs[r].(phase := Releasing));
    if s.runs[r].lease.Some? then Post(t, Ask(r, s.runs[r].lease.value, Delete)) else t
  }

  function CommitPark(s: System, m: nat): System {
    if m !in s.net || !s.net[m].ParkBegun? then s
    else
      var ParkBegun(r, lease, at) := s.net[m];
      Post(Take(s, m).(worker := ParkCommit(s.worker, lease, at)), ParkReply(r, true))
  }

  /** Parked: the credential moves into the table and out of the session in one step. */
  function TakeParkReply(s: System, m: nat, expiresAt: int): System {
    if m !in s.net || !s.net[m].ParkReply? then s
    else
      var ParkReply(r, parked) := s.net[m];
      if !InPhase(s, r, Parking) then Take(s, m)
      else if !parked then StartRelease(Take(s, m), r)
      else
        var x := s.runs[r];
        var table := if x.lease.Some? then Keep(s.sticky, x.key, r, x.lease.value, expiresAt)
          else Drop(s.sticky, x.key, r);
        SetRun(Take(s, m), r, Over(x)).(sticky := table)
  }

  function Next(s: System, e: Event): System {
    match e
    case Begin(r, user, sessionKey, parkEnabled, now) => BeginRun(s, r, user, sessionKey, parkEnabled, now)
    case SendAttach(r) => StartAttach(s, r)
    case SkipResume(r) => if InPhase(s, r, Starting) then SetRun(s, r, s.runs[r].(phase := Active)) else s
    case Receive(m) => ReceiveAsk(s, m)
    case FinishAttach(m) => DoAttach(s, m)
    case StartPark(m) => BeginPark(s, m)
    case StartUse(m) => BeginUse(s, m)
    case DeliverAttach(m) => TakeAttachReply(s, m)
    case TimeoutAttach(r) => if InPhase(s, r, Resuming) then GiveUpAttach(s, r) else s
    case RequestLease(r) => if InPhase(s, r, Active) && s.runs[r].lease.None? then Post(s, AskLease(r)) else s
    case ServeLease(m, retry) => Serve(s, m, retry)
    case AdoptLease(m) => Adopt(s, m)
    case LoseLease(r) => if r in s.runs then SetRun(s, r, s.runs[r].(lease := None)) else s
    case SendUse(r) => if r in s.runs && s.runs[r].lease.Some? then Post(s, Ask(r, s.runs[r].lease.value, Use)) else s
    case Finish(r, park, expiresAt) => FinishRun(s, r, park, expiresAt)
    case FinishPark(m) => CommitPark(s, m)
    case DeliverPark(m, expiresAt) => TakeParkReply(s, m, expiresAt)
    case TimeoutPark(r) => if InPhase(s, r, Parking) then StartRelease(s, r) else s
    case EndRelease(r) =>
      if InPhase(s, r, Releasing)
      then SetRun(s, r, Over(s.runs[r])).(sticky := KeyReturned(s, r))
      else s
    case LoseMsg(m) => Take(s, m)
    case Evict(key) => s.(sticky := s.sticky - {key})
    case Inside(a) => if a.Attach? then s else s.(worker := W.Step(s.worker, a))
  }

  function Play(s: System, events: seq<Event>): System
    decreases |events|
  {
    if events == [] then s else Play(Next(s, events[0]), events[1..])
  }

  function Boot(c: Config, slots: nat, now: int): System {
    System(W.Boot(c, slots, now), map[], map[], map[], 0)
  }

  // ---- invariant: who knows what ----

  /** The user part of a sticky key. */
  function UserOf(key: string): string {
    if key == [] || key[0] == '\0' then [] else [key[0]] + UserOf(key[1..])
  }

  lemma {:induction false} UserOfKey(user: string, sessionKey: string)
    requires '\0' !in user
    ensures UserOf(KeyOf(user, sessionKey)) == user
  {
    if user == [] {
    } else {
      assert KeyOf(user, sessionKey)[1..] == KeyOf(user[1..], sessionKey);
      UserOfKey(user[1..], sessionKey);
    }
  }

  predicate Issued(w: Worker, c: Cred) { c.lease in w.heap && c.token < w.drawn }
  predicate IssuedTo(w: Worker, c: Cred, user: string) { Issued(w, c) && w.heap[c.lease].username == user }
  predicate MadeFor(w: Worker, l: nat, user: string) { l in w.heap && w.heap[l].username == user }
  predicate Current(w: Worker, c: Cred) { c.lease in w.heap && w.heap[c.lease].token == c.token }

  predicate SessionKnown(s: System, r: nat)
    requires r in s.runs
  {
    var x := s.runs[r];
    && x.user == UserOf(x.key)
    && (x.handle.Some? ==> IssuedTo(s.worker, x.handle.value, x.user))
    && (x.lease.Some? ==> IssuedTo(s.worker, x.lease.value, x.user))
    && (x.phase.Starting? || x.phase.Resuming? ==> x.lease.None?)
  }

  predicate MsgKnown(s: System, m: nat)
    requires m in s.net
  {
    m < s.nextMsg && s.net[m].run in s.runs &&
    match s.net[m]
    case Ask(r, c, _) => IssuedTo(s.worker, c, s.runs[r].user)
    case Admitted(r, l) => MadeFor(s.worker, l, s.runs[r].user)
    case UseAdmitted(r, l) => MadeFor(s.worker, l, s.runs[r].user)
    case AttachReply(_, got) => got.Some? ==> Issued(s.worker, got.value)
    case AskLease(r) => !s.runs[r].phase.Starting? && !s.runs[r].phase.Resuming?
    case GotLease(r, c) =>
      IssuedTo(s.worker, c, s.runs[r].user) && !s.runs[r].phase.Starting? && !s.runs[r].phase.Resuming?
    case ParkAdmitted(r, l) => MadeFor(s.worker, l, s.runs[r].user)
    case ParkBegun(r, l, _) => MadeFor(s.worker, l, s.runs[r].user)
    case ParkReply(_, _) => true
  }

  ghost predicate Known(s: System) {
    && (forall id | id in s.worker.heap :: id < s.worker.drawn && s.worker.heap[id].token < s.worker.drawn)
    && (forall r | r in s.runs :: SessionKnown(s, r))
    && (forall k | k in s.sticky && s.sticky[k].handle.Some? ::
          && IssuedTo(s.worker, s.sticky[k].handle.value, UserOf(k))
          && (s.sticky[k].busyRun.Some? ==> s.sticky[k].busyRun.value in s.runs))
    && (forall m | m in s.net :: MsgKnown(s, m))
  }

  // ---- invariant: one custodian per lease ----

  /** The places a usable way to a lease can be: a run, an unlocked table entry, a reply under way. */
  datatype Place = ByRun(run: nat) | ByKey(key: string) | ByMsg(msg: nat)

  predicate Names(c: Option<Cred>, lease: nat) { c.Some? && c.value.lease == lease }

  predicate Has(s: System, p: Place, lease: nat) {
    match p
    case ByRun(r) =>
      r in s.runs && (Names(s.runs[r].lease, lease) || Names(s.runs[r].handle, lease))
    case ByKey(k) =>
      k in s.sticky && s.sticky[k].busyRun.None? && Names(s.sticky[k].handle, lease)
    case ByMsg(m) => m in s.net && s.net[m].GotLease? && s.net[m].cred.lease == lease
  }

  ghost predicate OneCustodian(s: System) {
    forall p, q, lease | Has(s, p, lease) && Has(s, q, lease) :: p == q
  }

  // ---- invariant: attaches under way ----

  predicate AboutAttach(m: Msg) { m.Admitted? || m.AttachReply? || (m.Ask? && m.verb == Attach) }

  predicate AttachMsg(s: System, m: nat) { m in s.net && AboutAttach(s.net[m]) }

  /** The lease an attach request that the worker has not finished is after. */
  function Wanted(m: Msg): Option<nat> {
    match m
    case Ask(_, c, Attach) => Some(c.lease)
    case Admitted(_, l) => Some(l)
    case _ => None
  }

  ghost predicate AttachesLinked(s: System) {
    && (forall m, n | AttachMsg(s, m) && AttachMsg(s, n) && s.net[m].run == s.net[n].run :: m == n)
    && (forall m | AttachMsg(s, m) ::
          s.net[m].run in s.runs && !s.runs[s.net[m].run].phase.Starting? && InOrder(s, s.net[m]))
  }

  /** While the run waits, the attach is for its handle; once it has given up, nobody can reach that lease. */
  ghost predicate InOrder(s: System, m: Msg) {
    && (Wanted(m).Some? && InPhase(s, m.run, Resuming) ==> Has(s, ByRun(m.run), Wanted(m).value))
    && (Wanted(m).Some? && !InPhase(s, m.run, Resuming) ==> forall p :: !Has(s, p, Wanted(m).value))
    && (m.AttachReply? && m.got.Some? && InPhase(s, m.run, Resuming) ==> Has(s, ByRun(m.run), m.got.value.lease))
  }

  // ---- invariant: tokens ----

  /** A credential on its way to the one run that will use it. */
  predicate Arriving(s: System, m: nat, c: Cred) {
    m in s.net && (s.net[m] == GotLease(s.net[m].run, c)
                   || (s.net[m] == AttachReply(s.net[m].run, Some(c)) && InPhase(s, s.net[m].run, Resuming)))
  }

  predicate Using(s: System, r: nat, c: Cred) { r in s.runs && s.runs[r].lease == Some(c) }

  predicate Asking(s: System, m: nat, r: nat, c: Cred) {
    m in s.net && s.net[m].Ask? && s.net[m].run == r && s.net[m].cred == c
  }

  ghost predicate Tokens(s: System) {
    && (forall r, c | Using(s, r, c) :: Current(s.worker, c))
    && (forall r, c, m, q | Using(s, r, c) && Asking(s, m, q, c) :: q == r)
    && (forall m, c | Arriving(s, m, c) :: Current(s.worker, c))
    && (forall m, c, n, q | Arriving(s, m, c) && Asking(s, n, q, c) :: false)
    && (forall m, c | Arriving(s, m, c) :: !Stored(s, c))
  }

  /** Some session or table entry already holds this very credential. */
  ghost predicate Stored(s: System, c: Cred) {
    || (exists r :: r in s.runs && (s.runs[r].lease == Some(c) || s.runs[r].handle == Some(c)))
    || (exists k :: k in s.sticky && s.sticky[k].handle == Some(c))
  }

  // ---- invariant: parks under way ----

  predicate AboutPark(m: Msg) { m.ParkAdmitted? || m.ParkBegun? || m.ParkReply? || (m.Ask? && m.verb == Park) }

  predicate ParkMsg(s: System, m: nat) { m in s.net && AboutPark(s.net[m]) }

  predicate Closing(p: Phase) { p.Parking? || p.Releasing? || p.Done? }

  /** The lease that a park not yet carried out is for. */
  function ToPark(m: Msg): Option<nat> {
    match m
    case Ask(_, c, Park) => Some(c.lease)
    case ParkAdmitted(_, l) => Some(l)
    case ParkBegun(_, l, _) => Some(l)
    case _ => None
  }

  /** A run parks once, at its end, and the lease is nobody else's until that park is out of the way. */
  ghost predicate ParksLinked(s: System) {
    && (forall m, n | ParkMsg(s, m) && ParkMsg(s, n) && s.net[m].run == s.net[n].run :: m == n)
    && (forall m | ParkMsg(s, m) :: s.net[m].run in s.runs && Closing(s.runs[s.net[m].run].phase))
    && (forall m, p | ParkMsg(s, m) && ToPark(s.net[m]).Some? && Has(s, p, ToPark(s.net[m]).value) ::
          p == ByRun(s.net[m].run))
  }

  ghost predicate Inv(s: System) {
    Known(s) && OneCustodian(s) && AttachesLinked(s) && Tokens(s) && ParksLinked(s)
  }

  // ---- the invariant is kept: pieces ----

  /** The worker may change anything about its leases but their owners and tokens, and may add new ones. */
  ghost predicate SameNames(w: Worker, v: Worker) {
    && w.drawn <= v.drawn
    && (forall id | id in w.heap ::
          id in v.heap && v.heap[id].username == w.heap[id].username && v.heap[id].token == w.heap[id].token)
    && (forall id | id in v.heap :: id < v.drawn && v.heap[id].token < v.drawn)
  }

  lemma {:induction false} SweepKeepsNames(w: Worker, ids: seq<nat>)
    ensures var v := SweepTouch(w, ids);
            v == w.(heap := v.heap) && v.heap.Keys == w.heap.Keys
            && forall id | id in w.heap ::
                 v.heap[id].username == w.heap[id].username && v.heap[id].token == w.heap[id].token
  {
    if ids == [] {
    } else {
      SweepKeepsNames(w, ids[..|ids| - 1]);
    }
  }

  ghost predicate Drawn(w: Worker) { forall id | id in w.heap :: id < w.drawn && w.heap[id].token < w.drawn }

  lemma GetKeepsNames(w: Worker, id: nat)
    requires Drawn(w)
    ensures SameNames(w, GetStep(w, id))
  {
  }

  lemma ParkCommitKeepsNames(w: Worker, id: nat, at: int)
    requires Drawn(w)
    ensures SameNames(w, ParkCommit(w, id, at))
  {
  }

  lemma ParkKeepsNames(w: Worker, id: nat)
    requires Drawn(w) && id in w.heap
    ensures SameNames(w, ParkStep(w, id))
  {
    hide QuotaVictims, ParkAllowed;
    W.ReleaseAllKeepsShape(w, QuotaVictims(w, id));
  }

  lemma LeaseStepKeepsNames(w: Worker, a: W.Action)
    requires Drawn(w) && (a.Get? || a.Renew? || a.LatePark? || a.StartExec? || a.EndExec? || a.Park?)
    ensures SameNames(w, W.Step(w, a))
  {
    hide GetStep, ParkCommit, ParkStep, Extend, Window;
    match a
    case Get(id) => GetKeepsNames(w, id);
    case LatePark(id, at) => ParkCommitKeepsNames(w, id, at);
    case Park(id) => if id in w.heap { ParkKeepsNames(w, id); }
    case _ =>
  }

  lemma AcquireKeepsNames(w: Worker, a: W.Action)
    requires Drawn(w) && (a.Acquire? || a.Retry?)
    ensures SameNames(w, W.Step(w, a))
  {
  }

  lemma InsideKeepsNames(w: Worker, a: W.Action)
    requires !a.Attach? && Drawn(w)
    ensures SameNames(w, W.Step(w, a))
  {
    if a.SweepScan? { SweepKeepsNames(w, w.order); }
    else if a.Acquire? || a.Retry? { AcquireKeepsNames(w, a); }
    else if a.Get? || a.Renew? || a.LatePark? || a.StartExec? || a.EndExec? || a.Park? { LeaseStepKeepsNames(w, a); }
  }

  predicate Less(t: Option<Cred>, s: Option<Cred>) { t == s || t.None? }

  predicate Waiting(p: Phase) { p.Starting? || p.Resuming? }

  /** A session that has at most lost something, and not while its attach is under way. */
  predicate LessSession(x: Session, y: Session) {
    && y.user == x.user && y.key == x.key && Less(y.handle, x.handle) && Less(y.lease, x.lease)
    && (y.phase == x.phase || (!x.phase.Resuming? && !Waiting(y.phase))) && (Closing(x.phase) ==> Closing(y.phase))
  }

  /** Nobody gained a way to a lease and nothing new is under way. */
  ghost predicate Fewer(s: System, t: System) {
    && SameNames(s.worker, t.worker) && s.nextMsg <= t.nextMsg
    && (forall m | m in t.net :: m in s.net && t.net[m] == s.net[m])
    && t.runs.Keys == s.runs.Keys && (forall r | r in s.runs :: LessSession(s.runs[r], t.runs[r]))
    && (forall r | r in s.runs && s.runs[r].phase.Resuming? :: t.runs[r] == s.runs[r])
    && (forall k | k in t.sticky :: t.sticky[k].handle.None? || (k in s.sticky && t.sticky[k] == s.sticky[k]))
  }

  lemma FewerKnown(s: System, t: System)
    requires Known(s) && Fewer(s, t)
    ensures Known(t)
  {
    forall r | r in t.runs ensures SessionKnown(t, r) { assert SessionKnown(s, r); }
    forall m | m in t.net ensures MsgKnown(t, m) { assert MsgKnown(s, m); }
  }

  lemma FewerCustodians(s: System, t: System)
    requires Fewer(s, t)
    ensures forall p, lease | Has(t, p, lease) :: Has(s, p, lease)
    ensures OneCustodian(s) ==> OneCustodian(t)
  {
  }

  lemma FewerAttaches(s: System, t: System)
    requires AttachesLinked(s) && Fewer(s, t)
    ensures AttachesLinked(t)
  {
    FewerCustodians(s, t);
    FewerWaiting(s, t);
    hide Fewer, Has;
    AttachesFrom(s, t);
  }

  lemma FewerWaiting(s: System, t: System)
    requires Fewer(s, t)
    ensures s.runs.Keys == t.runs.Keys
    ensures forall m | m in t.net :: m in s.net && t.net[m] == s.net[m]
    ensures forall r | r in s.runs :: s.runs[r].phase.Starting? <== t.runs[r].phase.Starting?
    ensures forall r :: InPhase(t, r, Resuming) == InPhase(s, r, Resuming)
    ensures forall r, lease | InPhase(t, r, Resuming) :: Has(t, ByRun(r), lease) == Has(s, ByRun(r), lease)
  {
  }

  /** Tokens stay in order when nothing starts being used, asked for, under way or stored. */
  lemma TokensFrom(s: System, t: System)
    requires Tokens(s) && SameNames(s.worker, t.worker)
    requires forall r, c | Using(t, r, c) :: Using(s, r, c)
    requires forall m, q, c | Asking(t, m, q, c) :: Asking(s, m, q, c)
    requires forall m, c | Arriving(t, m, c) :: Arriving(s, m, c)
    requires forall c | Stored(t, c) :: Stored(s, c)
    ensures Tokens(t)
  {
  }

  lemma FewerTokens(s: System, t: System)
    requires Tokens(s) && Fewer(s, t)
    ensures Tokens(t)
  {
    TokensFrom(s, t);
  }

  /** How parks stay linked when none is new. */
  lemma ParksFrom(s: System, t: System)
    requires ParksLinked(s) && s.runs.Keys <= t.runs.Keys
    requires forall m | ParkMsg(t, m) :: ParkMsg(s, m) && t.net[m] == s.net[m]
    requires forall r | r in s.runs && Closing(s.runs[r].phase) :: Closing(t.runs[r].phase)
    requires forall m, p | ParkMsg(t, m) && ToPark(t.net[m]).Some? && Has(t, p, ToPark(t.net[m]).value) ::
               p == ByRun(t.net[m].run)
    ensures ParksLinked(t)
  {
  }

  /** Custody that stays, or leaves a place that no park is about, disturbs no park. */
  lemma ParksMove(s: System, t: System, p: Place, q: Place)
    requires ParksLinked(s) && s.runs.Keys <= t.runs.Keys
    requires forall m | ParkMsg(t, m) :: ParkMsg(s, m) && t.net[m] == s.net[m]
    requires forall r | r in s.runs && Closing(s.runs[r].phase) :: Closing(t.runs[r].phase)
    requires forall x, l | Has(t, x, l) :: Has(s, x, l) || (x == q && Has(s, p, l))
    requires p.ByRun? ==> forall m | ParkMsg(t, m) :: t.net[m].run != p.run
    ensures ParksLinked(t)
  {
    ParksFrom(s, t);
  }

  lemma FewerParks(s: System, t: System)
    requires ParksLinked(s) && Fewer(s, t)
    ensures ParksLinked(t)
  {
    FewerCustodians(s, t);
    ParksFrom(s, t);
  }

  lemma FewerInv(s: System, t: System)
    requires Inv(s) && Fewer(s, t)
    ensures Inv(t)
  {
    hide Fewer, Known, OneCustodian, AttachesLinked, Tokens, ParksLinked;
    FewerParks(s, t);
    FewerKnown(s, t);
    FewerCustodians(s, t);
    FewerAttaches(s, t);
    FewerTokens(s, t);
  }

  // ---- the invariant is kept: events that hand something on ----

  /** Posting an attach request of a run, or moving it one stage on. */
  lemma PostWanted(s: System, m: Msg)
    requires Inv(s) && m.run in s.runs && !s.runs[m.run].phase.Starting?
    requires m.Admitted? ==> MadeFor(s.worker, m.lease, s.runs[m.run].user)
    requires m.Ask? ==> m.verb == Attach && s.runs[m.run].handle == Some(m.cred) && InPhase(s, m.run, Resuming)
    requires m.Admitted? || m.Ask?
    requires AttachReady(s, m)
    ensures Inv(Post(s, m))
  {
    assert SessionKnown(s, m.run);
    PostKnown(s, m);
    PostPlaces(s, m);
    PostAttaches(s, Post(s, m), m);
    PostParks(s, m);
    if m.Ask? {
      forall r | Using(s, r, m.cred) ensures r == m.run {
        assert Has(s, ByRun(r), m.cred.lease) && Has(s, ByRun(m.run), m.cred.lease);
      }
    }
    PostTokens(s, m);
  }

  /** The moment before an attach is asked for, or goes one stage on. */
  ghost predicate AttachReady(s: System, m: Msg) {
    && m.run in s.runs && !s.runs[m.run].phase.Starting?
    && (forall n | AttachMsg(s, n) :: s.net[n].run != m.run)
    && InOrder(s, m)
  }

  /** The attaches of a larger net whose one new message was ready to be sent. */
  lemma PostAttaches(s: System, t: System, m: Msg)
    requires AttachesLinked(s) && t.net == s.net[s.nextMsg := m] && t.runs == s.runs
    requires AboutAttach(m) ==> AttachReady(s, m)
    requires forall p, lease :: Has(t, p, lease) == Has(s, p, lease)
    ensures AttachesLinked(t)
  {
    hide Has, InPhase, InOrder;
    forall n | AttachMsg(t, n) ensures if n == s.nextMsg then AboutAttach(m) else AttachMsg(s, n) {}
    forall n | AttachMsg(t, n) ensures InOrder(t, t.net[n]) { SameOrder(s, t, t.net[n]); }
  }

  lemma SameOrder(s: System, t: System, m: Msg)
    requires t.runs == s.runs && forall p, lease :: Has(t, p, lease) == Has(s, p, lease)
    ensures InOrder(t, m) == InOrder(s, m)
  {
    hide Has, Wanted;
  }

  lemma SamePhases(s: System, t: System)
    requires t.runs == s.runs
    ensures forall r, p :: InPhase(t, r, p) == InPhase(s, r, p)
  {
  }

  lemma PostKnown(s: System, m: Msg)
    requires Known(s) && MsgKnown(s.(net := s.net[s.nextMsg := m], nextMsg := s.nextMsg + 1), s.nextMsg)
    ensures Known(Post(s, m))
  {
    var t := Post(s, m);
    forall r | r in t.runs ensures SessionKnown(t, r) { assert SessionKnown(s, r); }
    forall n | n in t.net ensures MsgKnown(t, n) { if n != s.nextMsg { assert MsgKnown(s, n); } }
  }

  lemma PostPlaces(s: System, m: Msg)
    requires Known(s) && !m.GotLease?
    ensures forall p, lease :: Has(Post(s, m), p, lease) == Has(s, p, lease)
    ensures OneCustodian(s) ==> OneCustodian(Post(s, m))
  {
    assert s.nextMsg in s.net ==> MsgKnown(s, s.nextMsg);
  }

  lemma PostTokens(s: System, m: Msg)
    requires Known(s) && Tokens(s) && !m.GotLease? && (m.AttachReply? ==> m.got.None?)
    requires m.Ask? ==> forall r | Using(s, r, m.cred) :: r == m.run
    requires m.Ask? ==> m.run in s.runs && (s.runs[m.run].lease == Some(m.cred) || s.runs[m.run].handle == Some(m.cred))
    ensures Tokens(Post(s, m))
  {
    var t := Post(s, m);
    forall r, c | Using(t, r, c) ensures Using(s, r, c) {}
    forall n, q, c | Asking(t, n, q, c) ensures Asking(s, n, q, c) || (m.Ask? && q == m.run && c == m.cred) {}
    forall n, c | Arriving(t, n, c) ensures Arriving(s, n, c) {}
    forall c | Stored(t, c) ensures Stored(s, c) {}
    if m.Ask? { assert Stored(s, m.cred); }
  }

  /** The moment before a park is asked for, or goes one stage on. */
  ghost predicate ParkReady(s: System, m: Msg) {
    && m.run in s.runs && Closing(s.runs[m.run].phase)
    && (forall n | ParkMsg(s, n) :: s.net[n].run != m.run)
    && (forall p | ToPark(m).Some? && Has(s, p, ToPark(m).value) :: p == ByRun(m.run))
  }

  lemma PostParks(s: System, m: Msg)
    requires ParksLinked(s) && (AboutPark(m) ==> ParkReady(s, m))
    requires forall p, lease :: Has(Post(s, m), p, lease) == Has(s, p, lease)
    ensures ParksLinked(Post(s, m))
  {
    forall n | ParkMsg(Post(s, m), n) && n != s.nextMsg ensures ParkMsg(s, n) {}
  }

  /** Posting anything that is neither an attach request nor a credential. */
  lemma PostPlain(s: System, m: Msg)
    requires Inv(s) && m.run in s.runs && (AboutPark(m) ==> ParkReady(s, m))
    requires m.ParkReply?
             || ((m.ParkAdmitted? || m.ParkBegun? || m.UseAdmitted?) && MadeFor(s.worker, m.lease, s.runs[m.run].user))
             || (m.AskLease? && !Waiting(s.runs[m.run].phase))
             || (m == AttachReply(m.run, None) && AttachReady(s, m))
             || (m.Ask? && m.verb != Attach && Using(s, m.run, m.cred))
    ensures Inv(Post(s, m))
  {
    if m.Ask? { SoleUser(s, m.run, m.cred); }
    assert SessionKnown(s, m.run);
    PostKnown(s, m);
    PostPlaces(s, m);
    PostTokens(s, m);
    PostAttaches(s, Post(s, m), m);
    PostParks(s, m);
  }

  lemma SoleUser(s: System, r: nat, c: Cred)
    requires Known(s) && OneCustodian(s) && Using(s, r, c)
    ensures Issued(s.worker, c) && forall q | Using(s, q, c) :: q == r
  {
    assert SessionKnown(s, r);
    forall q | Using(s, q, c) ensures q == r { assert Has(s, ByRun(q), c.lease) && Has(s, ByRun(r), c.lease); }
  }

  lemma StartAttachInv(s: System, r: nat)
    requires Inv(s)
    ensures Inv(StartAttach(s, r))
  {
    if InPhase(s, r, Starting) && s.runs[r].handle.Some? {
      assert SessionKnown(s, r);
      var t := SetRun(s, r, s.runs[r].(phase := Resuming));
      StartedResuming(s, r);
      PostWanted(t, Ask(r, s.runs[r].handle.value, Attach));
    }
  }

  lemma StartedResuming(s: System, r: nat)
    requires Inv(s) && InPhase(s, r, Starting)
    ensures Inv(SetRun(s, r, s.runs[r].(phase := Resuming)))
    ensures forall n | AttachMsg(s, n) :: s.net[n].run != r
  {
    hide Known, OneCustodian, AttachesLinked, Tokens, ParksLinked;
    var t := SetRun(s, r, s.runs[r].(phase := Resuming));
    StartedKnown(s, t, r);
    StartedAttaches(s, t, r);
    StartedTokens(s, t, r);
    ParksMove(s, t, ByMsg(0), ByMsg(0));
  }

  lemma StartedKnown(s: System, t: System, r: nat)
    requires Known(s) && InPhase(s, r, Starting) && t == SetRun(s, r, s.runs[r].(phase := Resuming))
    ensures Known(t) && forall p, lease :: Has(t, p, lease) == Has(s, p, lease)
    ensures OneCustodian(s) ==> OneCustodian(t)
  {
    forall q | q in t.runs ensures SessionKnown(t, q) { assert SessionKnown(s, q); }
    forall m | m in t.net ensures MsgKnown(t, m) { assert MsgKnown(s, m); }
    forall p, lease ensures Has(t, p, lease) == Has(s, p, lease) {}
  }

  lemma StartedTokens(s: System, t: System, r: nat)
    requires Tokens(s) && Known(s) && InPhase(s, r, Starting) && t == SetRun(s, r, s.runs[r].(phase := Resuming))
    requires forall m, c | Arriving(t, m, c) :: Arriving(s, m, c)
    ensures Tokens(t)
  {
    TokensFrom(s, t);
  }

  lemma StartedAttaches(s: System, t: System, r: nat)
    requires AttachesLinked(s) && r in s.runs && s.runs[r].phase.Starting?
    requires t == SetRun(s, r, s.runs[r].(phase := Resuming))
    requires forall p, lease :: Has(t, p, lease) == Has(s, p, lease)
    ensures AttachesLinked(t)
    ensures forall n | AttachMsg(s, n) :: s.net[n].run != r
    ensures forall m, c | Arriving(t, m, c) :: Arriving(s, m, c)
  {
    hide Has, InPhase;
    forall m ensures AttachMsg(t, m) == AttachMsg(s, m) {}
    SamePhasesBut(s, t, r);
    forall m | AttachMsg(s, m) ensures s.net[m].run != r {}
    forall m | m in t.net && (Wanted(t.net[m]).Some? || t.net[m].AttachReply?) ensures AttachMsg(s, m) {}
  }

  lemma SamePhasesBut(s: System, t: System, r: nat)
    requires r in s.runs && r in t.runs && t.runs == s.runs[r := t.runs[r]]
    ensures forall q, p | q != r :: InPhase(t, q, p) == InPhase(s, q, p)
    ensures forall p :: InPhase(s, r, p) <==> s.runs[r].phase == p
  {
  }

  /** An attach request is its run's only one, and it is for a lease that the waiting run alone has a way
      to, or nobody. */
  lemma WantedFacts(s: System, t: System, m: nat)
    requires Inv(s) && m in s.net && Wanted(s.net[m]).Some?
    requires t.net == s.net - {m} && t.runs == s.runs && t.sticky == s.sticky
    ensures var r, lease := s.net[m].run, Wanted(s.net[m]).value;
            && r in s.runs && lease in s.worker.heap && !s.runs[r].phase.Starting?
            && AttachReady(t, AttachReply(r, None)) && AttachReady(t, Admitted(r, lease))
            && (forall c: Cred | c.lease == lease :: AttachReady(t, AttachReply(r, Some(c))))
            && (!InPhase(t, r, Resuming) ==> forall p :: !Has(t, p, lease))
  {
    hide OneCustodian, Tokens, ParksLinked, Accepts, Has;
    var r, lease := s.net[m].run, Wanted(s.net[m]).value;
    assert AttachMsg(s, m) && MsgKnown(s, m);
    forall n | AttachMsg(t, n) ensures t.net[n].run != r { assert AttachMsg(s, n); }
    TakenPlaces(s, t, m);
  }

  lemma TakenPlaces(s: System, t: System, m: nat)
    requires t.net == s.net - {m} && t.runs == s.runs && t.sticky == s.sticky
    ensures forall p, lease | Has(t, p, lease) :: Has(s, p, lease)
    ensures forall p: Place, lease | !p.ByMsg? :: Has(t, p, lease) == Has(s, p, lease)
  {
  }

  lemma ReceiveAttachInv(s: System, t: System, m: nat)
    requires Inv(s) && m in s.net && s.net[m].Ask? && s.net[m].verb == Attach
    requires t.net == s.net - {m} && t.runs == s.runs && t.sticky == s.sticky && t.nextMsg == s.nextMsg && Inv(t)
    requires s.net[m].run in s.runs && MadeFor(t.worker, s.net[m].cred.lease, s.runs[s.net[m].run].user)
    ensures Inv(Post(t, Admitted(s.net[m].run, s.net[m].cred.lease)))
    ensures Inv(Post(t, AttachReply(s.net[m].run, None)))
  {
    hide Inv, Has, AttachMsg;
    var Ask(r, c, _) := s.net[m];
    WantedFacts(s, t, m);
    PostWanted(t, Admitted(r, c.lease));
    PostPlain(t, AttachReply(r, None));
  }

  lemma TakenUpInv(s: System, m: nat)
    requires Inv(s) && m in s.net && s.net[m].Ask?
    ensures Inv(TakenUp(s, m)) && s.net[m].run in s.runs
    ensures MadeFor(TakenUp(s, m).worker, s.net[m].cred.lease, s.runs[s.net[m].run].user)
  {
    hide Inv, OneCustodian, AttachesLinked, Tokens, ParksLinked, SessionKnown;
    KnownMessage(s, m);
    GetKeepsNames(s.worker, s.net[m].cred.lease);
    TakeInv(s, m);
    WorkerInv(Take(s, m), GetStep(s.worker, s.net[m].cred.lease));
  }

  lemma ReleasedInv(t: System, id: nat)
    requires Inv(t)
    ensures Inv(t.(worker := BeginRelease(t.worker, id)))
  {
    hide Inv;
    InvDrawn(t);
    WorkerInv(t, BeginRelease(t.worker, id));
  }

  /** Taking a park out of the net: its run has no other, and its lease is still nobody else's. */
  lemma ParkTaken(s: System, t: System, m: nat, next: Msg)
    requires ParksLinked(s) && ParkMsg(s, m)
    requires t.net == s.net - {m} && t.runs == s.runs && t.sticky == s.sticky
    requires next.run == s.net[m].run && (ToPark(next).None? || ToPark(next) == ToPark(s.net[m]))
    ensures ParkReady(t, next)
  {
    forall n | ParkMsg(t, n) ensures t.net[n].run != s.net[m].run { assert ParkMsg(s, n); }
    forall p, l | Has(t, p, l) ensures Has(s, p, l) {}
  }

  lemma ReceiveParkInv(t: System, r: nat, lease: nat)
    requires Inv(t) && r in t.runs && MadeFor(t.worker, lease, t.runs[r].user)
    requires ParkReady(t, ParkReply(r, false)) && ParkReady(t, ParkAdmitted(r, lease))
    ensures Inv(Post(t, ParkReply(r, false))) && Inv(Post(t, ParkAdmitted(r, lease)))
  {
    PostPlain(t, ParkReply(r, false));
    PostPlain(t, ParkAdmitted(r, lease));
  }

  lemma ReceiveAskInv(s: System, m: nat)
    requires Inv(s)
    ensures Inv(ReceiveAsk(s, m))
  {
    hide Inv, Has, ParkReady, AttachMsg, ParksLinked, MadeFor, Accepts, GetStep, BeginRelease;
    if m in s.net && s.net[m].Ask? {
      var Ask(r, c, verb) := s.net[m];
      var t := TakenUp(s, m);
      KnownMessage(s, m);
      TakenUpInv(s, m);
      match verb
      case Attach => ReceiveAttachInv(s, t, m);
      case Park =>
        ParkTaken(s, t, m, ParkReply(r, false));
        ParkTaken(s, t, m, ParkAdmitted(r, c.lease));
        ReceiveParkInv(t, r, c.lease);
      case Delete => ReleasedInv(t, c.lease);
      case Use => PostPlain(t, UseAdmitted(r, c.lease));
    }
  }

  /** How attaches stay linked when no attach message is new and no run starts waiting. */
  lemma AttachesFrom(s: System, t: System)
    requires AttachesLinked(s) && s.runs.Keys <= t.runs.Keys
    requires forall m | AttachMsg(t, m) :: AttachMsg(s, m) && t.net[m] == s.net[m]
    requires forall r | r in s.runs && !s.runs[r].phase.Starting? :: !t.runs[r].phase.Starting?
    requires forall r | InPhase(t, r, Resuming) :: InPhase(s, r, Resuming)
    requires forall r, l | InPhase(t, r, Resuming) && Has(s, ByRun(r), l) :: Has(t, ByRun(r), l)
    requires forall m, p | AttachMsg(t, m) && Wanted(t.net[m]).Some? && !InPhase(t, t.net[m].run, Resuming) ::
               !Has(t, p, Wanted(t.net[m]).value)
    ensures AttachesLinked(t)
  {
    forall m | m in t.net && (Wanted(t.net[m]).Some? || t.net[m].AttachReply?) ensures AttachMsg(t, m) {}
  }

  lemma DoAttachInv(s: System, m: nat)
    requires Inv(s)
    ensures Inv(DoAttach(s, m))
  {
    hide Inv, Has, AttachMsg, MayAttach;
    if m in s.net && s.net[m].Admitted? {
      var Admitted(r, lease) := s.net[m];
      var t := Take(s, m);
      WantedFacts(s, t, m);
      TakeInv(s, m);
      if MayAttach(s, r, lease) {
        RotatedInv(t, r, lease);
      } else {
        PostPlain(t, AttachReply(r, None));
      }
    }
  }

  /** The token of a lease nobody is using is replaced, and the new one sent to the run that asked. */
  lemma RotatedInv(s: System, r: nat, lease: nat)
    requires Inv(s) && lease in s.worker.heap && AttachReady(s, AttachReply(r, Some(Cred(lease, s.worker.drawn))))
    requires !InPhase(s, r, Resuming) ==> forall p :: !Has(s, p, lease)
    ensures Inv(Post(s.(worker := AttachStep(s.worker, lease)), AttachReply(r, Some(Cred(lease, s.worker.drawn)))))
  {
    hide Known, OneCustodian, AttachesLinked, Tokens, ParksLinked;
    var c := Cred(lease, s.worker.drawn);
    var t := Post(s.(worker := AttachStep(s.worker, lease)), AttachReply(r, Some(c)));
    RotatedKnown(s, t, r, lease);
    RotatedPlaces(s, t, r, lease);
    PostAttaches(s, t, AttachReply(r, Some(c)));
    RotatedTokens(s, t, r, lease);
    RotatedParks(s, t, r, c);
  }

  lemma RotatedPlaces(s: System, t: System, r: nat, lease: nat)
    requires Known(s) && OneCustodian(s) && r in s.runs
    requires t == Post(s.(worker := AttachStep(s.worker, lease)), AttachReply(r, Some(Cred(lease, s.worker.drawn))))
    requires InPhase(s, r, Resuming) ==> Has(s, ByRun(r), lease)
    requires !InPhase(s, r, Resuming) ==> forall p :: !Has(s, p, lease)
    ensures OneCustodian(t) && forall p, l :: Has(t, p, l) == Has(s, p, l)
    ensures forall p | Has(s, p, lease) :: p == ByRun(r) && InPhase(s, r, Resuming)
  {
    assert s.nextMsg in s.net ==> MsgKnown(s, s.nextMsg);
    forall p, l ensures Has(t, p, l) == Has(s, p, l) {}
  }

  lemma RotatedParks(s: System, t: System, r: nat, c: Cred)
    requires ParksLinked(s) && t == Post(s.(worker := t.worker), AttachReply(r, Some(c)))
    requires forall p, l :: Has(t, p, l) == Has(s, p, l)
    ensures ParksLinked(t)
  {
    forall n | ParkMsg(t, n) ensures ParkMsg(s, n) && t.net[n] == s.net[n] {}
    ParksFrom(s, t);
  }

  lemma RotatedKnown(s: System, t: System, r: nat, lease: nat)
    requires Known(s) && r in s.runs && lease in s.worker.heap
    requires t == Post(s.(worker := AttachStep(s.worker, lease)), AttachReply(r, Some(Cred(lease, s.worker.drawn))))
    ensures Known(t)
  {
    forall q | q in t.runs ensures SessionKnown(t, q) { assert SessionKnown(s, q); }
    forall n | n in t.net ensures MsgKnown(t, n) { if n != s.nextMsg { assert MsgKnown(s, n); } }
  }

  lemma RotatedTokens(s: System, t: System, r: nat, lease: nat)
    requires Inv(s) && r in s.runs && lease in s.worker.heap
    requires t == Post(s.(worker := AttachStep(s.worker, lease)), AttachReply(r, Some(Cred(lease, s.worker.drawn))))
    requires forall p | Has(s, p, lease) :: p == ByRun(r) && InPhase(s, r, Resuming)
    requires forall n | AttachMsg(s, n) :: s.net[n].run != r
    ensures Tokens(t)
  {
    hide OneCustodian, AttachMsg, AttachesLinked, ParksLinked, Stored;
    var rotated := Cred(lease, s.worker.drawn);
    forall q, c | Using(t, q, c) ensures Using(s, q, c) && c.lease != lease && c.token < s.worker.drawn {
      assert SessionKnown(s, q);
      assert Has(s, ByRun(q), c.lease);
    }
    forall n, q, c | Asking(t, n, q, c) ensures Asking(s, n, q, c) && c != rotated { assert MsgKnown(s, n); }
    forall n, c | Arriving(t, n, c)
      ensures (c == rotated && n == s.nextMsg) || (Arriving(s, n, c) && c.lease != lease)
    {
      if n != s.nextMsg { ArrivingElsewhere(s, n, c, r, lease); }
    }
    forall c | Stored(t, c) ensures Stored(s, c) && c != rotated {
      SameStores(s, t, c);
      StoredIsIssued(s, c);
    }
  }

  lemma SameStores(s: System, t: System, c: Cred)
    requires t.runs == s.runs && t.sticky == s.sticky
    ensures Stored(t, c) == Stored(s, c)
  {
  }

  lemma ArrivingElsewhere(s: System, n: nat, c: Cred, r: nat, lease: nat)
    requires AttachesLinked(s) && Arriving(s, n, c)
    requires forall p | Has(s, p, lease) :: p == ByRun(r)
    requires forall m | AttachMsg(s, m) :: s.net[m].run != r
    ensures c.lease != lease
  {
    ArrivingPlace(s, n, c);
  }

  lemma StoredIsIssued(s: System, c: Cred)
    requires Known(s) && Stored(s, c)
    ensures Issued(s.worker, c)
  {
    if r :| r in s.runs && (s.runs[r].lease == Some(c) || s.runs[r].handle == Some(c)) { assert SessionKnown(s, r); }
  }

  /** A run that stops waiting for its attach gives up the handle; its request, if any, is then for a
      lease nobody can reach. */
  lemma GiveUpInv(s: System, r: nat)
    requires Inv(s) && InPhase(s, r, Resuming)
    ensures Inv(GiveUpAttach(s, r))
  {
    hide Known, OneCustodian, AttachesLinked, Tokens, ParksLinked;
    GiveUpKnown(s, r);
    GiveUpCustody(s, r);
    GiveUpAttaches(s, r);
    GiveUpTokens(s, r);
    ParksMove(s, GiveUpAttach(s, r), ByMsg(0), ByMsg(0));
  }

  lemma GiveUpCustody(s: System, r: nat)
    requires OneCustodian(s) && InPhase(s, r, Resuming)
    requires forall p, l | Has(GiveUpAttach(s, r), p, l) :: Has(s, p, l) && p != ByRun(r)
    ensures OneCustodian(GiveUpAttach(s, r))
  {
  }

  lemma GiveUpTokens(s: System, r: nat)
    requires Known(s) && Tokens(s) && InPhase(s, r, Resuming)
    ensures Tokens(GiveUpAttach(s, r))
  {
    TokensFrom(s, GiveUpAttach(s, r));
  }

  lemma GiveUpKnown(s: System, r: nat)
    requires Known(s) && InPhase(s, r, Resuming)
    ensures Known(GiveUpAttach(s, r))
    ensures forall p, l | Has(GiveUpAttach(s, r), p, l) :: Has(s, p, l) && p != ByRun(r)
    ensures forall q, l | q != r :: Has(GiveUpAttach(s, r), ByRun(q), l) == Has(s, ByRun(q), l)
  {
    var t := GiveUpAttach(s, r);
    assert SessionKnown(s, r);
    forall q | q in t.runs ensures SessionKnown(t, q) { assert SessionKnown(s, q); }
    forall m | m in t.net ensures MsgKnown(t, m) { assert MsgKnown(s, m); }
  }

  lemma GiveUpAttaches(s: System, r: nat)
    requires AttachesLinked(s) && OneCustodian(s) && InPhase(s, r, Resuming)
    requires forall p, l | Has(GiveUpAttach(s, r), p, l) :: Has(s, p, l) && p != ByRun(r)
    requires forall q, l | q != r :: Has(GiveUpAttach(s, r), ByRun(q), l) == Has(s, ByRun(q), l)
    ensures AttachesLinked(GiveUpAttach(s, r))
  {
    hide Has;
    var t := GiveUpAttach(s, r);
    forall m, p | AttachMsg(t, m) && Wanted(t.net[m]).Some? && !InPhase(t, t.net[m].run, Resuming)
      ensures !Has(t, p, Wanted(t.net[m]).value)
    {
      if t.net[m].run == r { assert Has(s, ByRun(r), Wanted(s.net[m]).value); }
    }
    AttachesFrom(s, t);
  }

  lemma TakeAttachReplyInv(s: System, m: nat)
    requires Inv(s)
    ensures Inv(TakeAttachReply(s, m))
  {
    if m in s.net && s.net[m].AttachReply? {
      var AttachReply(r, got) := s.net[m];
      var t := Take(s, m);
      FewerInv(s, t);
      if InPhase(s, r, Resuming) {
        if got.Some? {
          AttachReplyFacts(s, m, got.value);
          AttachedInv(t, r, got.value);
        } else {
          GiveUpInv(t, r);
        }
      }
    }
  }

  lemma AttachReplyFacts(s: System, m: nat, c: Cred)
    requires Inv(s) && m in s.net && s.net[m] == AttachReply(s.net[m].run, Some(c))
             && InPhase(s, s.net[m].run, Resuming)
    ensures var t, r := Take(s, m), s.net[m].run;
            && Has(t, ByRun(r), c.lease) && Current(t.worker, c)
            && (forall n | AttachMsg(t, n) :: t.net[n].run != r)
            && (forall n, q :: !Asking(t, n, q, c))
            && (forall n :: !Arriving(t, n, c))
  {
    var t, r := Take(s, m), s.net[m].run;
    assert AttachMsg(s, m) && Arriving(s, m, c);
    forall n | AttachMsg(t, n) ensures t.net[n].run != r { assert AttachMsg(s, n); }
    forall n ensures !Arriving(t, n, c) { OneArriving(s, m, n, c); }
    forall n, q ensures !Asking(t, n, q, c) { assert Asking(t, n, q, c) ==> Asking(s, n, q, c); }
    assert Has(s, ByRun(r), c.lease);
  }

  /** A credential is on its way only once. */
  lemma OneArriving(s: System, m: nat, n: nat, c: Cred)
    requires Inv(s) && Arriving(s, m, c)
    ensures Arriving(s, n, c) ==> m == n
  {
    ArrivingPlace(s, m, c);
    if Arriving(s, n, c) { ArrivingPlace(s, n, c); }
  }

  lemma ArrivingPlace(s: System, m: nat, c: Cred)
    requires AttachesLinked(s) && Arriving(s, m, c)
    ensures if s.net[m].GotLease? then Has(s, ByMsg(m), c.lease)
            else AttachMsg(s, m) && Has(s, ByRun(s.net[m].run), c.lease)
  {
  }

  lemma AttachedInv(s: System, r: nat, c: Cred)
    requires Inv(s) && InPhase(s, r, Resuming) && Has(s, ByRun(r), c.lease) && Current(s.worker, c)
    requires forall n | AttachMsg(s, n) :: s.net[n].run != r
    requires forall n, q :: !Asking(s, n, q, c)
    requires forall n :: !Arriving(s, n, c)
    ensures Inv(SetRun(s, r, s.runs[r].(phase := Active, lease := Some(c))))
  {
    hide Known, Tokens, ParksLinked;
    var t := SetRun(s, r, s.runs[r].(phase := Active, lease := Some(c)));
    AttachedKnown(s, r, c);
    AttachesFrom(s, t);
    AdoptedTokens(s, t, r, c);
    ParksMove(s, t, ByMsg(0), ByMsg(0));
  }

  lemma AttachedKnown(s: System, r: nat, c: Cred)
    requires Known(s) && InPhase(s, r, Resuming) && Has(s, ByRun(r), c.lease) && Current(s.worker, c)
    ensures var t := SetRun(s, r, s.runs[r].(phase := Active, lease := Some(c)));
            Known(t) && forall p, lease :: Has(t, p, lease) == Has(s, p, lease)
  {
    var t := SetRun(s, r, s.runs[r].(phase := Active, lease := Some(c)));
    assert SessionKnown(s, r);
    forall q | q in t.runs ensures SessionKnown(t, q) { assert SessionKnown(s, q); }
    forall m | m in t.net ensures MsgKnown(t, m) { assert MsgKnown(s, m); }
  }

  lemma AdoptedTokens(s: System, t: System, r: nat, c: Cred)
    requires Known(s) && Tokens(s) && Current(s.worker, c) && r in s.runs && t.worker == s.worker
             && t.sticky == s.sticky
    requires t.net == s.net && r in t.runs && t.runs == s.runs[r := t.runs[r]]
    requires t.runs[r].lease == Some(c) && Less(t.runs[r].handle, s.runs[r].handle) && !t.runs[r].phase.Resuming?
    requires forall n, q :: !Asking(s, n, q, c)
    requires forall n :: !Arriving(s, n, c)
    ensures Tokens(t)
  {
    forall q, d | Using(t, q, d) ensures Using(s, q, d) || (q == r && d == c) {}
    forall n, q, d ensures Asking(t, n, q, d) == Asking(s, n, q, d) {}
    forall n, d | Arriving(t, n, d) ensures Arriving(s, n, d) {}
    forall d | Stored(t, d) ensures Stored(s, d) || d == c {}
  }

  /** Custody that stays where it was, or moves from p to q, keeps one custodian per lease. */
  lemma CustodyMoves(s: System, t: System, p: Place, q: Place)
    requires OneCustodian(s)
    requires forall x, l | Has(t, x, l) :: Has(s, x, l) || (x == q && Has(s, p, l) && !Has(t, p, l))
    ensures OneCustodian(t)
  {
    forall x, y, l | Has(t, x, l) && Has(t, y, l) ensures x == y {
      assert Has(s, if Has(s, x, l) then x else p, l) && Has(s, if Has(s, y, l) then y else p, l);
    }
  }

  // ---- a run begins ----

  lemma BeginRunInv(s: System, r: nat, user: string, sessionKey: string, parkEnabled: bool, now: int)
    requires Inv(s)
    ensures Inv(BeginRun(s, r, user, sessionKey, parkEnabled, now))
  {
    if r !in s.runs && '\0' !in user {
      var key := KeyOf(user, sessionKey);
      var t := BeginRun(s, r, user, sessionKey, parkEnabled, now);
      UserOfKey(user, sessionKey);
      BegunInv(s, t, r, key);
    }
  }

  /** The new run waits for nothing yet; what it knows, if anything, is the handle of the entry it locked. */
  ghost predicate Begun(s: System, t: System, r: nat, key: string) {
    && r !in s.runs && t.worker == s.worker && t.net == s.net && t.nextMsg == s.nextMsg
    && r in t.runs && t.runs == s.runs[r := t.runs[r]]
    && t.runs[r].phase.Starting? && t.runs[r].lease.None? && t.runs[r].key == key && t.runs[r].user == UserOf(key)
    && (t.runs[r].handle.Some? ==>
          key in s.sticky && s.sticky[key].handle == t.runs[r].handle && !HeldByOther(s.sticky, key, r)
          && key in t.sticky && t.sticky[key].busyRun == Some(r))
    && (forall k | k in t.sticky && t.sticky[k].handle.Some? ::
          k in s.sticky && t.sticky[k].handle == s.sticky[k].handle
          && (t.sticky[k].busyRun == s.sticky[k].busyRun || t.sticky[k].busyRun == Some(r)))
  }

  lemma BegunInv(s: System, t: System, r: nat, key: string)
    requires Inv(s) && Begun(s, t, r, key)
    ensures Inv(t)
  {
    BegunKnown(s, t, r, key);
    BegunPlaces(s, t, r, key);
    CustodyMoves(s, t, ByKey(key), ByRun(r));
    BegunAttaches(s, t, r, key);
    BegunTokens(s, t, r, key);
    ParksMove(s, t, ByKey(key), ByRun(r));
  }

  lemma BegunKnown(s: System, t: System, r: nat, key: string)
    requires Known(s) && Begun(s, t, r, key)
    ensures Known(t)
  {
    forall q | q in t.runs ensures SessionKnown(t, q) { if q != r { assert SessionKnown(s, q); } }
    forall m | m in t.net ensures MsgKnown(t, m) { assert MsgKnown(s, m); }
  }

  lemma BegunPlaces(s: System, t: System, r: nat, key: string)
    requires Known(s) && Begun(s, t, r, key)
    ensures forall x, l | Has(t, x, l) ::
            Has(s, x, l) || (x == ByRun(r) && Has(s, ByKey(key), l) && !Has(t, ByKey(key), l))
  {
  }

  /** Custody that leaves a place disturbs no attach: what somebody has, no abandoned attach is for. */
  lemma AttachesMove(s: System, t: System, p: Place)
    requires AttachesLinked(s) && s.runs.Keys <= t.runs.Keys
    requires forall m | AttachMsg(t, m) :: AttachMsg(s, m) && t.net[m] == s.net[m]
    requires forall r | r in s.runs && !s.runs[r].phase.Starting? :: !t.runs[r].phase.Starting?
    requires forall r :: InPhase(t, r, Resuming) <==> InPhase(s, r, Resuming)
    requires forall r, l | InPhase(t, r, Resuming) && Has(s, ByRun(r), l) :: Has(t, ByRun(r), l)
    requires forall x, l | Has(t, x, l) :: Has(s, x, l) || Has(s, p, l)
    ensures AttachesLinked(t)
  {
    hide InPhase, Has;
    forall m, x | AttachMsg(t, m) && Wanted(t.net[m]).Some? && !InPhase(t, t.net[m].run, Resuming)
      ensures !Has(t, x, Wanted(t.net[m]).value)
    {
      assert !Has(s, x, Wanted(s.net[m]).value) && !Has(s, p, Wanted(s.net[m]).value);
    }
    AttachesFrom(s, t);
  }

  lemma BegunAttaches(s: System, t: System, r: nat, key: string)
    requires AttachesLinked(s) && Begun(s, t, r, key)
    requires forall x, l | Has(t, x, l) ::
             Has(s, x, l) || (x == ByRun(r) && Has(s, ByKey(key), l) && !Has(t, ByKey(key), l))
    ensures AttachesLinked(t)
  {
    hide AttachesLinked;
    AttachesMove(s, t, ByKey(key));
  }

  lemma BegunTokens(s: System, t: System, r: nat, key: string)
    requires Known(s) && Tokens(s) && Begun(s, t, r, key)
    ensures Tokens(t)
  {
    forall m, c | Arriving(t, m, c) ensures Arriving(s, m, c) { assert MsgKnown(s, m); }
    TokensFrom(s, t);
  }

  // ---- a lease is granted and adopted ----

  lemma StoredKnown(s: System, p: Place, l: nat)
    requires Known(s) && Has(s, p, l)
    ensures l in s.worker.heap
  {
    match p
    case ByRun(r) => assert SessionKnown(s, r);
    case ByMsg(m) => assert MsgKnown(s, m);
    case ByKey(_) =>
  }

  /** Nothing in the system names a lease that does not exist. */
  lemma UnknownLease(s: System, l: nat)
    requires Known(s) && l !in s.worker.heap
    ensures forall p :: !Has(s, p, l)
    ensures forall m | m in s.net :: Wanted(s.net[m]) != Some(l) && ToPark(s.net[m]) != Some(l)
    ensures forall c: Cred | c.lease == l :: !Stored(s, c) && forall m, r :: !Asking(s, m, r, c)
  {
    forall p ensures !Has(s, p, l) { if Has(s, p, l) { StoredKnown(s, p, l); } }
    forall m | m in s.net ensures Wanted(s.net[m]) != Some(l) && ToPark(s.net[m]) != Some(l) { assert MsgKnown(s, m); }
    forall c: Cred, m, r | c.lease == l ensures !Asking(s, m, r, c) { assert Asking(s, m, r, c) ==> MsgKnown(s, m); }
    forall c: Cred | c.lease == l ensures !Stored(s, c) { if Stored(s, c) { StoredIsIssued(s, c); } }
  }

  /** What keeping the names needs. */
  lemma InvDrawn(s: System)
    requires Inv(s)
    ensures Drawn(s.worker) && SameNames(s.worker, s.worker)
  {
  }

  lemma InvKnown(s: System)
    requires Inv(s)
    ensures Known(s)
  {
  }

  lemma TakeInv(s: System, m: nat)
    requires Inv(s)
    ensures Inv(Take(s, m))
  {
    hide Inv, SameNames;
    InvDrawn(s);
    FewerInv(s, Take(s, m));
  }

  lemma WorkerInv(s: System, w: Worker)
    requires Inv(s) && SameNames(s.worker, w)
    ensures Inv(s.(worker := w))
  {
    hide Inv, SameNames;
    FewerInv(s, s.(worker := w));
  }

  lemma AttemptFacts(w: Worker, user: string, retry: bool)
    requires Drawn(w)
    ensures var (v, got) := Attempt(w, user, retry);
            && SameNames(w, v)
            && (got.Full? ==> v == w)
            && (got.Granted? ==>
                  var id := got.lease;
                  id !in w.heap && id in v.heap && v.heap[id].username == user && v.heap[id].token == id + 1)
  {
  }

  lemma NotServedInv(s: System, m: nat, w: Worker, got: Acquisition)
    requires Inv(s) && m in s.net && SameNames(s.worker, w) && !got.Granted?
    ensures Inv(Served(s, m, w, got))
  {
    if got.Preempting? { WorkerInv(s, w); } else { TakeInv(s, m); }
  }

  lemma ServeInv(s: System, m: nat, retry: bool)
    requires Inv(s)
    ensures Inv(Serve(s, m, retry))
  {
    if m in s.net && s.net[m].AskLease? && s.net[m].run in s.runs {
      var (w, got) := Attempt(s.worker, s.runs[s.net[m].run].user, retry);
      AttemptFacts(s.worker, s.runs[s.net[m].run].user, retry);
      if got.Granted? { ServeGrantInv(s, m, w, got.lease); } else { NotServedInv(s, m, w, got); }
    }
  }

  lemma ServeGrantInv(s: System, m: nat, w: Worker, id: nat)
    requires Inv(s) && m in s.net && s.net[m].AskLease? && s.net[m].run in s.runs && SameNames(s.worker, w)
    requires id !in s.worker.heap && id in w.heap
    requires w.heap[id].username == s.runs[s.net[m].run].user && w.heap[id].token == id + 1
    ensures Inv(Served(s, m, w, Granted(id)))
  {
    hide Inv, Known, OneCustodian, AttachesLinked, Tokens, ParksLinked, Has, Stored;
    var t := Take(s, m).(worker := w);
    KnownMessage(s, m);
    TakeInv(s, m);
    WorkerInv(Take(s, m), w);
    InvKnown(Take(s, m));
    UnknownLease(Take(s, m), id);
    GrantInv(Take(s, m), t, s.net[m].run, Cred(id, id + 1));
  }

  lemma GrantInv(s: System, t: System, r: nat, c: Cred)
    requires t == s.(worker := t.worker) && Inv(t) && r in t.runs && !Waiting(t.runs[r].phase)
    requires Current(t.worker, c) && IssuedTo(t.worker, c, t.runs[r].user)
    requires forall p :: !Has(s, p, c.lease)
    requires forall m | m in s.net :: Wanted(s.net[m]) != Some(c.lease) && ToPark(s.net[m]) != Some(c.lease)
    requires !Stored(s, c) && forall m, q :: !Asking(s, m, q, c)
    ensures Inv(Post(t, GotLease(r, c)))
  {
    forall p ensures !Has(t, p, c.lease) { assert !Has(s, p, c.lease); }
    forall m, q ensures !Asking(t, m, q, c) { assert !Asking(s, m, q, c); }
    assert !Stored(t, c);
    PostKnown(t, GotLease(r, c));
    PostGrantPlaces(t, r, c);
    PostGrantAttaches(t, r, c);
    PostGrantTokens(t, r, c);
    PostGrantParks(t, r, c);
  }

  lemma PostGrantParks(t: System, r: nat, c: Cred)
    requires ParksLinked(t) && t.nextMsg !in t.net
    requires forall m | m in t.net :: ToPark(t.net[m]) != Some(c.lease)
    requires forall p, l ::
               Has(Post(t, GotLease(r, c)), p, l) == (Has(t, p, l) || (p == ByMsg(t.nextMsg) && l == c.lease))
    ensures ParksLinked(Post(t, GotLease(r, c)))
  {
    forall n ensures ParkMsg(Post(t, GotLease(r, c)), n) == ParkMsg(t, n) {}
  }

  lemma PostGrantPlaces(t: System, r: nat, c: Cred)
    requires Known(t) && OneCustodian(t) && forall p :: !Has(t, p, c.lease)
    ensures t.nextMsg !in t.net && OneCustodian(Post(t, GotLease(r, c)))
    ensures forall p, l ::
              Has(Post(t, GotLease(r, c)), p, l) == (Has(t, p, l) || (p == ByMsg(t.nextMsg) && l == c.lease))
  {
    assert t.nextMsg in t.net ==> MsgKnown(t, t.nextMsg);
    var v := Post(t, GotLease(r, c));
    forall p, l ensures Has(v, p, l) == (Has(t, p, l) || (p == ByMsg(t.nextMsg) && l == c.lease)) {}
    forall p, q, l | Has(v, p, l) && Has(v, q, l) ensures p == q { assert Has(t, p, l) && Has(t, q, l) ==> p == q; }
  }

  lemma PostGrantAttaches(t: System, r: nat, c: Cred)
    requires AttachesLinked(t) && t.nextMsg !in t.net
    requires forall m | m in t.net :: Wanted(t.net[m]) != Some(c.lease)
    requires forall p, l ::
               Has(Post(t, GotLease(r, c)), p, l) == (Has(t, p, l) || (p == ByMsg(t.nextMsg) && l == c.lease))
    ensures AttachesLinked(Post(t, GotLease(r, c)))
  {
    hide Has, InPhase;
    var v := Post(t, GotLease(r, c));
    forall n ensures AttachMsg(v, n) == AttachMsg(t, n) {}
    forall n | n in v.net && Wanted(v.net[n]).Some? ensures AttachMsg(t, n) {}
    SamePhases(t, v);
  }

  lemma PostGrantTokens(t: System, r: nat, c: Cred)
    requires Tokens(t) && Current(t.worker, c) && t.nextMsg !in t.net
    requires !Stored(t, c) && forall m, q :: !Asking(t, m, q, c)
    ensures Tokens(Post(t, GotLease(r, c)))
  {
    var v, m := Post(t, GotLease(r, c)), t.nextMsg;
    forall n, q, d ensures Asking(v, n, q, d) == Asking(t, n, q, d) {}
    forall n, d ensures Arriving(v, n, d) == (Arriving(t, n, d) || (n == m && d == c)) {}
    forall q, d ensures Using(v, q, d) == Using(t, q, d) {}
    forall d ensures Stored(v, d) == Stored(t, d) {}
  }

  lemma AdoptInv(s: System, m: nat)
    requires Inv(s)
    ensures Inv(Adopt(s, m))
  {
    hide Known, OneCustodian, AttachesLinked, Tokens, ParksLinked;
    if m in s.net && s.net[m].GotLease? && s.net[m].run in s.runs {
      var GotLease(r, c) := s.net[m];
      TakeInv(s, m);
      AdoptKnown(s, m);
      CustodyMoves(s, Adopt(s, m), ByMsg(m), ByRun(r));
      ParksMove(s, Adopt(s, m), ByMsg(m), ByRun(r));
      AdoptAttaches(s, Adopt(s, m), m);
      OnlyCopy(s, m, c);
      AdoptedTokens(Take(s, m), Adopt(s, m), r, c);
    }
  }

  /** A granted credential is current, and nobody else has it or asks with it. */
  lemma OnlyCopy(s: System, m: nat, c: Cred)
    requires Inv(s) && m in s.net && s.net[m] == GotLease(s.net[m].run, c)
    ensures Current(s.worker, c)
    ensures (forall n :: !Arriving(Take(s, m), n, c)) && forall n, q :: !Asking(Take(s, m), n, q, c)
    ensures s.net[m].run in s.runs && !Waiting(s.runs[s.net[m].run].phase)
  {
    assert MsgKnown(s, m) && Arriving(s, m, c);
    forall n ensures !Arriving(Take(s, m), n, c) {
      OneArriving(s, m, n, c);
      assert Arriving(Take(s, m), n, c) ==> Arriving(s, n, c);
    }
    forall n, q ensures !Asking(Take(s, m), n, q, c) { assert Asking(Take(s, m), n, q, c) ==> Asking(s, n, q, c); }
  }

  lemma AdoptKnown(s: System, m: nat)
    requires Known(s) && m in s.net && s.net[m].GotLease?
    ensures var t, r, c := Adopt(s, m), s.net[m].run, s.net[m].cred;
            && Known(t)
            && forall x, l | Has(t, x, l) :: x != ByMsg(m) && (Has(s, x, l) || (x == ByRun(r) && Has(s, ByMsg(m), l)))
  {
    var t := Adopt(s, m);
    assert MsgKnown(s, m);
    forall q | q in t.runs ensures SessionKnown(t, q) { assert SessionKnown(s, q); }
    forall n | n in t.net ensures MsgKnown(t, n) { assert MsgKnown(s, n); }
  }

  lemma AdoptAttaches(s: System, t: System, m: nat)
    requires Known(s) && AttachesLinked(s) && m in s.net && s.net[m].GotLease? && t == Adopt(s, m)
    requires forall x, l | Has(t, x, l) ::
             x != ByMsg(m) && (Has(s, x, l) || (x == ByRun(s.net[m].run) && Has(s, ByMsg(m), l)))
    ensures AttachesLinked(t)
  {
    hide AttachesLinked, Known;
    assert MsgKnown(s, m) by { KnownAt(s, m); }
    AttachesMove(s, t, ByMsg(m));
  }

  lemma KnownAt(s: System, m: nat)
    requires Known(s) && m in s.net
    ensures MsgKnown(s, m)
  {
  }

  // ---- a turn ends ----

  /** The session hands its credential to the sticky table and is over. */
  function Kept(s: System, r: nat, c: Cred, expiresAt: int): System
    requires r in s.runs
  {
    SetRun(s, r, Over(s.runs[r])).(sticky := Keep(s.sticky, s.runs[r].key, r, c, expiresAt))
  }

  lemma KeptInv(s: System, r: nat, c: Cred, expiresAt: int)
    requires Inv(s) && r in s.runs && !Waiting(s.runs[r].phase)
    requires s.runs[r].lease == Some(c) || s.runs[r].handle == Some(c)
    requires forall m | ParkMsg(s, m) :: s.net[m].run != r
    ensures Inv(Kept(s, r, c, expiresAt))
  {
    hide Known, OneCustodian, AttachesLinked, Tokens, ParksLinked;
    var t := Kept(s, r, c, expiresAt);
    KeptKnown(s, r, c, expiresAt);
    CustodyMoves(s, t, ByRun(r), ByKey(s.runs[r].key));
    ParksMove(s, t, ByRun(r), ByKey(s.runs[r].key));
    KeptAttaches(s, t, r);
    KeptTokens(s, r, c, expiresAt);
  }

  lemma KeptTokens(s: System, r: nat, c: Cred, expiresAt: int)
    requires Known(s) && Tokens(s) && r in s.runs && !Waiting(s.runs[r].phase)
    requires s.runs[r].lease == Some(c) || s.runs[r].handle == Some(c)
    ensures Tokens(Kept(s, r, c, expiresAt))
  {
    TokensFrom(s, Kept(s, r, c, expiresAt));
  }

  lemma KeptAttaches(s: System, t: System, r: nat)
    requires AttachesLinked(s) && r in s.runs && !Waiting(s.runs[r].phase)
    requires t.net == s.net && t.runs == s.runs[r := Over(s.runs[r])]
    requires forall x, l | Has(t, x, l) :: Has(s, x, l) || (x == ByKey(s.runs[r].key) && Has(s, ByRun(r), l))
    requires forall q, l | q != r :: Has(t, ByRun(q), l) == Has(s, ByRun(q), l)
    ensures AttachesLinked(t)
  {
    hide AttachesLinked;
    AttachesMove(s, t, ByRun(r));
  }

  lemma KeptKnown(s: System, r: nat, c: Cred, expiresAt: int)
    requires Known(s) && r in s.runs && (s.runs[r].lease == Some(c) || s.runs[r].handle == Some(c))
    ensures var t := Kept(s, r, c, expiresAt);
            && Known(t)
            && (forall l :: !Has(t, ByRun(r), l))
            && (forall x, l | Has(t, x, l) :: Has(s, x, l) || (x == ByKey(s.runs[r].key) && Has(s, ByRun(r), l)))
            && (forall q, l | q != r :: Has(t, ByRun(q), l) == Has(s, ByRun(q), l))
  {
    var t := Kept(s, r, c, expiresAt);
    assert SessionKnown(s, r);
    forall q | q in t.runs ensures SessionKnown(t, q) { assert SessionKnown(s, q); }
    forall n | n in t.net ensures MsgKnown(t, n) { assert MsgKnown(s, n); }
  }

  lemma SessionInv(s: System, r: nat, x: Session)
    requires Inv(s) && r in s.runs && !Waiting(s.runs[r].phase) && LessSession(s.runs[r], x)
    ensures Inv(SetRun(s, r, x))
  {
    hide Inv, SameNames;
    InvDrawn(s);
    FewerInv(s, SetRun(s, r, x));
  }

  lemma TableInv(s: System, table: Table<Cred>)
    requires Inv(s) && forall k | k in table :: table[k].handle.None? || (k in s.sticky && table[k] == s.sticky[k])
    ensures Inv(s.(sticky := table))
  {
    hide Inv, SameNames;
    InvDrawn(s);
    FewerInv(s, s.(sticky := table));
  }

  lemma StartReleaseInv(s: System, r: nat)
    requires Inv(s) && r in s.runs && !Waiting(s.runs[r].phase)
    ensures Inv(StartRelease(s, r))
  {
    hide Inv, AttachMsg, ParkMsg, Has, AttachReady;
    SessionInv(s, r, s.runs[r].(phase := Releasing));
    if s.runs[r].lease.Some? {
      PostPlain(SetRun(s, r, s.runs[r].(phase := Releasing)), Ask(r, s.runs[r].lease.value, Delete));
    }
  }

  /** A run in its middle has no park under way; what it uses is its own to park. */
  lemma OwnerParks(s: System, t: System, r: nat)
    requires ParksLinked(s) && OneCustodian(t) && InPhase(s, r, Active) && s.runs[r].lease.Some?
    requires t == SetRun(s, r, s.runs[r].(phase := Parking))
    ensures ParkReady(t, Ask(r, s.runs[r].lease.value, Park))
  {
    forall n | ParkMsg(t, n) ensures t.net[n].run != r { assert ParkMsg(s, n); }
    assert Has(t, ByRun(r), s.runs[r].lease.value.lease);
  }

  lemma StartParkInv(s: System, r: nat)
    requires Inv(s) && InPhase(s, r, Active) && s.runs[r].lease.Some?
    ensures Inv(Post(SetRun(s, r, s.runs[r].(phase := Parking)), Ask(r, s.runs[r].lease.value, Park)))
  {
    var t := SetRun(s, r, s.runs[r].(phase := Parking));
    SessionInv(s, r, s.runs[r].(phase := Parking));
    OwnerParks(s, t, r);
    PostPlain(t, Ask(r, s.runs[r].lease.value, Park));
  }

  /** The run is over and leaves no credential anywhere. */
  lemma OverInv(s: System, r: nat, table: Table<Cred>)
    requires Inv(s) && r in s.runs && !Waiting(s.runs[r].phase)
    requires table == s.sticky || table == Drop(s.sticky, s.runs[r].key, r)
    ensures Inv(SetRun(s, r, Over(s.runs[r])).(sticky := table))
  {
    hide Inv;
    SessionInv(s, r, Over(s.runs[r]));
    TableInv(SetRun(s, r, Over(s.runs[r])), table);
  }

  lemma FinishRunInv(s: System, r: nat, park: bool, expiresAt: int)
    requires Inv(s)
    ensures Inv(FinishRun(s, r, park, expiresAt))
  {
    if InPhase(s, r, Active) {
      var x := s.runs[r];
      if x.lease.None? {
        if x.owner && x.handle.Some? {
          assert forall m | ParkMsg(s, m) :: s.net[m].run != r;
          KeptInv(s, r, x.handle.value, expiresAt);
        }
        else { OverInv(s, r, KeyReturned(s, r)); }
      } else if park && x.owner {
        StartParkInv(s, r);
      } else {
        StartReleaseInv(s, r);
      }
    }
  }

  lemma KnownSession(s: System, r: nat)
    requires Inv(s) && r in s.runs
    ensures SessionKnown(s, r)
  {
  }

  lemma KnownMessage(s: System, m: nat)
    requires Inv(s) && m in s.net
    ensures MsgKnown(s, m) && Drawn(s.worker) && ParksLinked(s)
  {
  }

  lemma BeginParkInv(s: System, m: nat)
    requires Inv(s)
    ensures Inv(BeginPark(s, m))
  {
    hide Inv, Drawn, ParksLinked, ParkReady, ParkAllowed, Has, AttachMsg;
    if m in s.net && s.net[m].ParkAdmitted? {
      var ParkAdmitted(r, lease) := s.net[m];
      KnownMessage(s, m);
      TakeInv(s, m);
      ParkTaken(s, Take(s, m), m, ParkReply(r, false));
      ParkTaken(s, Take(s, m), m, ParkBegun(r, lease, s.worker.clock));
      PostPlain(Take(s, m), ParkReply(r, false));
      PostPlain(Take(s, m), ParkBegun(r, lease, s.worker.clock));
    }
  }

  lemma BeginUseInv(s: System, m: nat)
    requires Inv(s)
    ensures Inv(BeginUse(s, m))
  {
    hide Inv, W.Step;
    if m in s.net && s.net[m].UseAdmitted? {
      KnownMessage(s, m);
      LeaseStepKeepsNames(s.worker, W.StartExec(s.net[m].lease));
      TakeInv(s, m);
      WorkerInv(Take(s, m), W.Step(s.worker, W.StartExec(s.net[m].lease)));
    }
  }

  lemma CommitParkInv(s: System, m: nat)
    requires Inv(s)
    ensures Inv(CommitPark(s, m))
  {
    hide Inv, Drawn, ParksLinked, ParkReady, Has, AttachMsg, ParkCommit;
    if m in s.net && s.net[m].ParkBegun? {
      var ParkBegun(r, lease, at) := s.net[m];
      var t := Take(s, m).(worker := ParkCommit(s.worker, lease, at));
      KnownMessage(s, m);
      ParkCommitKeepsNames(s.worker, lease, at);
      TakeInv(s, m);
      WorkerInv(Take(s, m), t.worker);
      ParkTaken(s, t, m, ParkReply(r, true));
      PostPlain(t, ParkReply(r, true));
    }
  }

  lemma TakeParkReplyInv(s: System, m: nat, expiresAt: int)
    requires Inv(s)
    ensures Inv(TakeParkReply(s, m, expiresAt))
  {
    if m in s.net && s.net[m].ParkReply? {
      var ParkReply(r, parked) := s.net[m];
      var t := Take(s, m);
      TakeInv(s, m);
      ParkTaken(s, t, m, s.net[m]);
      if InPhase(s, r, Parking) {
        if !parked { StartReleaseInv(t, r); }
        else if s.runs[r].lease.Some? { KeptInv(t, r, s.runs[r].lease.value, expiresAt); }
        else { OverInv(t, r, Drop(t.sticky, t.runs[r].key, r)); }
      }
    }
  }

  // ---- every run of the system ----

  /** A run that does not try to attach keeps its handle for the end of the turn. */
  lemma SkipInv(s: System, r: nat)
    requires Inv(s) && InPhase(s, r, Starting)
    ensures Inv(SetRun(s, r, s.runs[r].(phase := Active)))
  {
    hide Inv, SameNames;
    InvDrawn(s);
    FewerInv(s, SetRun(s, r, s.runs[r].(phase := Active)));
  }

  lemma LoseLeaseInv(s: System, r: nat)
    requires Inv(s) && r in s.runs
    ensures Inv(SetRun(s, r, s.runs[r].(lease := None)))
  {
    hide Inv, SameNames;
    InvDrawn(s);
    assert s.runs[r].phase.Resuming? ==> s.runs[r].lease.None? by { KnownSession(s, r); }
    FewerInv(s, SetRun(s, r, s.runs[r].(lease := None)));
  }

  lemma AskingInv(s: System, e: Event)
    requires Inv(s) && (e.RequestLease? || e.SendUse?)
    ensures Inv(Next(s, e))
  {
    match e
    case RequestLease(r) => if Next(s, e) != s { PostPlain(s, AskLease(r)); }
    case SendUse(r) => if Next(s, e) != s { PostPlain(s, Ask(r, s.runs[r].lease.value, Use)); }
  }

  lemma InsideInv(s: System, a: W.Action)
    requires Inv(s)
    ensures Inv(Next(s, Inside(a)))
  {
    hide Inv, W.Step, SameNames;
    if !a.Attach? {
      InvDrawn(s);
      InsideKeepsNames(s.worker, a);
      FewerInv(s, Next(s, Inside(a)));
    }
  }

  predicate AboutMessage(e: Event) {
    e.Receive? || e.FinishAttach? || e.StartPark? || e.StartUse? || e.DeliverAttach? || e.ServeLease? || e.AdoptLease?
      || e.FinishPark?
    || e.DeliverPark? || e.LoseMsg?
  }

  lemma MessageInv(s: System, e: Event)
    requires Inv(s) && AboutMessage(e)
    ensures Inv(Next(s, e))
  {
    hide Inv, ReceiveAsk, DoAttach, TakeAttachReply, Serve, Adopt, BeginPark, BeginUse, CommitPark, TakeParkReply;
    match e
    case Receive(m) => ReceiveAskInv(s, m);
    case FinishAttach(m) => DoAttachInv(s, m);
    case StartPark(m) => BeginParkInv(s, m);
    case StartUse(m) => BeginUseInv(s, m);
    case DeliverAttach(m) => TakeAttachReplyInv(s, m);
    case ServeLease(m, retry) => ServeInv(s, m, retry);
    case AdoptLease(m) => AdoptInv(s, m);
    case FinishPark(m) => CommitParkInv(s, m);
    case DeliverPark(m, expiresAt) => TakeParkReplyInv(s, m, expiresAt);
    case LoseMsg(m) => TakeInv(s, m);
  }

  lemma NextInv(s: System, e: Event)
    requires Inv(s)
    ensures Inv(Next(s, e))
  {
    hide Inv, BeginRun, StartAttach, GiveUpAttach, FinishRun, StartRelease, W.Step;
    match e
    case Begin(r, user, sessionKey, parkEnabled, now) => BeginRunInv(s, r, user, sessionKey, parkEnabled, now);
    case SendAttach(r) => StartAttachInv(s, r);
    case TimeoutAttach(r) => if InPhase(s, r, Resuming) { GiveUpInv(s, r); }
    case Finish(r, park, expiresAt) => FinishRunInv(s, r, park, expiresAt);
    case TimeoutPark(r) => if InPhase(s, r, Parking) { StartReleaseInv(s, r); }
    case Inside(a) => InsideInv(s, a);
    case RequestLease(_) => AskingInv(s, e);
    case SendUse(_) => AskingInv(s, e);
    case SkipResume(r) => if InPhase(s, r, Starting) { SkipInv(s, r); }
    case LoseLease(r) => if r in s.runs { LoseLeaseInv(s, r); }
    case EndRelease(r) =>
      if InPhase(s, r, Releasing) { OverInv(s, r, KeyReturned(s, r)); }
    case Evict(key) => TableInv(s, s.sticky - {key});
    case _ => MessageInv(s, e);
  }

  lemma {:induction false} PlayInv(s: System, events: seq<Event>)
    requires Inv(s)
    ensures Inv(Play(s, events))
    decreases |events|
  {
    if events == [] {
    } else {
      NextInv(s, events[0]);
      PlayInv(Next(s, events[0]), events[1..]);
    }
  }

  lemma BootPlays(c: Config, slots: nat, now: int, events: seq<Event>)
    ensures Inv(Play(Boot(c, slots, now), events))
  {
    PlayInv(Boot(c, slots, now), events);
  }

  /** However messages are lost, delayed or reordered and however runs, evictions, preemptions and sweeps
      interleave: no lease is ever in use by two runs, and more than that, it is never in two hands at all, be
      it as the lease in use, as a handle to attach, in an unlocked table entry or in a grant on its way. */
  lemma MutualExclusion(c: Config, slots: nat, now: int, events: seq<Event>)
    ensures var s := Play(Boot(c, slots, now), events);
            forall q, r, a, b | q != r && Using(s, q, a) && Using(s, r, b) :: a.lease != b.lease
    ensures var s := Play(Boot(c, slots, now), events);
            forall p, q, lease | Has(s, p, lease) && Has(s, q, lease) :: p == q
  {
    hide Play, Boot, Known, AttachesLinked, Tokens;
    BootPlays(c, slots, now, events);
    var s := Play(Boot(c, slots, now), events);
    forall q, r, a, b | q != r && Using(s, q, a) && Using(s, r, b) ensures a.lease != b.lease {
      assert Has(s, ByRun(q), a.lease) && Has(s, ByRun(r), b.lease);
    }
  }

  /** Every lease a run uses or may attach was created for the run's own user. */
  lemma OwnLeasesOnly(c: Config, slots: nat, now: int, events: seq<Event>, r: nat, cred: Cred)
    requires r in Play(Boot(c, slots, now), events).runs
    ensures var s := Play(Boot(c, slots, now), events);
            s.runs[r].lease == Some(cred) || s.runs[r].handle == Some(cred)
            ==> cred.lease in s.worker.heap && s.worker.heap[cred.lease].username == s.runs[r].user
  {
    BootPlays(c, slots, now, events);
    assert SessionKnown(Play(Boot(c, slots, now), events), r);
  }

  /** While a run uses a lease its token is the current one, every request under way that the worker would
      still accept for that lease was sent by this very run, no attach of the lease is under way past the
      check or before it, and a park of it, past the check or not, is the run's own. */
  lemma SoleAuthority(c: Config, slots: nat, now: int, events: seq<Event>, r: nat, cred: Cred)
    requires Using(Play(Boot(c, slots, now), events), r, cred)
    ensures var s := Play(Boot(c, slots, now), events);
            && cred.lease in s.worker.heap && s.worker.heap[cred.lease].token == cred.token
            && (forall m | m in s.net && s.net[m].Ask? && s.net[m].cred.lease == cred.lease
                           && Accepts(s.worker, s.net[m].cred) :: s.net[m].run == r)
            && (forall m | m in s.net :: Wanted(s.net[m]) != Some(cred.lease))
            && (forall m | m in s.net && ToPark(s.net[m]) == Some(cred.lease) :: s.net[m].run == r)
  {
    BootPlays(c, slots, now, events);
    var s := Play(Boot(c, slots, now), events);
    forall m | m in s.net && s.net[m].Ask? && s.net[m].cred.lease == cred.lease && Accepts(s.worker, s.net[m].cred)
      ensures s.net[m].run == r
    {
      assert Asking(s, m, s.net[m].run, cred);
    }
    InvAuthority(s, r, cred);
  }

  lemma InvAuthority(s: System, r: nat, cred: Cred)
    requires Inv(s) && Using(s, r, cred)
    ensures forall m | m in s.net :: Wanted(s.net[m]) != Some(cred.lease)
    ensures forall m | m in s.net && ToPark(s.net[m]) == Some(cred.lease) :: s.net[m].run == r
  {
    assert SessionKnown(s, r) && Has(s, ByRun(r), cred.lease);
    forall m | m in s.net ensures Wanted(s.net[m]) != Some(cred.lease) {
      var q := s.net[m].run;
      assert Wanted(s.net[m]) == Some(cred.lease) ==> Has(s, ByRun(q), cred.lease) && InPhase(s, q, Resuming);
      assert q == r && InPhase(s, q, Resuming) ==> SessionKnown(s, q);
    }
    forall m | m in s.net && ToPark(s.net[m]) == Some(cred.lease) ensures s.net[m].run == r {
      assert ParkMsg(s, m);
    }
  }

  /** A request past the check, whatever it is for, is for a lease that was made for its run's own user: what
      the check can no longer stop stays with the user, if not with the run. */
  lemma AdmittedIsOwn(c: Config, slots: nat, now: int, events: seq<Event>, m: nat)
    requires m in Play(Boot(c, slots, now), events).net
    ensures var s := Play(Boot(c, slots, now), events);
            && s.net[m].run in s.runs
            && (s.net[m].UseAdmitted? || s.net[m].Admitted? || s.net[m].ParkAdmitted? || s.net[m].ParkBegun? ==>
                  MadeFor(s.worker, s.net[m].lease, s.runs[s.net[m].run].user))
  {
    BootPlays(c, slots, now, events);
    assert MsgKnown(Play(Boot(c, slots, now), events), m);
  }

  /** Nothing but its own start, or the loss of its connection, takes an admitted use back: neither the end of
      its run, nor the park of the lease, nor the rotation of the token when the next run attaches. */
  lemma {:induction false} AdmittedUseStays(s: System, events: seq<Event>, m: nat)
    requires m in s.net && s.net[m].UseAdmitted? && m < s.nextMsg
    requires forall e | e in events :: e != LoseMsg(m) && e != StartUse(m)
    ensures var t := Play(s, events); m in t.net && t.net[m] == s.net[m] && m < t.nextMsg
    decreases |events|
  {
    if events == [] {
    } else {
      hide Next;
      assert events[0] in events && forall e | e in events[1..] :: e in events;
      NextKeepsUse(s, events[0], m);
      AdmittedUseStays(Next(s, events[0]), events[1..], m);
    }
  }

  lemma NextKeepsUse(s: System, e: Event, m: nat)
    requires m in s.net && s.net[m].UseAdmitted? && m < s.nextMsg && e != LoseMsg(m) && e != StartUse(m)
    ensures var t := Next(s, e); m in t.net && t.net[m] == s.net[m] && m < t.nextMsg
  {
    if AboutMessage(e) {
      MessageKeepsUse(s, e, m);
    } else {
      hide W.Step, Claim, Keep, Drop, Forget, KeyOf;
    }
  }

  lemma MessageKeepsUse(s: System, e: Event, m: nat)
    requires m in s.net && s.net[m].UseAdmitted? && m < s.nextMsg && e != LoseMsg(m) && e != StartUse(m)
    requires AboutMessage(e)
    ensures var t := Next(s, e); m in t.net && t.net[m] == s.net[m] && m < t.nextMsg
  {
    hide ReceiveAsk, DoAttach, TakeAttachReply, Serve, Adopt, BeginPark, CommitPark, TakeParkReply, W.Step;
    match e
    case Receive(n) => RequestKeepsUse(s, n, m);
    case FinishAttach(n) => RequestKeepsUse(s, n, m);
    case StartPark(n) => ParkKeepsUse(s, n, 0, m);
    case FinishPark(n) => ParkKeepsUse(s, n, 0, m);
    case DeliverPark(n, expiresAt) => ParkKeepsUse(s, n, expiresAt, m);
    case DeliverAttach(n) => ReplyKeepsUse(s, n, m);
    case AdoptLease(n) => ReplyKeepsUse(s, n, m);
    case ServeLease(n, retry) => ServeKeepsUse(s, n, retry, m);
    case _ =>
  }

  ghost predicate Stays(s: System, t: System, m: nat) {
    m in s.net && m in t.net && t.net[m] == s.net[m] && m < t.nextMsg
  }

  lemma RequestKeepsUse(s: System, n: nat, m: nat)
    requires m in s.net && s.net[m].UseAdmitted? && m < s.nextMsg
    ensures Stays(s, ReceiveAsk(s, n), m) && Stays(s, DoAttach(s, n), m)
  {
    hide GetStep, BeginRelease, AttachStep, Accepts, MayAttach;
  }

  lemma ParkKeepsUse(s: System, n: nat, expiresAt: int, m: nat)
    requires m in s.net && s.net[m].UseAdmitted? && m < s.nextMsg
    ensures Stays(s, BeginPark(s, n), m) && Stays(s, CommitPark(s, n), m)
    ensures Stays(s, TakeParkReply(s, n, expiresAt), m)
  {
    hide ParkCommit, ParkAllowed, Keep, Drop;
  }

  lemma ReplyKeepsUse(s: System, n: nat, m: nat)
    requires m in s.net && s.net[m].UseAdmitted? && m < s.nextMsg
    ensures Stays(s, TakeAttachReply(s, n), m) && Stays(s, Adopt(s, n), m)
  {
    hide Forget;
  }

  lemma ServeKeepsUse(s: System, n: nat, retry: bool, m: nat)
    requires m in s.net && s.net[m].UseAdmitted? && m < s.nextMsg
    ensures Stays(s, Serve(s, n, retry), m)
  {
    hide Attempt;
  }

  /** A run that asks for a lease gets a new one made for its own user, with its token, whenever the worker has
      a slot free, be it on the first try or on the second. */
  lemma RequestIsServed(s: System, m: nat, retry: bool)
    requires m in s.net && s.net[m].AskLease? && s.net[m].run in s.runs && s.nextMsg !in s.net
    requires exists slot :: slot in s.worker.slots && slot.Free?
    ensures var t, r, c := Next(s, ServeLease(m, retry)), s.net[m].run, Cred(s.worker.drawn, s.worker.drawn + 1);
            && m !in t.net && s.nextMsg in t.net && t.net[s.nextMsg] == GotLease(r, c)
            && c.lease in t.worker.heap && t.worker.heap[c.lease].username == s.runs[r].user
            && t.worker.heap[c.lease].token == c.token && c.lease in t.worker.order
  {
    FirstFreeFinds(s.worker.slots);
    hide FirstFree;
  }

  /** A request that has to preempt waits for its second try. */
  lemma PreemptingRequestWaits(s: System, m: nat)
    requires m in s.net && s.net[m].AskLease? && s.net[m].run in s.runs
    requires AcquireStep(s.worker, s.runs[s.net[m].run].user, None).1.Preempting?
    ensures var t := Next(s, ServeLease(m, false)); t.net == s.net && t.runs == s.runs
  {
    hide AcquireStep;
  }

  /** So it may start in any later state. The lease may have passed to another run by then, if only to one of
      the same user (AdmittedIsOwn); LateUse shows when. */
  lemma AdmittedUseStarts(c: Config, slots: nat, now: int, before: seq<Event>, after: seq<Event>, m: nat)
    requires m in Play(Boot(c, slots, now), before).net && Play(Boot(c, slots, now), before).net[m].UseAdmitted?
    requires forall e | e in after :: e != LoseMsg(m) && e != StartUse(m)
    ensures var lease := Play(Boot(c, slots, now), before).net[m].lease;
            var s := Play(Play(Boot(c, slots, now), before), after);
            var t := Next(s, StartUse(m));
            && lease in s.worker.heap && lease in t.worker.heap && t.runs == s.runs
            && t.worker.heap[lease].running == s.worker.heap[lease].running + 1
  {
    hide Play, Inv;
    var s := Play(Boot(c, slots, now), before);
    BootPlays(c, slots, now, before);
    KnownMessage(s, m);
    AdmittedUseStays(s, after, m);
    PlayInv(s, after);
    KnownMessage(Play(s, after), m);
  }
}
