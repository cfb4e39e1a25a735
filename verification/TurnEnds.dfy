/** A turn always has a way on: one that could not attach or has lost its lease can ask for a new one, and one that
    is over gives up its key and parks its lease or sends it back. */
module TurnEnds {
  import opened Wrappers
  import opened LeaseRules
  import opened Sticky
  import opened Handover
  import opened KeyClaims
  import W = WorkerRuns

  predicate Sends(s: System, t: System, m: Msg) { s.nextMsg in t.net && t.net[s.nextMsg] == m }

  /** A run whose attach has failed or taken too long works on without a handle, and may ask for a lease. */
  lemma FailedAttachGoesOn(s: System, r: nat, m: nat)
    requires InPhase(s, r, Resuming) && s.runs[r].lease.None?
    requires m in s.net && s.net[m] == AttachReply(r, None)
    ensures forall e | e == TimeoutAttach(r) || e == DeliverAttach(m) ::
              var t := Next(s, e);
              && InPhase(t, r, Active) && t.runs[r].handle.None? && t.runs[r].key == s.runs[r].key
              && Sends(t, Next(t, RequestLease(r)), AskLease(r))
  {
    hide Forget;
  }

  /** A session whose lease is gone asks for another. */
  lemma LostLeaseIsReplaced(s: System, r: nat)
    requires InPhase(s, r, Active)
    ensures var t := Next(s, LoseLease(r)); Sends(t, Next(t, RequestLease(r)), AskLease(r))
  {
  }

  /** At the end of a turn its lease is on its way: to be parked if it may and the turn owns its key, or else to be
      released. */
  lemma LeaseIsSentBack(s: System, r: nat, c: Cred, park: bool, expiresAt: int)
    requires InPhase(s, r, Active) && s.runs[r].lease == Some(c)
    ensures var t := Next(s, Finish(r, park, expiresAt));
            if park && s.runs[r].owner then InPhase(t, r, Parking) && Sends(s, t, Ask(r, c, Park))
            else InPhase(t, r, Releasing) && Sends(s, t, Ask(r, c, Delete))
  {
  }

  /** Likewise a lease that could not be parked, or not in time. */
  lemma UnparkedLeaseIsReleased(s: System, r: nat, c: Cred, m: nat, expiresAt: int)
    requires InPhase(s, r, Parking) && s.runs[r].lease == Some(c)
    requires m in s.net && s.net[m] == ParkReply(r, false)
    ensures forall e | e == TimeoutPark(r) || e == DeliverPark(m, expiresAt) ::
              var t := Next(s, e); InPhase(t, r, Releasing) && Sends(s, t, Ask(r, c, Delete))
  {
  }

  /** A release that the worker accepts takes the lease out of the table, and its recycling begins. */
  lemma DeleteTakesTheLease(s: System, m: nat)
    requires m in s.net && s.net[m].Ask? && s.net[m].verb == Delete && Accepts(s.worker, s.net[m].cred)
    ensures var t, id := Next(s, Receive(m)), s.net[m].cred.lease;
            && id !in t.worker.order && t.worker.closing == s.worker.closing + multiset{id}
            && forall x | x in s.worker.order && x != id :: x in t.worker.order
  {
    hide Touch, Without;
    WithoutFacts(s.worker.order, s.net[m].cred.lease);
  }

  /** From any state in which it is working a run can end by itself, waiting for nobody, and then holds no key. */
  lemma TurnCanEnd(s: System, r: nat, park: bool, expiresAt: int)
    requires ClaimsLive(s) && InPhase(s, r, Active)
    ensures var t := Play(s, [Finish(r, park, expiresAt), TimeoutPark(r), EndRelease(r)]);
            InPhase(t, r, Done) && forall k :: !Claimant(t, k, r)
  {
    hide ClaimsLive, Next;
    var a, b, c := Finish(r, park, expiresAt), TimeoutPark(r), EndRelease(r);
    PlayThree(s, a, b, c);
    NextClaims(s, a);
    NextClaims(Next(s, a), b);
    NextClaims(Next(Next(s, a), b), c);
    ThreeStepsEnd(s, r, park, expiresAt);
    DoneHoldsNothing(Next(Next(Next(s, a), b), c), r);
  }

  lemma PlayThree(s: System, a: Event, b: Event, c: Event)
    ensures Play(s, [a, b, c]) == Next(Next(Next(s, a), b), c)
  {
    hide Next;
    assert [a, b, c][1..] == [b, c] && [b, c][1..] == [c] && [c][1..] == [];
    assert Play(Next(Next(s, a), b), [c]) == Next(Next(Next(s, a), b), c);
  }

  lemma ThreeStepsEnd(s: System, r: nat, park: bool, expiresAt: int)
    requires InPhase(s, r, Active)
    ensures InPhase(Next(Next(Next(s, Finish(r, park, expiresAt)), TimeoutPark(r)), EndRelease(r)), r, Done)
  {
    hide Keep, Drop;
  }

  lemma DoneHoldsNothing(s: System, r: nat)
    requires ClaimsLive(s) && InPhase(s, r, Done)
    ensures forall k :: !Claimant(s, k, r)
  {
    forall k ensures !Claimant(s, k, r) { assert Claimant(s, k, r) ==> Entitled(s, r, k); }
  }
}
