/** Background commands on a lease: their output frames are numbered and kept, so that a client whose
    connection broke can come back for the rest. */
module ExecJobs {
  import opened Retention
  import opened Wrappers

  datatype Status = Running | Completed | Aborted | Failed
  datatype Body = Output(data: string) | Error(message: string) | Exit(status: Status)
  datatype Frame = Frame(seqNo: nat, body: Body)

  /** Numbered from 1 without a hole; an exit frame, if any, is the last. */
  ghost predicate WellNumbered(frames: seq<Frame>) {
    forall i | 0 <= i < |frames| :: frames[i].seqNo == i + 1 && (frames[i].body.Exit? ==> i == |frames| - 1)
  }

  predicate Ended(frames: seq<Frame>) { frames != [] && frames[|frames| - 1].body.Exit? }

  /** The frames of a job once its command is over: an error frame if it failed, and the exit frame. */
  function Settled(frames: seq<Frame>, outcome: Status, error: Option<string>): seq<Frame> {
    var told := frames + if error.Some? then [Frame(|frames| + 1, Error(error.value))] else [];
    told + [Frame(|told| + 1, Exit(outcome))]
  }

  /** The response of one events request, closed by the exit frame. */
  class Sink {
    const from: nat
    ghost var start: nat  // how many frames were behind it when it subscribed
    var got: seq<Frame>
    var closed: bool

    constructor (from: nat)
      ensures this.from == from && got == [] && !closed
    {
      this.from, got, closed := from, [], false;
    }

    /** It was sent everything from its starting point on. */
    ghost predicate UpTo(frames: seq<Frame>)
      reads this
    {
      start <= |frames| && got == frames[start..]
    }

    method Write(frame: Frame)
      modifies this`got, this`closed
      ensures got == (if old(closed) then old(got) else old(got) + [frame])
      ensures closed == (old(closed) || frame.body.Exit?)
    {
      if closed { return; }
      got := got + [frame];
      if frame.body.Exit? { closed := true; }
    }
  }

  lemma OneFurther(frames: seq<Frame>, start: nat, k: nat)
    requires k < |frames|
    ensures start <= k ==> frames[start..k + 1] == frames[start..k] + [frames[k]]
  {
  }

  class Job {
    var status: Status
    var frames: seq<Frame>
    var nextSeq: nat
    var finishedAt: int
    var subscribers: set<Sink>

    constructor ()
      ensures Valid() && status == Running && frames == [] && subscribers == {}
    {
      status, frames, nextSeq, finishedAt, subscribers := Running, [], 1, 0, {};
    }

    /** A running job has no exit frame, a finished one ends with it and has no subscribers; each subscriber
        has been sent every frame from the point at which it started. */
    ghost predicate Valid()
      reads this, subscribers
    {
      && Numbered()
      && (status.Running? <==> !Ended(frames)) && (!status.Running? ==> subscribers == {})
      && (forall s | s in subscribers :: !s.closed && s.UpTo(frames))
    }

    ghost predicate Numbered()
      reads this
    {
      WellNumbered(frames) && nextSeq == |frames| + 1
    }

    /** Numbers a frame, keeps it, and pushes it to every subscriber. */
    method Emit(body: Body)
      requires Numbered() && !Ended(frames)
      requires forall s | s in subscribers :: !s.closed && s.UpTo(frames)
      modifies this`frames, this`nextSeq, subscribers
      ensures Numbered() && frames == old(frames) + [Frame(old(nextSeq), body)]
      ensures forall s | s in subscribers :: s.UpTo(frames) && s.start == old(s.start) && s.closed == body.Exit?
    {
      var stamped := Frame(nextSeq, body);
      nextSeq := nextSeq + 1;
      frames := frames + [stamped];
      var left := subscribers;
      while left != {}
        invariant left <= subscribers && Numbered() && frames == old(frames) + [stamped]
        invariant forall s | s in subscribers :: s.start == old(s.start)
        invariant forall s | s in left :: !s.closed && s.got == old(s.got)
        invariant forall s | s in subscribers - left :: s.got == old(s.got) + [stamped] && s.closed == body.Exit?
        decreases |left|
      {
        var sink :| sink in left;
        sink.Write(stamped);
        left := left - {sink};
      }
      forall s | s in subscribers ensures s.UpTo(frames) {
        assert old(s.UpTo(frames));
        assert frames[s.start..] == old(frames)[s.start..] + [stamped];
      }
    }

    method Print(data: string)
      requires Valid() && status.Running?
      modifies this, subscribers
      ensures Valid() && status.Running? && subscribers == old(subscribers)
      ensures frames == old(frames) + [Frame(old(nextSeq), Output(data))]
      ensures forall s | s in subscribers :: s.start == old(s.start)
    {
      Emit(Output(data));
    }

    /** The command is over: an error frame if it failed, and in any case one exit frame, kept for clients
        that are away. */
    method Settle(outcome: Status, error: Option<string>, now: int)
      requires Valid() && status.Running? && !outcome.Running?
      requires outcome.Failed? <==> error.Some?
      modifies this, subscribers
      ensures Valid() && status == outcome && finishedAt == now && subscribers == {}
      ensures frames == Settled(old(frames), outcome, error)
      ensures forall s | s in old(subscribers) :: s.closed && s.UpTo(frames) && s.start == old(s.start)
    {
      if error.Some? { Emit(Error(error.value)); }
      status, finishedAt := outcome, now;
      Emit(Exit(outcome));
      subscribers := {};
    }

    /** History first, then live, with nothing in between: the frames after the point asked for, or, if that
        lies ahead, whatever comes next. */
    method Subscribe(sink: Sink)
      requires Valid() && sink !in subscribers && sink.got == [] && !sink.closed
      modifies this, sink
      ensures Valid() && frames == old(frames) && status == old(status)
      ensures sink.start == (if sink.from <= |frames| then sink.from else |frames|) && sink.UpTo(frames)
      ensures subscribers == old(subscribers) + if status.Running? then {sink} else {}
    {
      sink.start := if sink.from <= |frames| then sink.from else |frames|;
      for k := 0 to |frames|
        modifies sink
        invariant sink.start == old(if sink.from <= |frames| then sink.from else |frames|)
        invariant sink.got == (if k <= sink.start then [] else frames[sink.start..k])
        invariant sink.closed ==> k == |frames| && Ended(frames)
      {
        OneFurther(frames, sink.start, k);
        if frames[k].seqNo > sink.from { sink.Write(frames[k]); }
      }
      assert sink.got == frames[sink.start..];
      if status.Running? { subscribers := subscribers + {sink}; }
    }

    method Unsubscribe(sink: Sink)
      requires Valid()
      modifies this`subscribers
      ensures Valid() && subscribers == old(subscribers) - {sink}
    {
      subscribers := subscribers - {sink};
    }
  }

  // ---- which finished jobs are kept ----

  function Excess(ids: seq<string>, ends: Ends, retain: nat): seq<string> {
    Oldest(Finished(ids, ends), EndOf(ends), |Finished(ids, ends)| - retain)
  }

  function Kept(ids: seq<string>, ends: Ends, retain: nat): seq<string> { Minus(ids, Excess(ids, ends, retain)) }

  /** Running jobs are always kept. Of the finished ones the most recently finished are, as many as may be. */
  lemma NewestFinishedAreKept(ids: seq<string>, ends: Ends, retain: nat)
    requires Distinct(ids)
    ensures var kept := Kept(ids, ends, retain);
            && Distinct(kept) && (forall id | id in kept :: id in ids)
            && (forall id | id in ids && !IsFinished(ends, id) :: id in kept)
            && (forall x, y | x in ids && x !in kept && y in kept && IsFinished(ends, y) ::
                ends[x].value <= ends[y].value)
            && |ids| - |kept| == (if |Finished(ids, ends)| <= retain then 0 else |Finished(ids, ends)| - retain)
  {
    hide Minus, Oldest, Newest, Finished, SortBy;
    var finished, gone, kept := Finished(ids, ends), Excess(ids, ends, retain), Kept(ids, ends, retain);
    var count := |finished| - retain;
    FinishedFacts(ids, ends);
    OldestSplits(finished, EndOf(ends), count);
    OldestSplitsDistinct(finished, EndOf(ends), count);
    MinusFacts(ids, gone);
    ConcatDistinct(kept, gone);
    SubsetIsShorter(kept + gone, ids);
    SubsetIsShorter(ids, kept + gone);
    forall x, y | x in ids && x !in kept && y in kept && IsFinished(ends, y) ensures ends[x].value <= ends[y].value {
      assert y in Newest(finished, EndOf(ends), count);
      assert EndOf(ends)(x) <= EndOf(ends)(y);
    }
  }

  lemma NoneFinished(ends: Ends)
    ensures Finished([], ends) == []
  {
  }

  lemma FinishedGrows(ids: seq<string>, id: string, ends: Ends)
    ensures Finished(ids + [id], ends) == Finished(ids, ends) + if IsFinished(ends, id) then [id] else []
  {
    assert (ids + [id])[..|ids|] == ids;
    assert Finished(ids, ends) + [] == Finished(ids, ends);
  }

  /** The jobs of one lease. */
  class Bucket {
    const retain: nat
    var ids: seq<string>
    var jobs: map<string, Job>

    constructor (retain: nat)
      ensures Valid() && ids == [] && this.retain == retain
    {
      this.retain, ids, jobs := retain, [], map[];
    }

    ghost predicate Valid()
      reads this
    {
      Distinct(ids) && forall id :: id in ids <==> id in jobs
    }

    ghost function EndsNow(): Ends
      reads this, jobs.Values
    {
      map id | id in jobs :: if jobs[id].status.Running? then None else Some(jobs[id].finishedAt)
    }

    method EvictOld()
      requires Valid()
      modifies this
      ensures Valid()
      ensures ids == Kept(old(ids), old(EndsNow()), retain)
      ensures forall id | id in jobs :: id in old(jobs) && jobs[id] == old(jobs)[id]
    {
      ghost var ends := EndsNow();
      hide Minus, SortBy, Finished;
      NewestFinishedAreKept(ids, ends, retain);
      var gone := OldestFinished(ends);
      MinusFacts(ids, gone);
      ids := Minus(ids, gone);
      jobs := map id | id in jobs && id in ids :: jobs[id];
    }

    /** The finished jobs beyond the number to retain, oldest first. */
    method OldestFinished(ghost ends: Ends) returns (gone: seq<string>)
      requires Valid() && ends == EndsNow()
      ensures gone == Excess(ids, ends, retain)
    {
      hide Minus, SortBy, Oldest, Finished;
      var finished: seq<string> := [];
      var endedAt: map<string, int> := map[];
      NoneFinished(ends);
      for i := 0 to |ids|
        invariant finished == Finished(ids[..i], ends)
        invariant forall id | id in ids[..i] && !jobs[id].status.Running? ::
                  id in endedAt && endedAt[id] == jobs[id].finishedAt
      {
        assert ids[..i + 1] == ids[..i] + [ids[i]];
        FinishedGrows(ids[..i], ids[i], ends);
        var job := jobs[ids[i]];
        if !job.status.Running? { finished, endedAt := finished + [ids[i]], endedAt[ids[i] := job.finishedAt]; }
      }
      assert ids[..|ids|] == ids;
      FinishedFacts(ids, ends);
      var key := (id: string) => if id in endedAt then endedAt[id] else 0;
      SameKeys(finished, key, EndOf(ends));
      gone := Oldest(finished, key, |finished| - retain);
    }

    /** A new job joins; old finished ones may have to go, the new one does not. */
    method Start(id: string) returns (job: Job)
      requires Valid() && id !in ids
      modifies this
      ensures Valid() && fresh(job) && job.Valid() && job.status.Running? && job.frames == []
      ensures id in jobs && jobs[id] == job
      ensures ids == Kept(old(ids) + [id], old(EndsNow())[id := None], retain)
      ensures forall x | x in jobs && x != id :: x in old(jobs) && jobs[x] == old(jobs)[x]
    {
      job := new Job();
      ids, jobs := ids + [id], jobs[id := job];
      assert EndsNow() == old(EndsNow())[id := None];
      NewestFinishedAreKept(ids, EndsNow(), retain);
      EvictOld();
    }
  }
}
