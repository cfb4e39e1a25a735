/** A background command from both ends at once: the job on the worker, which goes on whether anybody listens or
    not, and the client that connects up to four times, over connections that may be cut at any byte. */
module ExecSession {
  import opened Wrappers
  import opened ExecJobs
  import opened ExecResume

  /** What the command does next. */
  datatype Doing = Prints(data: string) | Settles(outcome: Status, error: Option<string>, at: int)

  predicate Possible(d: Doing) { d.Settles? ==> !d.outcome.Running? && (d.outcome.Failed? <==> d.error.Some?) }

  /** What becomes of a connection. While one is open the command goes on; heartbeats come in between the
      frames as scheduled; the text arrives in chunks, all of it or some. */
  datatype Fate =
    | Unreached | Refused | GivenUp
    | Opened(during: seq<Doing>, schedule: seq<bool>, sizes: seq<nat>, broken: bool)

  datatype Round = Round(before: seq<Doing>, fate: Fate)

  predicate Sensible(r: Round) {
    && (forall d | d in r.before :: Possible(d))
    && (r.fate.Opened? ==> forall d | d in r.fate.during :: Possible(d))
  }

  /** The frames of a job once its command has gone on like this, until it was over. */
  function Produced(frames: seq<Frame>, doings: seq<Doing>): seq<Frame>
    decreases |doings|
  {
    if doings == [] || Ended(frames) then frames
    else match doings[0]
      case Prints(data) => Produced(frames + [Frame(|frames| + 1, Output(data))], doings[1..])
      case Settles(outcome, error, _) => Produced(Settled(frames, outcome, error), doings[1..])
  }

  function Printing(data: seq<string>): seq<Doing> { seq(|data|, i requires 0 <= i < |data| => Prints(data[i])) }

  /** Whatever a command prints before it is over is on record, in order and numbered on, then its error if it
      failed, and at the end its outcome; what would come after that is not. */
  lemma {:induction false} CommandIsOnRecord(
      frames: seq<Frame>, data: seq<string>, outcome: Status, error: Option<string>, at: int, rest: seq<Doing>)
    requires WellNumbered(frames) && !Ended(frames)
    ensures var all := Produced(frames, Printing(data) + [Settles(outcome, error, at)] + rest);
            && |all| == |frames| + |data| + (if error.Some? then 2 else 1)
            && frames <= all && WellNumbered(all)
            && (forall i | 0 <= i < |data| :: all[|frames| + i].body == Output(data[i]))
            && (error.Some? ==> all[|all| - 2].body == Error(error.value))
            && all[|all| - 1].body == Exit(outcome)
    decreases |data|
  {
    hide Produced;
    if data == [] {
      SettlesAtOnce(frames, outcome, error, at, rest);
    } else {
      var next := frames + [Frame(|frames| + 1, Output(data[0]))];
      PrintsFirst(frames, data, [Settles(outcome, error, at)] + rest);
      var after := [Settles(outcome, error, at)] + rest;
      assert Printing(data) + [Settles(outcome, error, at)] + rest == Printing(data) + after;
      assert Printing(data[1..]) + [Settles(outcome, error, at)] + rest == Printing(data[1..]) + after;
      CommandIsOnRecord(next, data[1..], outcome, error, at, rest);
      var all := Produced(next, Printing(data[1..]) + after);
      assert all[|frames|] == next[|frames|];
      forall i | 0 < i < |data| ensures all[|frames| + i].body == Output(data[i]) {
        assert all[|next| + (i - 1)].body == Output(data[1..][i - 1]);
      }
    }
  }

  lemma {:induction false} PrintsFirst(frames: seq<Frame>, data: seq<string>, after: seq<Doing>)
    requires !Ended(frames) && data != []
    ensures Produced(frames, Printing(data) + after)
            == Produced(frames + [Frame(|frames| + 1, Output(data[0]))], Printing(data[1..]) + after)
  {
    assert (Printing(data) + after)[1..] == Printing(data[1..]) + after;
  }

  lemma SettlesAtOnce(frames: seq<Frame>, outcome: Status, error: Option<string>, at: int, rest: seq<Doing>)
    requires !Ended(frames)
    ensures Produced(frames, Printing([]) + [Settles(outcome, error, at)] + rest) == Settled(frames, outcome, error)
  {
    var doings := Printing([]) + [Settles(outcome, error, at)] + rest;
    assert doings[0] == Settles(outcome, error, at);
    EndIsEnd(Settled(frames, outcome, error), doings[1..]);
  }

  lemma EndIsEnd(frames: seq<Frame>, doings: seq<Doing>)
    requires Ended(frames)
    ensures Produced(frames, doings) == frames
  {
  }

  // ---- the way of the frames ----

  /** Frames and heartbeats, by a schedule that says when a heartbeat is due. */
  function Sent(frames: seq<Frame>, schedule: seq<bool>): seq<Item>
    decreases |frames| + |schedule|
  {
    if schedule != [] && schedule[0] then [Beat] + Sent(frames, schedule[1..])
    else if frames == [] then []
    else [Data(frames[0])] + Sent(frames[1..], if schedule == [] then [] else schedule[1..])
  }

  lemma {:induction false} SentFrames(frames: seq<Frame>, schedule: seq<bool>)
    ensures FramesOf(Sent(frames, schedule)) == frames
    decreases |frames| + |schedule|
  {
    if schedule != [] && schedule[0] {
      SentFrames(frames, schedule[1..]);
      assert ([Beat] + Sent(frames, schedule[1..]))[1..] == Sent(frames, schedule[1..]);
    } else if frames == [] {
    } else {
      var rest := if schedule == [] then [] else schedule[1..];
      SentFrames(frames[1..], rest);
      assert ([Data(frames[0])] + Sent(frames[1..], rest))[1..] == Sent(frames[1..], rest);
      assert frames == [frames[0]] + frames[1..];
    }
  }

  /** A text in chunks of these sizes, as far as they go. */
  function Chopped(text: string, sizes: seq<nat>): seq<string>
    decreases |sizes|
  {
    if sizes == [] then []
    else
      var n := if sizes[0] <= |text| then sizes[0] else |text|;
      [text[..n]] + Chopped(text[n..], sizes[1..])
  }

  lemma {:induction false} JoinedFirst(first: string, rest: seq<string>)
    ensures Joined([first] + rest) == first + Joined(rest)
    decreases |rest|
  {
    if rest == [] {
      assert [first] + rest == [first] && [first][..0] == [];
    } else {
      assert ([first] + rest)[..|rest|] == [first] + rest[..|rest| - 1];
      JoinedFirst(first, rest[..|rest| - 1]);
    }
  }

  lemma {:induction false} ChoppedIsPrefix(text: string, sizes: seq<nat>)
    ensures Joined(Chopped(text, sizes)) <= text
    decreases |sizes|
  {
    if sizes == [] {
    } else {
      hide Joined;
      var n := if sizes[0] <= |text| then sizes[0] else |text|;
      ChoppedIsPrefix(text[n..], sizes[1..]);
      JoinedFirst(text[..n], Chopped(text[n..], sizes[1..]));
      assert text == text[..n] + text[n..];
    }
  }

  function Sum(sizes: seq<nat>): nat { if sizes == [] then 0 else sizes[0] + Sum(sizes[1..]) }

  /** Chunks that go all the way hold the whole text. */
  lemma {:induction false} ChoppedIsWhole(text: string, sizes: seq<nat>)
    requires Sum(sizes) >= |text|
    ensures Joined(Chopped(text, sizes)) == text
    decreases |sizes|
  {
    if sizes == [] {
    } else {
      hide Joined;
      var n := if sizes[0] <= |text| then sizes[0] else |text|;
      ChoppedIsWhole(text[n..], sizes[1..]);
      JoinedFirst(text[..n], Chopped(text[n..], sizes[1..]));
      assert text == text[..n] + text[n..];
    }
  }

  // ---- a whole session, as it must go ----

  /** What the client sees of a connection that asks for what comes after the first `from` of these frames. */
  function AttemptOf(c: Codec, frames: seq<Frame>, from: nat, fate: Fate): Attempt {
    match fate
    case Unreached => Unreachable
    case Refused => Denied
    case GivenUp => Cancelled
    case Opened(_, schedule, sizes, broken) =>
      Stream(Chopped(Wire(c, Sent(if from <= |frames| then frames[from..] else [], schedule)), sizes), broken)
  }

  function FramesAfter(frames: seq<Frame>, r: Round): seq<Frame> {
    var before := Produced(frames, r.before);
    if r.fate.Opened? then Produced(before, r.fate.during) else before
  }

  /** The frames of the job and the connections of the client, round by round, for a client that has processed
      the first `from` frames. It goes on until it has a result or is refused. */
  function Course(c: Codec, frames: seq<Frame>, from: nat, rounds: seq<Round>): (seq<Frame>, seq<Attempt>)
    decreases |rounds|
  {
    if rounds == [] then (frames, [])
    else
      var after := FramesAfter(frames, rounds[0]);
      var a := AttemptOf(c, after, from, rounds[0].fate);
      if Fatal(a) || Final(c, a) then (after, [a])
      else
        var (end, more) := Course(c, after, from + |FramesIn(c, a)|, rounds[1..]);
        (end, [a] + more)
  }

  lemma CourseStep(c: Codec, frames: seq<Frame>, from: nat, rounds: seq<Round>, i: nat)
    requires i < |rounds|
    ensures var after := FramesAfter(frames, rounds[i]);
            var a := AttemptOf(c, after, from, rounds[i].fate);
            Course(c, frames, from, rounds[i..])
            == if Fatal(a) || Final(c, a) then (after, [a])
               else (Course(c, after, from + |FramesIn(c, a)|, rounds[i + 1..]).0,
                     [a] + Course(c, after, from + |FramesIn(c, a)|, rounds[i + 1..]).1)
  {
    hide FramesAfter, AttemptOf, FramesIn, Final;
    assert rounds[i..][0] == rounds[i] && rounds[i..][1..] == rounds[i + 1..];
  }

  lemma CourseEnds(c: Codec, frames: seq<Frame>, from: nat, rounds: seq<Round>)
    ensures Course(c, frames, from, rounds[|rounds|..]) == (frames, [])
  {
  }

  /** A connection that opens, is not cut short, and by whose end the command is over, brings the result, unless the
      exit frame was processed before: every frame that was missing, and the command's own status. */
  lemma WholeDeliveryReturns(c: Codec, frames: seq<Frame>, from: nat, rounds: seq<Round>)
    requires Faithful(c) && rounds != [] && rounds[0].fate.Opened? && !rounds[0].fate.broken
    requires var after := FramesAfter(frames, rounds[0]);
             && WellNumbered(after) && Ended(after) && from < |after|
             && Sum(rounds[0].fate.sizes) >= |Wire(c, Sent(after[from..], rounds[0].fate.schedule))|
    ensures var after := FramesAfter(frames, rounds[0]);
            var attempts := Course(c, frames, from, rounds).1;
            && Outcome(c, attempts) == Returned(after[|after| - 1].body.status)
            && Processed(c, attempts) == after[from..]
  {
    hide AttemptOf, FramesIn, LastExit, FramesAfter, WellNumbered, Faithful, Outcome, Processed, Wire, Sent;
    var after := FramesAfter(frames, rounds[0]);
    var a := AttemptOf(c, after, from, rounds[0].fate);
    WholeStream(c, after, from, rounds[0].fate);
    assert after[from..][|after| - from - 1] == after[|after| - 1];
    LastExitIsExit(FramesIn(c, a));
    ExitComesLast(after, from, FramesIn(c, a));
    TriedFirst(c, a, []);
    NothingTried(c);
    assert [a] + [] == [a];
  }

  lemma WholeStream(c: Codec, frames: seq<Frame>, from: nat, fate: Fate)
    requires Faithful(c) && from <= |frames| && fate.Opened?
    requires Sum(fate.sizes) >= |Wire(c, Sent(frames[from..], fate.schedule))|
    ensures var a := AttemptOf(c, frames, from, fate);
            a.Stream? && a.broken == fate.broken && FramesIn(c, a) == frames[from..]
  {
    hide Wire, Sent, Chopped, Joined, Lines, Received, Faithful;
    var items := Sent(frames[from..], fate.schedule);
    SentFrames(frames[from..], fate.schedule);
    ChoppedIsWhole(Wire(c, items), fate.sizes);
    PrefixOfWire(c, items, Wire(c, items));
  }

  // ---- connections, one after the other ----

  ghost predicate Unfinished(c: Codec, attempts: seq<Attempt>) {
    forall a | a in attempts :: !Fatal(a) && !Final(c, a)
  }

  lemma {:induction false} OneMoreAttempt(c: Codec, all: seq<Frame>, from: nat, attempts: seq<Attempt>, a: Attempt)
    requires Unfinished(c, attempts) && Plausible(c, all, from, attempts)
    requires Served(c, all, from + |Processed(c, attempts)|, a)
    ensures Plausible(c, all, from, attempts + [a])
    ensures Processed(c, attempts + [a]) == Processed(c, attempts) + if Fatal(a) then [] else FramesIn(c, a)
    ensures Outcome(c, attempts + [a])
            == if !Fatal(a) && Final(c, a) then Returned(LastExit(FramesIn(c, a)).value) else Threw
    decreases |attempts|
  {
    hide FramesIn, Served, Final, LastExit, Processed, Outcome;
    if attempts == [] {
      OneAttempt(c, all, from, a);
      assert [] + [a] == [a];
    } else {
      var first, rest := attempts[0], attempts[1..];
      assert attempts == [first] + rest && first in attempts && forall x | x in rest :: x in attempts;
      TriedFirst(c, first, rest);
      TriedFirst(c, first, rest + [a]);
      assert [first] + (rest + [a]) == attempts + [a] && (attempts + [a])[1..] == rest + [a];
      OneMoreAttempt(c, all, from + |FramesIn(c, first)|, rest, a);
    }
  }

  lemma OneAttempt(c: Codec, all: seq<Frame>, from: nat, a: Attempt)
    requires Served(c, all, from + |Processed(c, [])|, a)
    ensures Plausible(c, all, from, [a]) && Processed(c, []) == []
    ensures Processed(c, [a]) == if Fatal(a) then [] else FramesIn(c, a)
    ensures Outcome(c, [a]) == if !Fatal(a) && Final(c, a) then Returned(LastExit(FramesIn(c, a)).value) else Threw
  {
    hide FramesIn, Served, Final, LastExit;
    assert [a][1..] == [];
  }

  /** What was served of the frames so far was served of all there will be. */
  lemma {:induction false} StillPlausible(
      c: Codec, all: seq<Frame>, more: seq<Frame>, from: nat, attempts: seq<Attempt>)
    requires all <= more && Plausible(c, all, from, attempts)
    ensures Plausible(c, more, from, attempts)
    decreases |attempts|
  {
    if attempts == [] {
    } else {
      StillServed(c, all, more, from, attempts[0]);
      hide Served, FramesIn;
      StillPlausible(c, all, more, from + |FramesIn(c, attempts[0])|, attempts[1..]);
    }
  }

  lemma StillServed(c: Codec, all: seq<Frame>, more: seq<Frame>, from: nat, a: Attempt)
    requires all <= more && Served(c, all, from, a)
    ensures Served(c, more, from, a)
  {
    hide Wire, FramesOf, Joined;
    if a.Stream? {
      var items :| FramesOf(items) <= all[from..] && Joined(a.chunks) <= Wire(c, items);
      assert all[from..] <= more[from..];
    }
  }

  // ---- both ends ----

  /** The command goes on, until it is over. */
  method GoOn(job: Job, doings: seq<Doing>)
    requires job.Valid() && forall d | d in doings :: Possible(d)
    modifies job, job.subscribers
    ensures job.Valid() && job.frames == Produced(old(job.frames), doings)
    ensures old(job.frames) <= job.frames && job.subscribers <= old(job.subscribers)
    ensures forall s | s in old(job.subscribers) :: s.UpTo(job.frames) && s.start == old(s.start)
    ensures old(job.subscribers) == {} ==> job.subscribers == {}
    ensures !old(job.status).Running? ==> job.frames == old(job.frames)
  {
    assert doings[0..] == doings;
    for i := 0 to |doings|
      invariant Produced(job.frames, doings[i..]) == Produced(old(job.frames), doings)
      invariant job.Valid() && old(job.frames) <= job.frames && job.subscribers <= old(job.subscribers)
      invariant job.status.Running? ==> job.subscribers == old(job.subscribers)
      invariant forall s | s in old(job.subscribers) :: s.UpTo(job.frames) && s.start == old(s.start)
      invariant !old(job.status).Running? ==> job.frames == old(job.frames) && !job.status.Running?
    {
      if !job.status.Running? { return; }
      assert Possible(doings[i]) && doings[i..][0] == doings[i] && doings[i..][1..] == doings[i + 1..];
      match doings[i]
      case Prints(data) => job.Print(data);
      case Settles(outcome, error, at) => job.Settle(outcome, error, at);
    }
  }

  lemma SinkServes(c: Codec, all: seq<Frame>, from: nat, got: seq<Frame>, schedule: seq<bool>, sizes: seq<nat>,
                   broken: bool)
    requires from <= |all| && got == all[from..]
    ensures Served(c, all, from, Stream(Chopped(Wire(c, Sent(got, schedule)), sizes), broken))
  {
    hide Wire, Sent, Chopped, Joined;
    SentFrames(got, schedule);
    ChoppedIsPrefix(Wire(c, Sent(got, schedule)), sizes);
  }

  /** One connection that opens: the client asks for what comes after its last frame, and reads what arrives. */
  method Connect(job: Job, client: Client, fate: Fate) returns (exit: Option<Status>, ghost attempt: Attempt)
    requires job.Valid() && client.Valid() && Faithful(client.codec) && client.processed <= job.frames
    requires fate.Opened? && forall d | d in fate.during :: Possible(d)
    modifies job, job.subscribers, client
    ensures job.Valid() && client.Valid() && old(job.frames) <= job.frames && job.subscribers <= old(job.subscribers)
    ensures job.frames == Produced(old(job.frames), fate.during)
    ensures attempt == AttemptOf(client.codec, job.frames, |old(client.processed)|, fate)
    ensures Served(client.codec, job.frames, |old(client.processed)|, attempt)
    ensures client.processed == old(client.processed) + FramesIn(client.codec, attempt)
    ensures exit == LastExit(FramesIn(client.codec, attempt))
  {
    hide Wire, Sent, Chopped, Joined, LastExit, Received, Lines, Served, Faithful;
    LastSeqIsCount(job.frames, client.processed, client.lastSeq);
    var sink := new Sink(client.lastSeq);
    job.Subscribe(sink);
    GoOn(job, fate.during);
    assert sink.UpTo(job.frames);
    var items := Sent(sink.got, fate.schedule);
    var chunks := Chopped(Wire(client.codec, items), fate.sizes);
    job.Unsubscribe(sink);
    attempt := Stream(chunks, fate.broken);
    SinkServes(client.codec, job.frames, |client.processed|, sink.got, fate.schedule, fate.sizes, fate.broken);
    exit := client.ReadNdjson(chunks);
  }

  /** One round: the command goes on for a while, and then the client tries to connect. */
  method PlayRound(job: Job, client: Client, r: Round) returns (exit: Option<Status>, ghost attempt: Attempt)
    requires job.Valid() && client.Valid() && Faithful(client.codec) && client.processed <= job.frames && Sensible(r)
    modifies job, job.subscribers, client
    ensures job.Valid() && client.Valid() && old(job.frames) <= job.frames && job.subscribers <= old(job.subscribers)
    ensures job.frames == FramesAfter(old(job.frames), r)
    ensures attempt == AttemptOf(client.codec, job.frames, |old(client.processed)|, r.fate)
    ensures Served(client.codec, job.frames, |old(client.processed)|, attempt)
    ensures client.processed == old(client.processed) + FramesIn(client.codec, attempt)
    ensures attempt.Stream? ==> exit == LastExit(FramesIn(client.codec, attempt))
  {
    hide Served, LastExit, Faithful, Produced, Chopped, Wire, Sent, Received, Lines, Joined;
    GoOn(job, r.before);
    exit, attempt := None, Unreachable;
    match r.fate {
      case Unreached =>
      case Refused => attempt := Denied;
      case GivenUp => attempt := Cancelled;
      case Opened(_, _, _, _) => exit, attempt := Connect(job, client, r.fate);
    }
    NotServed(client.codec, job.frames, |old(client.processed)|, attempt);
  }

  /** A whole execution goes the one way it can. Its connections are of the kind that the results about the client
      ask for, so what it has processed is the first frames of the job, in order and once; and if it returns, the
      command is over, every frame was processed, and the status is the command's. */
  method Execute(job: Job, client: Client, rounds: seq<Round>) returns (verdict: Verdict, ghost attempts: seq<Attempt>)
    requires job.Valid() && client.Valid() && client.processed == [] && Faithful(client.codec)
    requires |rounds| == 4 && forall r | r in rounds :: Sensible(r)
    modifies job, job.subscribers, client
    ensures (job.frames, attempts) == Course(client.codec, old(job.frames), 0, rounds)
    ensures job.Valid() && Plausible(client.codec, job.frames, 0, attempts)
    ensures verdict == Outcome(client.codec, attempts) && client.processed == Processed(client.codec, attempts)
    ensures client.processed <= job.frames
    ensures verdict.Returned? ==>
              client.processed == job.frames && Ended(job.frames)
              && verdict.exit == job.frames[|job.frames| - 1].body.status
  {
    hide Plausible, Processed, Outcome, Served, FramesIn, LastExit, Faithful, Course, FramesAfter, AttemptOf, Fatal;
    attempts := [];
    NothingAttempted(client.codec, job.frames);
    verdict := Threw;
    ghost var course := Course(client.codec, job.frames, 0, rounds);
    assert rounds[0..] == rounds && [] + course.1 == course.1;
    var i := 0;
    while i < ATTEMPTS && verdict.Threw?
      decreases ATTEMPTS - i
      invariant i <= ATTEMPTS && job.Valid() && client.Valid() && job.subscribers <= old(job.subscribers)
      invariant Plausible(client.codec, job.frames, 0, attempts)
      invariant client.processed == Processed(client.codec, attempts) && client.processed <= job.frames
      invariant verdict == Outcome(client.codec, attempts)
      invariant verdict.Threw? ==> Unfinished(client.codec, attempts)
      invariant course == if verdict.Returned? then (job.frames, attempts)
                          else Onwards(attempts, Course(client.codec, job.frames, |client.processed|, rounds[i..]))
    {
      CourseStep(client.codec, job.frames, |client.processed|, rounds, i);
      ghost var frames, had := job.frames, |client.processed|;
      var exit;
      ghost var a;
      exit, a := PlayRound(job, client, rounds[i]);
      StillPlausible(client.codec, frames, job.frames, 0, attempts);
      NotServed(client.codec, job.frames, 0, a);
      FateTells(client.codec, job.frames, had, rounds[i].fate);
      OneMoreAttempt(client.codec, job.frames, 0, attempts, a);
      OneMoreOnwards(attempts, a, Course(client.codec, job.frames, |client.processed|, rounds[i + 1..]));
      attempts := attempts + [a];
      ProcessedIsPrefix(client.codec, job.frames, 0, attempts);
      if rounds[i].fate.Refused? || rounds[i].fate.GivenUp? { return; }
      if rounds[i].fate.Opened? && !rounds[i].fate.broken && exit.Some? { verdict := Returned(exit.value); }
      i := i + 1;
    }
    CourseEnds(client.codec, job.frames, |client.processed|, rounds);
    assert attempts + [] == attempts;
    if verdict.Returned? { ReturnMeansComplete(client.codec, job.frames, 0, attempts); }
  }

  lemma FateTells(c: Codec, frames: seq<Frame>, from: nat, fate: Fate)
    ensures var a := AttemptOf(c, frames, from, fate);
            && (Fatal(a) <==> fate.Refused? || fate.GivenUp?) && (a.Stream? <==> fate.Opened?)
            && (fate.Opened? ==> a.broken == fate.broken)
  {
  }

  function Onwards(attempts: seq<Attempt>, rest: (seq<Frame>, seq<Attempt>)): (seq<Frame>, seq<Attempt>) {
    (rest.0, attempts + rest.1)
  }

  lemma OneMoreOnwards(attempts: seq<Attempt>, a: Attempt, rest: (seq<Frame>, seq<Attempt>))
    ensures Onwards(attempts, (rest.0, [a] + rest.1)) == Onwards(attempts + [a], rest)
  {
    assert attempts + ([a] + rest.1) == attempts + [a] + rest.1;
  }

  lemma NothingAttempted(c: Codec, all: seq<Frame>)
    ensures Plausible(c, all, 0, []) && Processed(c, []) == [] && Outcome(c, []) == Threw && Unfinished(c, [])
  {
  }

  lemma NotServed(c: Codec, all: seq<Frame>, from: nat, a: Attempt)
    ensures !a.Stream? ==> Served(c, all, from, a) && FramesIn(c, a) == [] && !Final(c, a)
  {
  }
}
