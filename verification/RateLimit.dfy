/** A sliding window that clears itself on a strike, with blocks that double. */
module RateLimit {
  import opened Retention

  datatype Limits = Limits(windowMs: int, max: nat, baseBlockMs: int, maxBlockMs: int, maxKeys: nat)

  datatype Entry = Entry(stamps: seq<int>, strikes: nat, blockedUntil: int)

  datatype Verdict = Accepted | Blocked | Struck

  const BLANK := Entry([], 0, 0)

  function Pow2(n: nat): nat { if n == 0 then 1 else 2 * Pow2(n - 1) }

  /** How long the nth strike, counted from 1, blocks. */
  function BlockOf(l: Limits, n: nat): int
    requires n > 0
  {
    var doubled := l.baseBlockMs * Pow2(n - 1);
    if doubled < l.maxBlockMs then doubled else l.maxBlockMs
  }

  function Recent(stamps: seq<int>, floor: int): seq<int> {
    if stamps == [] then []
    else if stamps[0] > floor then [stamps[0]] + Recent(stamps[1..], floor)
    else Recent(stamps[1..], floor)
  }

  /** One call for a key. */
  function Step(l: Limits, e: Entry, at: int): (Entry, Verdict) {
    if e.blockedUntil > at then (e, Blocked)
    else
      var stamps := Recent(e.stamps, at - l.windowMs) + [at];
      if |stamps| > l.max then (Entry([], e.strikes + 1, at + BlockOf(l, e.strikes + 1)), Struck)
      else (e.(stamps := stamps), Accepted)
  }

  // ---- many calls for one key ----

  datatype Call = Call(at: int, verdict: Verdict)

  function Replay(l: Limits, times: seq<int>): (Entry, seq<Call>) {
    if times == [] then (BLANK, [])
    else
      var (e, log) := Replay(l, times[..|times| - 1]);
      var at := times[|times| - 1];
      var (e', verdict) := Step(l, e, at);
      (e', log + [Call(at, verdict)])
  }

  ghost predicate Ordered(times: seq<int>) { forall i, j | 0 <= i <= j < |times| :: times[i] <= times[j] }

  /** The calls of a kind from `from` up to, not including, `to`. */
  function Count(log: seq<Call>, kind: Verdict, from: int, to: int): nat {
    if log == [] then 0
    else
      var c := log[|log| - 1];
      Count(log[..|log| - 1], kind, from, to) + if c.verdict == kind && from <= c.at < to then 1 else 0
  }

  function Since(stamps: seq<int>, from: int): nat {
    if stamps == [] then 0 else (if stamps[0] >= from then 1 else 0) + Since(stamps[1..], from)
  }

  lemma {:induction false} RecentFacts(stamps: seq<int>, floor: int, from: int)
    requires floor < from
    ensures Since(Recent(stamps, floor), from) == Since(stamps, from)
    ensures forall s | s in Recent(stamps, floor) :: s in stamps
  {
    if stamps == [] {
    } else {
      RecentFacts(stamps[1..], floor, from);
    }
  }

  lemma {:induction false} SinceFacts(stamps: seq<int>, at: int, from: int)
    ensures Since(stamps + [at], from) == Since(stamps, from) + if at >= from then 1 else 0
    ensures Since(stamps, from) <= |stamps|
    ensures (forall s | s in stamps :: s < from) ==> Since(stamps, from) == 0
  {
    if stamps == [] {
      assert stamps + [at] == [at] && [at][1..] == [];
    } else {
      assert (stamps + [at])[1..] == stamps[1..] + [at];
      assert stamps[0] in stamps && forall s | s in stamps[1..] :: s in stamps;
      SinceFacts(stamps[1..], at, from);
    }
  }

  lemma CountOfAppended(log: seq<Call>, c: Call, kind: Verdict, from: int, to: int)
    ensures Count(log + [c], kind, from, to)
            == Count(log, kind, from, to) + if c.verdict == kind && from <= c.at < to then 1 else 0
  {
    assert (log + [c])[..|log|] == log;
  }

  // ---- a key, its calls, and the table that may forget it ----

  /** When an entry no longer matters: its last stamp is out of the window and its block is over. */
  function Expiry(l: Limits, e: Entry): int {
    var last := if e.stamps == [] then 0 else e.stamps[|e.stamps| - 1];
    if e.blockedUntil < last + l.windowMs then last + l.windowMs else e.blockedUntil
  }

  /** What happens to a key: a call, or a sweep of the table that forgets its entry. */
  datatype Event = Hit(at: int) | Gone(at: int)

  /** The entry, the log of the calls, and when the entry was forgotten although it had not expired. */
  datatype Life = Life(entry: Entry, log: seq<Call>, early: seq<int>)

  function Lived(l: Limits, x: Life, e: Event): Life {
    match e
    case Hit(at) =>
      var (entry, verdict) := Step(l, x.entry, at);
      x.(entry := entry, log := x.log + [Call(at, verdict)])
    case Gone(at) => x.(entry := BLANK, early := if Expiry(l, x.entry) > at then x.early + [at] else x.early)
  }

  function LifeOf(l: Limits, events: seq<Event>): Life {
    if events == [] then Life(BLANK, [], []) else Lived(l, LifeOf(l, events[..|events| - 1]), events[|events| - 1])
  }

  ghost predicate InTime(events: seq<Event>) { forall i, j | 0 <= i <= j < |events| :: events[i].at <= events[j].at }

  function Within(times: seq<int>, from: int, to: int): nat {
    if times == [] then 0
    else Within(times[..|times| - 1], from, to) + if from <= times[|times| - 1] < to then 1 else 0
  }

  function AcceptedIn(x: Life, from: int, to: int): nat { Count(x.log, Accepted, from, to) }

  /** Strikes and early losses: each makes room for `max` more calls. */
  function Resets(x: Life, from: int, to: int): nat { Count(x.log, Struck, from, to) + Within(x.early, from, to) }

  /** While the window [from, to) is still open, what was accepted in it beyond `max` per reset is still on the
      stamps. */
  ghost predicate Charged(l: Limits, from: int, now: int, e: Entry, accepted: nat, resets: nat) {
    && |e.stamps| <= l.max && (forall s | s in e.stamps :: s <= now && s <= e.stamps[|e.stamps| - 1])
    && (now < from ==> accepted == 0)
    && accepted <= l.max * resets + Since(e.stamps, from)
  }

  lemma StepCharged(l: Limits, from: int, now: int, e: Entry, accepted: nat, resets: nat, at: int)
    requires Charged(l, from, now, e, accepted, resets) && now <= at < from + l.windowMs
    ensures var (e', verdict) := Step(l, e, at);
            Charged(l, from, at, e', accepted + (if verdict.Accepted? && from <= at then 1 else 0),
                    resets + if verdict.Struck? && from <= at then 1 else 0)
  {
    hide Charged, Since, Recent;
    if e.blockedUntil > at {
      LaterCharged(l, from, now, e, accepted, resets, at);
    } else if |Recent(e.stamps, at - l.windowMs)| + 1 > l.max {
      ResetCharged(l, from, now, e, accepted, resets, at, Step(l, e, at).0);
    } else {
      AcceptedCharged(l, from, now, e, accepted, resets, at);
    }
  }

  lemma LaterCharged(l: Limits, from: int, now: int, e: Entry, accepted: nat, resets: nat, at: int)
    requires Charged(l, from, now, e, accepted, resets) && now <= at
    ensures Charged(l, from, at, e, accepted, resets)
  {
    hide Since;
  }

  /** A strike or an early loss clears the stamps, of which there were no more than one more reset allows. */
  lemma ResetCharged(l: Limits, from: int, now: int, e: Entry, accepted: nat, resets: nat, at: int, after: Entry)
    requires Charged(l, from, now, e, accepted, resets) && now <= at && after.stamps == []
    ensures Charged(l, from, at, after, accepted, resets + if from <= at then 1 else 0)
  {
    SinceFacts(e.stamps, at, from);
    StrikeAbsorbs(l.max, resets);
  }

  lemma AcceptedCharged(l: Limits, from: int, now: int, e: Entry, accepted: nat, resets: nat, at: int)
    requires Charged(l, from, now, e, accepted, resets) && now <= at < from + l.windowMs
    requires |Recent(e.stamps, at - l.windowMs)| < l.max
    ensures Charged(l, from, at, e.(stamps := Recent(e.stamps, at - l.windowMs) + [at]),
                    accepted + (if from <= at then 1 else 0), resets)
  {
    hide Since, Recent;
    var kept := Recent(e.stamps, at - l.windowMs);
    RecentFacts(e.stamps, at - l.windowMs, from);
    SinceFacts(kept, at, from);
  }

  /** An entry that has expired holds nothing of a window that is still open. */
  lemma ExpiredCharged(l: Limits, from: int, now: int, e: Entry, accepted: nat, resets: nat, at: int)
    requires Charged(l, from, now, e, accepted, resets) && now <= at < from + l.windowMs && Expiry(l, e) <= at
    ensures Charged(l, from, at, BLANK, accepted, resets)
  {
    SinceFacts(e.stamps, at, from);
  }

  lemma StrikeAbsorbs(max: nat, k: nat)
    ensures max * (k + 1) == max * k + max
  {
  }

  lemma LivedCharged(l: Limits, from: int, now: int, x: Life, e: Event)
    requires Charged(l, from, now, x.entry, AcceptedIn(x, from, from + l.windowMs), Resets(x, from, from + l.windowMs))
    requires now <= e.at < from + l.windowMs
    ensures var y := Lived(l, x, e);
            Charged(l, from, e.at, y.entry, AcceptedIn(y, from, from + l.windowMs), Resets(y, from, from + l.windowMs))
  {
    hide Charged, Count, Step, Expiry;
    var to := from + l.windowMs;
    var accepted, resets := AcceptedIn(x, from, to), Resets(x, from, to);
    match e
    case Hit(at) =>
      var c := Call(at, Step(l, x.entry, at).1);
      StepCharged(l, from, now, x.entry, accepted, resets, at);
      CountOfAppended(x.log, c, Accepted, from, to);
      CountOfAppended(x.log, c, Struck, from, to);
    case Gone(at) =>
      if Expiry(l, x.entry) > at {
        ResetCharged(l, from, now, x.entry, accepted, resets, at, BLANK);
        assert (x.early + [at])[..|x.early|] == x.early;
      } else {
        ExpiredCharged(l, from, now, x.entry, accepted, resets, at);
      }
  }

  lemma {:induction false} LifeCharged(l: Limits, events: seq<Event>, from: int)
    requires events != [] && InTime(events) && events[|events| - 1].at < from + l.windowMs
    ensures var x := LifeOf(l, events);
            Charged(l, from, events[|events| - 1].at, x.entry,
                    AcceptedIn(x, from, from + l.windowMs), Resets(x, from, from + l.windowMs))
    decreases |events|
  {
    hide Lived, Charged, AcceptedIn, Resets;
    var init, last := events[..|events| - 1], events[|events| - 1];
    if init == [] {
      NothingCharged(l, from, last.at);
      LivedCharged(l, from, last.at, LifeOf(l, init), last);
    } else {
      LifeCharged(l, init, from);
      LivedCharged(l, from, init[|init| - 1].at, LifeOf(l, init), last);
    }
  }

  lemma NothingCharged(l: Limits, from: int, now: int)
    ensures var x := Life(BLANK, [], []);
            Charged(l, from, now, BLANK, AcceptedIn(x, from, from + l.windowMs), Resets(x, from, from + l.windowMs))
  {
  }

  lemma NothingLater(l: Limits, x: Life, e: Event, from: int, to: int)
    requires e.at >= to
    ensures AcceptedIn(Lived(l, x, e), from, to) == AcceptedIn(x, from, to)
    ensures Resets(Lived(l, x, e), from, to) == Resets(x, from, to)
  {
    hide Count, Step, Expiry;
    match e
    case Hit(at) =>
      CountOfAppended(x.log, Call(at, Step(l, x.entry, at).1), Accepted, from, to);
      CountOfAppended(x.log, Call(at, Step(l, x.entry, at).1), Struck, from, to);
    case Gone(at) => assert (x.early + [at])[..|x.early|] == x.early;
  }

  /** In any interval as long as the window, half open, at most max * (k + 1) calls of a key are accepted, where
      k counts its strikes and the times the table lost it although its entry had not expired. A sweep that
      forgets an expired entry costs nothing. */
  lemma {:induction false} AcceptedDespiteSweeps(l: Limits, events: seq<Event>, from: int)
    requires InTime(events)
    ensures var x, to := LifeOf(l, events), from + l.windowMs;
            Count(x.log, Accepted, from, to) <= l.max * (Count(x.log, Struck, from, to) + Within(x.early, from, to) + 1)
    decreases |events|
  {
    hide Lived, Count, Within;
    if events == [] {
      NothingCharged(l, from, from);
    } else {
      var init, last := events[..|events| - 1], events[|events| - 1];
      var x := LifeOf(l, events);
      if last.at < from + l.windowMs {
        LifeCharged(l, events, from);
        SinceFacts(x.entry.stamps, last.at, from);
        StrikeAbsorbs(l.max, Resets(x, from, from + l.windowMs));
      } else {
        AcceptedDespiteSweeps(l, init, from);
        NothingLater(l, LifeOf(l, init), last, from, from + l.windowMs);
      }
    }
  }

  function Hits(times: seq<int>): seq<Event> { seq(|times|, i requires 0 <= i < |times| => Hit(times[i])) }

  lemma {:induction false} ReplayIsLife(l: Limits, times: seq<int>)
    ensures LifeOf(l, Hits(times)) == Life(Replay(l, times).0, Replay(l, times).1, [])
    decreases |times|
  {
    hide Step;
    if times == [] {
    } else {
      ReplayIsLife(l, times[..|times| - 1]);
      assert Hits(times)[..|times| - 1] == Hits(times[..|times| - 1]);
    }
  }

  /** So of a key that is never forgotten, whatever came before and comes after, at most max * (k + 1) calls
      are accepted in a window with k strikes. */
  lemma AcceptedPerWindow(l: Limits, times: seq<int>, from: int)
    requires Ordered(times)
    ensures var log := Replay(l, times).1;
            Count(log, Accepted, from, from + l.windowMs) <= l.max * (Count(log, Struck, from, from + l.windowMs) + 1)
  {
    hide LifeOf, Replay, Count;
    AcceptedDespiteSweeps(l, Hits(times), from);
    ReplayIsLife(l, times);
  }

  /** An early loss does cost that much: with one call allowed, a second is accepted at once. */
  lemma EarlyLossCosts(l: Limits, at: int)
    requires l.max == 1 && l.windowMs > 0 && at >= 0
    ensures var x := LifeOf(l, [Hit(at), Gone(at), Hit(at)]);
            && Count(x.log, Accepted, at, at + l.windowMs) == 2 && Count(x.log, Struck, at, at + l.windowMs) == 0
            && x.early == [at]
  {
    hide LifeOf, Count;
    LostAndFound(l, at);
    CountOfTwo(Call(at, Accepted), Accepted, at, at + l.windowMs);
    CountOfTwo(Call(at, Accepted), Struck, at, at + l.windowMs);
  }

  lemma CountOfTwo(c: Call, kind: Verdict, from: int, to: int)
    requires from <= c.at < to
    ensures Count([c, c], kind, from, to) == if c.verdict == kind then 2 else 0
  {
    hide Count;
    var none: seq<Call> := [];
    assert Count(none, kind, from, to) == 0 by { NothingCounted(kind, from, to); }
    CountOfAppended(none, c, kind, from, to);
    assert none + [c] == [c];
    CountOfAppended([c], c, kind, from, to);
    assert [c] + [c] == [c, c];
  }

  lemma NothingCounted(kind: Verdict, from: int, to: int)
    ensures Count([], kind, from, to) == 0
  {
  }

  lemma LostAndFound(l: Limits, at: int)
    requires l.max == 1 && l.windowMs > 0 && at >= 0
    ensures var x := LifeOf(l, [Hit(at), Gone(at), Hit(at)]);
            x.log == [Call(at, Accepted), Call(at, Accepted)] && x.early == [at]
  {
    var events := [Hit(at), Gone(at), Hit(at)];
    assert events[..2] == [Hit(at), Gone(at)] && events[..2][..1] == [Hit(at)] && [Hit(at)][..0] == [];
    assert LifeOf(l, [Hit(at)]) == Life(Entry([at], 0, 0), [Call(at, Accepted)], []);
    assert LifeOf(l, events[..2]) == Life(BLANK, [Call(at, Accepted)], [at]);
  }

  // ---- strikes ----

  function StrikeTimes(log: seq<Call>): seq<int> {
    if log == [] then []
    else
      var init, c := StrikeTimes(log[..|log| - 1]), log[|log| - 1];
      if c.verdict.Struck? then init + [c.at] else init
  }

  ghost predicate Spaced(l: Limits, strikes: seq<int>) {
    forall i | 0 <= i < |strikes| - 1 :: strikes[i + 1] >= strikes[i] + BlockOf(l, i + 1)
  }

  lemma {:induction false} StrikesAreSpaced(l: Limits, times: seq<int>)
    ensures var (e, log) := Replay(l, times);
            var strikes := StrikeTimes(log);
            && Spaced(l, strikes) && e.strikes == |strikes|
            && e.blockedUntil == if strikes == [] then 0 else strikes[|strikes| - 1] + BlockOf(l, |strikes|)
    decreases |times|
  {
    hide BlockOf, Recent;
    if times == [] {
    } else {
      StrikesAreSpaced(l, times[..|times| - 1]);
      var (e, log) := Replay(l, times[..|times| - 1]);
      var after := Replay(l, times).1;
      assert after[..|after| - 1] == log;
    }
  }

  /** The blocks of strikes i up to j. */
  function Blocks(l: Limits, i: nat, j: nat): int
    requires 0 < i <= j
    decreases j - i
  {
    if i == j then 0 else BlockOf(l, i) + Blocks(l, i + 1, j)
  }

  lemma {:induction false} BlocksFit(l: Limits, strikes: seq<int>, i: nat, j: nat)
    requires Spaced(l, strikes) && i <= j < |strikes|
    ensures strikes[j] - strikes[i] >= Blocks(l, i + 1, j + 1)
    decreases j - i
  {
    hide BlockOf;
    if i < j { BlocksFit(l, strikes, i + 1, j); }
  }

  /** Consecutive strikes are at least min(base * 2^(n-1), cap) apart, so the blocks between the strikes of
      one window sum to less than the window. */
  lemma BlocksOfAWindow(l: Limits, times: seq<int>, from: int, i: nat, j: nat)
    requires var strikes := StrikeTimes(Replay(l, times).1);
             i <= j < |strikes| && from <= strikes[i] && strikes[j] < from + l.windowMs
    ensures Blocks(l, i + 1, j + 1) < l.windowMs
    ensures forall k | i <= k < j ::
            StrikeTimes(Replay(l, times).1)[k + 1] >= StrikeTimes(Replay(l, times).1)[k] + BlockOf(l, k + 1)
  {
    hide BlockOf;
    StrikesAreSpaced(l, times);
    BlocksFit(l, StrikeTimes(Replay(l, times).1), i, j);
  }

  /** Blocks double from one strike to the next, up to the cap. */
  lemma BlocksDouble(l: Limits, n: nat)
    requires n > 0 && 0 <= l.baseBlockMs && 0 <= l.maxBlockMs
    ensures BlockOf(l, 1) == if l.baseBlockMs < l.maxBlockMs then l.baseBlockMs else l.maxBlockMs
    ensures BlockOf(l, n + 1) == if 2 * BlockOf(l, n) < l.maxBlockMs then 2 * BlockOf(l, n) else l.maxBlockMs
  {
    assert Pow2(1) == 2 * Pow2(0) == 2 && Pow2(n) == 2 * Pow2(n - 1);
    assert l.baseBlockMs * Pow2(n) == 2 * (l.baseBlockMs * Pow2(n - 1));
  }

  // ---- exactly which calls are turned away ----

  /** The calls after the last strike. */
  function AfterStrike(log: seq<Call>): (r: seq<Call>)
    ensures |r| <= |log| && r == log[|log| - |r|..]
    ensures forall c | c in r :: !c.verdict.Struck?
    ensures |r| < |log| ==> log[|log| - |r| - 1].verdict.Struck?
  {
    if log == [] || log[|log| - 1].verdict.Struck? then []
    else AfterStrike(log[..|log| - 1]) + [log[|log| - 1]]
  }

  /** How many calls have been accepted after the last strike, and after `floor` but before `to`. */
  function Pending(log: seq<Call>, floor: int, to: int): nat { Count(AfterStrike(log), Accepted, floor + 1, to) }

  lemma PendingOfAppended(log: seq<Call>, c: Call, floor: int, to: int)
    ensures Pending(log + [c], floor, to)
            == if c.verdict.Struck? then 0
               else Pending(log, floor, to) + if c.verdict.Accepted? && floor < c.at < to then 1 else 0
  {
    assert (log + [c])[..|log|] == log;
    CountOfAppended(AfterStrike(log), c, Accepted, floor + 1, to);
  }

  lemma {:induction false} RecentAppend(stamps: seq<int>, at: int, floor: int)
    ensures Recent(stamps + [at], floor) == Recent(stamps, floor) + if at > floor then [at] else []
  {
    if stamps == [] {
      assert stamps + [at] == [at] && [at][1..] == [];
    } else {
      assert (stamps + [at])[1..] == stamps[1..] + [at];
      RecentAppend(stamps[1..], at, floor);
    }
  }

  lemma {:induction false} RecentTwice(stamps: seq<int>, low: int, floor: int)
    requires low <= floor
    ensures Recent(Recent(stamps, low), floor) == Recent(stamps, floor)
  {
    if stamps == [] {
    } else {
      RecentTwice(stamps[1..], low, floor);
      assert stamps[0] > low ==> Recent(stamps, low)[1..] == Recent(stamps[1..], low);
    }
  }

  /** Of a window that slides forwards, the stamps hold what has been accepted in it since the last strike. */
  lemma {:induction false} StampsArePending(l: Limits, times: seq<int>, floor: int, to: int)
    requires Ordered(times) && forall t | t in times :: t - l.windowMs <= floor && t < to
    ensures |Recent(Replay(l, times).0.stamps, floor)| == Pending(Replay(l, times).1, floor, to)
    decreases |times|
  {
    hide Recent, Pending, Step;
    if times == [] {
      NothingPending(floor, to);
    } else {
      var init, at := times[..|times| - 1], times[|times| - 1];
      assert times == init + [at] && at in times && forall t | t in init :: t in times;
      StampsArePending(l, init, floor, to);
      StepPending(l, Replay(l, init).0, Replay(l, init).1, at, floor, to);
    }
  }

  lemma StepPending(l: Limits, e: Entry, log: seq<Call>, at: int, floor: int, to: int)
    requires |Recent(e.stamps, floor)| == Pending(log, floor, to) && at - l.windowMs <= floor && at < to
    ensures var (e', verdict) := Step(l, e, at);
            |Recent(e'.stamps, floor)| == Pending(log + [Call(at, verdict)], floor, to)
  {
    hide Recent, Pending, BlockOf;
    PendingOfAppended(log, Call(at, Step(l, e, at).1), floor, to);
    RecentTwice(e.stamps, at - l.windowMs, floor);
    RecentAppend(Recent(e.stamps, at - l.windowMs), at, floor);
    NothingPending(floor, to);
  }

  lemma NothingPending(floor: int, to: int)
    ensures Recent([], floor) == [] && Pending([], floor, to) == 0
  {
  }

  lemma {:induction false} CountSplits(a: seq<Call>, b: seq<Call>, kind: Verdict, from: int, to: int)
    ensures Count(a + b, kind, from, to) == Count(a, kind, from, to) + Count(b, kind, from, to)
    decreases |b|
  {
    if b == [] {
      assert a + b == a;
    } else {
      var init := b[..|b| - 1];
      assert a + b == (a + init) + [b[|b| - 1]] && b == init + [b[|b| - 1]];
      CountSplits(a, init, kind, from, to);
      CountOfAppended(a + init, b[|b| - 1], kind, from, to);
    }
  }

  /** The time up to which the calls so far block the key. */
  function BlockedUntil(l: Limits, log: seq<Call>): int {
    var strikes := StrikeTimes(log);
    if strikes == [] then 0 else strikes[|strikes| - 1] + BlockOf(l, |strikes|)
  }

  /** What becomes of the next call, for sure: it is blocked as long as the block of the last strike lasts, the
      nth strike's block for the nth strike; otherwise it is a strike exactly if at least max calls have been
      accepted in the window that ends with it, counted from the last strike; otherwise it is accepted. */
  ghost predicate Decides(l: Limits, times: seq<int>, at: int, verdict: Verdict) {
    var log := Replay(l, times).1;
    && (verdict.Blocked? <==> at < BlockedUntil(l, log))
    && (verdict.Struck? <==> BlockedUntil(l, log) <= at && Pending(log, at - l.windowMs, at + 1) >= l.max)
  }

  lemma NextVerdict(l: Limits, times: seq<int>, at: int)
    requires Ordered(times + [at])
    ensures Decides(l, times, at, Step(l, Replay(l, times).0, at).1)
  {
    hide Replay, Recent, Pending, BlockOf;
    var all := times + [at];
    forall t | t in times ensures t <= at {
      var i :| 0 <= i < |times| && times[i] == t;
      assert all[i] <= all[|times|];
    }
    assert Ordered(times) by {
      forall i, j | 0 <= i <= j < |times| ensures times[i] <= times[j] { assert all[i] <= all[j]; }
    }
    StampsArePending(l, times, at - l.windowMs, at + 1);
    StrikesAreSpaced(l, times);
    assert times == [] ==> Replay(l, times).0 == BLANK by { NothingReplayed(l); }
  }

  lemma NothingReplayed(l: Limits)
    ensures Replay(l, []) == (BLANK, [])
  {
  }

  /** In particular, whoever stays below the limit is never struck: a strike needs max accepted calls in the
      window before it. */
  lemma StrikesAreDeserved(l: Limits, times: seq<int>, at: int)
    requires Ordered(times + [at]) && Step(l, Replay(l, times).0, at).1.Struck?
    ensures Count(Replay(l, times).1, Accepted, at - l.windowMs + 1, at + 1) >= l.max
  {
    hide Replay, Step, BlockOf;
    NextVerdict(l, times, at);
    var log := Replay(l, times).1;
    var late := AfterStrike(log);
    assert log == log[..|log| - |late|] + late;
    CountSplits(log[..|log| - |late|], late, Accepted, at - l.windowMs + 1, at + 1);
  }

  /** The calls of a key since it was last forgotten. */
  function SinceGone(events: seq<Event>): seq<int> {
    if events == [] || events[|events| - 1].Gone? then []
    else SinceGone(events[..|events| - 1]) + [events[|events| - 1].at]
  }

  lemma {:induction false} LifeIsReplay(l: Limits, events: seq<Event>)
    ensures LifeOf(l, events).entry == Replay(l, SinceGone(events)).0
    decreases |events|
  {
    hide Step, Expiry;
    if events == [] || events[|events| - 1].Gone? {
    } else {
      var init, at := events[..|events| - 1], events[|events| - 1].at;
      LifeIsReplay(l, init);
      assert (SinceGone(init) + [at])[..|SinceGone(init)|] == SinceGone(init);
    }
  }

  lemma {:induction false} SinceGoneInTime(events: seq<Event>)
    requires InTime(events)
    ensures Ordered(SinceGone(events))
    ensures events != [] ==> forall t | t in SinceGone(events) :: t <= events[|events| - 1].at
    decreases |events|
  {
    if events == [] || events[|events| - 1].Gone? {
    } else {
      var init := events[..|events| - 1];
      var times := SinceGone(init);
      assert forall i | 0 <= i < |init| :: init[i] == events[i];
      SinceGoneInTime(init);
      assert forall i | 0 <= i < |times| :: times[i] in times;
    }
  }

  /** The same through any sweeps: only the calls since the key was last forgotten matter. */
  lemma NextVerdictOfLife(l: Limits, events: seq<Event>, at: int)
    requires InTime(events + [Hit(at)])
    ensures Decides(l, SinceGone(events), at, Step(l, LifeOf(l, events).entry, at).1)
  {
    hide LifeOf, Replay, Decides, Step;
    SinceGoneInTime(events + [Hit(at)]);
    assert (events + [Hit(at)])[..|events|] == events;
    LifeIsReplay(l, events);
    NextVerdict(l, SinceGone(events), at);
  }

  /** An entry counts as expired exactly when its block is over and all its stamps have left the window. */
  lemma ExpiredMeansOver(l: Limits, e: Entry, at: int)
    requires forall s | s in e.stamps :: s <= e.stamps[|e.stamps| - 1]
    ensures Expiry(l, e) <= at <==>
              && e.blockedUntil <= at && (e.stamps == [] ==> l.windowMs <= at)
              && forall s | s in e.stamps :: s + l.windowMs <= at
  {
    assert e.stamps != [] ==> e.stamps[|e.stamps| - 1] in e.stamps;
  }

  // ---- the table of keys ----

  type Table = map<string, Entry>

  function ExpiryIn(l: Limits, t: Table): string -> int { key => if key in t then Expiry(l, t[key]) else 0 }

  function Alive(l: Limits, keys: seq<string>, t: Table, at: int): seq<string> {
    if keys == [] then []
    else
      var init, key := Alive(l, keys[..|keys| - 1], t, at), keys[|keys| - 1];
      if key in t && Expiry(l, t[key]) <= at then init else init + [key]
  }

  function Overflow(l: Limits, keys: seq<string>, t: Table): seq<string> {
    Oldest(keys, ExpiryIn(l, t), |keys| - l.maxKeys)
  }

  function SweptKeys(l: Limits, keys: seq<string>, t: Table, at: int): seq<string> {
    var alive := Alive(l, keys, t, at);
    Minus(alive, Overflow(l, alive, t))
  }

  lemma {:induction false} AliveFacts(l: Limits, keys: seq<string>, t: Table, at: int)
    ensures forall k :: k in Alive(l, keys, t, at) <==> k in keys && !(k in t && Expiry(l, t[k]) <= at)
    ensures Distinct(keys) ==> Distinct(Alive(l, keys, t, at))
  {
    hide Expiry;
    if keys == [] {
    } else {
      var init, last := keys[..|keys| - 1], keys[|keys| - 1];
      AliveFacts(l, init, t, at);
      assert keys == init + [last];
      assert Distinct(keys) ==> Distinct(init) && last !in init;
    }
  }

  /** A sweep leaves at most maxKeys keys. What goes has expired, or expires no later than all that stays:
      a key under a long block is the last to be forgotten. All that has expired goes; none goes early unless
      more than maxKeys keys have not expired, and then no more than are too many. */
  lemma SweepForgetsEarliest(l: Limits, keys: seq<string>, t: Table, at: int)
    requires Distinct(keys)
    ensures var left := SweptKeys(l, keys, t, at);
            && Distinct(left) && |left| <= l.maxKeys && (forall k | k in left :: k in keys)
            && (forall x, y | x in keys && x !in left && y in left ::
                  (x in t && Expiry(l, t[x]) <= at) || ExpiryIn(l, t)(x) <= ExpiryIn(l, t)(y))
            && (forall x | x in left && x in t :: Expiry(l, t[x]) > at)
            && (|left| < l.maxKeys ==> forall x | x in keys && x !in left :: x in t && Expiry(l, t[x]) <= at)
  {
    hide Expiry, Minus, Oldest, Newest, Alive;
    var alive, count := Alive(l, keys, t, at), |Alive(l, keys, t, at)| - l.maxKeys;
    var gone := Overflow(l, alive, t);
    AliveFacts(l, keys, t, at);
    OldestSplits(alive, ExpiryIn(l, t), count);
    OldestSplitsDistinct(alive, ExpiryIn(l, t), count);
    MinusFacts(alive, gone);
    ConcatDistinct(Minus(alive, gone), gone);
    SubsetIsShorter(Minus(alive, gone) + gone, alive);
    SubsetIsShorter(alive, Minus(alive, gone) + gone);
  }

  /** What has happened to each key. */
  type History = map<string, seq<Event>>

  function EventsIn(h: History, key: string): seq<Event> { if key in h then h[key] else [] }

  /** A sweep that left these keys. */
  function Forgotten(h: History, t: Table, left: seq<string>, at: int): History {
    h + map k | k in t && k !in left :: EventsIn(h, k) + [Gone(at)]
  }

  /** The table is what the histories of the keys make of it. */
  ghost predicate Recorded(l: Limits, t: Table, h: History) {
    forall k :: LifeOf(l, EventsIn(h, k)).entry == if k in t then t[k] else BLANK
  }

  lemma OneMore(l: Limits, events: seq<Event>, e: Event)
    ensures LifeOf(l, events + [e]) == Lived(l, LifeOf(l, events), e)
  {
    assert (events + [e])[..|events|] == events;
  }

  lemma SweepRecorded(l: Limits, t: Table, after: Table, h: History, left: seq<string>, at: int)
    requires Recorded(l, t, h) && after == map k | k in t && k in left :: t[k]
    ensures Recorded(l, after, Forgotten(h, t, left, at))
  {
    hide LifeOf, Step, Expiry;
    forall k ensures LifeOf(l, EventsIn(Forgotten(h, t, left, at), k)).entry == if k in after then after[k] else BLANK {
      OneMore(l, EventsIn(h, k), Gone(at));
    }
  }

  lemma BlankRecorded(l: Limits, t: Table, h: History, key: string)
    requires Recorded(l, t, h) && key !in t
    ensures Recorded(l, t[key := BLANK], h)
  {
    hide LifeOf;
  }

  lemma HitRecorded(l: Limits, t: Table, h: History, key: string, at: int)
    requires Recorded(l, t, h) && key in t
    ensures Recorded(l, t[key := Step(l, t[key], at).0], h[key := EventsIn(h, key) + [Hit(at)]])
  {
    hide Step, LifeOf;
    var after := h[key := EventsIn(h, key) + [Hit(at)]];
    OneMore(l, EventsIn(h, key), Hit(at));
    assert forall k | k != key :: EventsIn(after, k) == EventsIn(h, k);
  }

  lemma GoneRecorded(l: Limits, t: Table, h: History, key: string, at: int)
    requires Recorded(l, t, h)
    ensures Recorded(l, t - {key}, h[key := EventsIn(h, key) + [Gone(at)]])
  {
    hide Step, LifeOf;
    var after := h[key := EventsIn(h, key) + [Gone(at)]];
    OneMore(l, EventsIn(h, key), Gone(at));
    assert forall k | k != key :: EventsIn(after, k) == EventsIn(h, k);
  }

  class Limiter {
    const limits: Limits
    var keys: seq<string>
    var entries: Table
    ghost var history: History

    ghost predicate Valid()
      reads this
    {
      && Distinct(keys) && (forall k :: k in keys <==> k in entries) && |keys| <= limits.maxKeys + 1
      && Recorded(limits, entries, history)
    }

    constructor (limits: Limits)
      ensures Valid() && entries == map[] && this.limits == limits && history == map[]
    {
      this.limits, keys, entries, history := limits, [], map[], map[];
    }

    /** For every key, counted over its own calls: accepted in a window are at most max * (k + 1), with k its
        strikes and early losses. */
    lemma Bounded(key: string, from: int)
      requires Valid() && InTime(EventsIn(history, key))
      ensures var x, to := LifeOf(limits, EventsIn(history, key)), from + limits.windowMs;
              Count(x.log, Accepted, from, to)
              <= limits.max * (Count(x.log, Struck, from, to) + Within(x.early, from, to) + 1)
    {
      AcceptedDespiteSweeps(limits, EventsIn(history, key), from);
    }

    /** What Consume answers is decided by the calls of the key since it was last forgotten. */
    lemma AnswersAreExact(key: string, at: int)
      requires Valid() && InTime(EventsIn(RoomMade(at), key) + [Hit(at)])
      ensures Decides(limits, SinceGone(EventsIn(RoomMade(at), key)), at, Step(limits, Found(key, at), at).1)
    {
      hide LifeOf, SweptKeys, Decides, Step, Forgotten;
      var left := SweptKeys(limits, keys, entries, at);
      if |keys| >= limits.maxKeys {
        SweepRecorded(limits, entries, map k | k in entries && k in left :: entries[k], history, left, at);
      }
      SweepForgetsEarliest(limits, keys, entries, at);
      NextVerdictOfLife(limits, EventsIn(RoomMade(at), key), at);
    }

    method Sweep(at: int)
      requires Valid()
      modifies this
      ensures Valid() && |keys| <= limits.maxKeys
      ensures keys == SweptKeys(limits, old(keys), old(entries), at)
      ensures forall k | k in entries :: k in old(entries) && entries[k] == old(entries)[k]
      ensures history == Forgotten(old(history), old(entries), keys, at)
    {
      hide Expiry, Minus, SortBy, Recorded;
      SweepForgetsEarliest(limits, keys, entries, at);
      var alive: seq<string> := [];
      for i := 0 to |keys|
        invariant alive == Alive(limits, keys[..i], entries, at)
      {
        assert keys[..i + 1][..i] == keys[..i];
        if Expiry(limits, entries[keys[i]]) > at { alive := alive + [keys[i]]; }
      }
      assert keys[..|keys|] == keys;
      AliveFacts(limits, keys, entries, at);
      MinusFacts(alive, Overflow(limits, alive, entries));
      var t := entries;
      keys := Minus(alive, Overflow(limits, alive, t));
      entries := map k | k in entries && k in keys :: entries[k];
      history := Forgotten(history, t, keys, at);
      SweepRecorded(limits, t, entries, old(history), keys, at);
    }

    /** The entry this call finds: the key's own, unless a sweep forgets it first, or else a blank one. */
    ghost function Found(key: string, at: int): Entry
      reads this
    {
      var known := if |keys| >= limits.maxKeys then SweptKeys(limits, keys, entries, at) else keys;
      if key in known && key in entries then entries[key] else BLANK
    }

    /** What has happened to the keys once a call has made room. */
    ghost function RoomMade(at: int): History
      reads this
    {
      if |keys| < limits.maxKeys then history
      else Forgotten(history, entries, SweptKeys(limits, keys, entries, at), at)
    }

    /** Makes room if need be, and an entry for the key if it has none. */
    method EntryFor(key: string, at: int)
      requires Valid()
      modifies this
      ensures Valid() && key in entries && entries[key] == old(Found(key, at))
      ensures forall k | k in entries && k != key :: k in old(entries) && entries[k] == old(entries)[k]
      ensures history == old(RoomMade(at))
    {
      hide SweptKeys, Recorded, Forgotten;
      if |keys| >= limits.maxKeys { Sweep(at); }
      if key !in entries {
        BlankRecorded(limits, entries, history, key);
        keys, entries := keys + [key], entries[key := BLANK];
      }
    }

    /** One step for this key; other keys keep their entries, if they are not forgotten, and the table never
        holds more than maxKeys + 1 keys. */
    method Consume(key: string, at: int) returns (verdict: Verdict, retryAfterMs: int)
      requires Valid()
      modifies this
      ensures Valid() && key in entries && (entries[key], verdict) == Step(limits, old(Found(key, at)), at)
      ensures forall k | k in entries && k != key :: k in old(entries) && entries[k] == old(entries)[k]
      ensures history == old(RoomMade(at))[key := EventsIn(old(RoomMade(at)), key) + [Hit(at)]]
      ensures retryAfterMs == if verdict.Accepted? then 0 else entries[key].blockedUntil - at
    {
      hide Recent, BlockOf, SweptKeys, Forgotten, Recorded;
      EntryFor(key, at);
      var entry := entries[key];
      HitRecorded(limits, entries, history, key, at);
      assert entries[key := entry] == entries;
      history := history[key := EventsIn(history, key) + [Hit(at)]];
      if entry.blockedUntil > at { return Blocked, entry.blockedUntil - at; }
      var stamps := Recent(entry.stamps, at - limits.windowMs) + [at];
      if |stamps| > limits.max {
        var strikes := entry.strikes + 1;
        var blockMs := BlockOf(limits, strikes);
        entries := entries[key := Entry([], strikes, at + blockMs)];
        return Struck, blockMs;
      }
      entries := entries[key := entry.(stamps := stamps)];
      return Accepted, 0;
    }

    /** Forgets a key, as after a successful login; for the bound, it is lost. */
    method Reset(key: string, ghost at: int)
      requires Valid()
      modifies this
      ensures Valid() && entries == old(entries) - {key}
      ensures key in old(entries) ==> history == old(history)[key := EventsIn(old(history), key) + [Gone(at)]]
      ensures key !in old(entries) ==> history == old(history)
    {
      hide Recorded, LifeOf;
      if key in entries {
        MinusFacts(keys, [key]);
        SubsetIsShorter(Minus(keys, [key]), keys);
        GoneRecorded(limits, entries, history, key, at);
        keys, entries := Minus(keys, [key]), entries - {key};
        history := history[key := EventsIn(history, key) + [Gone(at)]];
      }
    }

    /** Asks without counting: whether a call now would be turned away by a block. */
    method Peek(key: string, at: int) returns (ok: bool, retryAfterMs: int)
      requires Valid()
      ensures !ok <==> key in entries && Step(limits, entries[key], at).1.Blocked?
      ensures !ok ==> key in entries && retryAfterMs == entries[key].blockedUntil - at > 0
    {
      if key !in entries || entries[key].blockedUntil <= at { return true, 0; }
      return false, entries[key].blockedUntil - at;
    }
  }
}
