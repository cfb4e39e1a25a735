/** The replay buffer of a run: every frame is numbered, the newest are kept within two caps, and a reader
    that comes back gets exactly what it missed, or is told that some of it is gone. */
module RunRegistry {
  import opened Retention
  import opened Wrappers

  /** A frame with its data serialised; the length is what it counts for. */
  datatype Frame = Frame(seqNo: nat, data: string)

  datatype Caps = Caps(maxFrames: nat, maxBytes: nat)

  datatype Buffer = Buffer(frames: seq<Frame>, nextSeq: nat, bytes: int, truncated: bool)

  // ---- what a buffer does ----

  function Size(frames: seq<Frame>): nat {
    if frames == [] then 0 else |frames[0].data| + Size(frames[1..])
  }

  predicate Within(c: Caps, b: Buffer) { |b.frames| <= c.maxFrames && b.bytes <= c.maxBytes }

  /** Drops the oldest frames until the caps hold. */
  function Trim(c: Caps, b: Buffer): Buffer
    decreases |b.frames|
  {
    if Within(c, b) || b.frames == [] then b
    else Trim(c, b.(frames := b.frames[1..], bytes := b.bytes - |b.frames[0].data|, truncated := true))
  }

  function Pushed(b: Buffer, data: string): Buffer {
    b.(frames := b.frames + [Frame(b.nextSeq, data)], nextSeq := b.nextSeq + 1, bytes := b.bytes + |data|)
  }

  function Append(c: Caps, b: Buffer, data: string): Buffer { Trim(c, Pushed(b, data)) }

  const EMPTY := Buffer([], 1, 0, false)

  function After(frames: seq<Frame>, from: int): seq<Frame> {
    if frames == [] then []
    else if frames[0].seqNo > from then [frames[0]] + After(frames[1..], from)
    else After(frames[1..], from)
  }

  function OldestSeq(b: Buffer): nat { if b.frames == [] then b.nextSeq else b.frames[0].seqNo }

  predicate Gapped(b: Buffer, from: int) { b.truncated && from + 1 < OldestSeq(b) }

  function Replay(b: Buffer, from: int): seq<Frame> { if Gapped(b, from) then [] else After(b.frames, from) }

  // ---- what a buffer holds ----

  /** All frames a run has produced, numbered from 1. */
  function Stamped(all: seq<string>): seq<Frame> { seq(|all|, i requires 0 <= i < |all| => Frame(i + 1, all[i])) }

  function Recorded(c: Caps, all: seq<string>): Buffer
    decreases |all|
  {
    if all == [] then EMPTY else Append(c, Recorded(c, all[..|all| - 1]), all[|all| - 1])
  }

  /** The buffer after `all` frames: the last ones, without a hole, and marked when it is not all of them. */
  predicate Holds(b: Buffer, all: seq<string>) {
    && |b.frames| <= |all| && b.frames == Stamped(all)[|all| - |b.frames|..]
    && b.nextSeq == |all| + 1 && b.bytes == Size(b.frames)
    && (b.truncated <==> |b.frames| < |all|)
  }

  lemma {:induction false} SizeOfAppended(frames: seq<Frame>, f: Frame)
    ensures Size(frames + [f]) == Size(frames) + |f.data|
  {
    if frames == [] {
    } else {
      assert (frames + [f])[1..] == frames[1..] + [f];
      SizeOfAppended(frames[1..], f);
    }
  }

  lemma {:induction false} TrimHolds(c: Caps, b: Buffer, all: seq<string>)
    requires Holds(b, all)
    ensures Holds(Trim(c, b), all) && Within(c, Trim(c, b))
    decreases |b.frames|
  {
    if !Within(c, b) && b.frames != [] {
      TrimHolds(c, b.(frames := b.frames[1..], bytes := b.bytes - |b.frames[0].data|, truncated := true), all);
    }
  }

  lemma PushHolds(b: Buffer, all: seq<string>, data: string)
    requires Holds(b, all)
    ensures Holds(Pushed(b, data), all + [data])
  {
    SizeOfAppended(b.frames, Frame(b.nextSeq, data));
    assert Stamped(all + [data]) == Stamped(all) + [Frame(|all| + 1, data)];
  }

  /** In every reachable state the buffer is the contiguous range of frames that ends at nextSeq - 1, within
      both caps, its byte count is the sum of their lengths, and `truncated` says whether any is missing. */
  lemma {:induction false} BufferIsSuffix(c: Caps, all: seq<string>)
    ensures Holds(Recorded(c, all), all) && Within(c, Recorded(c, all))
    decreases |all|
  {
    hide Holds, Append;
    if all == [] {
      assert Holds(EMPTY, []) by { EmptyHolds(); }
    } else {
      var init, last := all[..|all| - 1], all[|all| - 1];
      BufferIsSuffix(c, init);
      PushHolds(Recorded(c, init), init, last);
      assert init + [last] == all;
      TrimHolds(c, Pushed(Recorded(c, init), last), all);
      AppendIsTrimmedPush(c, Recorded(c, init), last);
    }
  }

  predicate Fits(c: Caps, frames: seq<Frame>) { |frames| <= c.maxFrames && Size(frames) <= c.maxBytes }

  /** The latest k frames. */
  function Latest(all: seq<string>, k: nat): seq<Frame>
    requires k <= |all|
  {
    Stamped(all)[|all| - k..]
  }

  /** No longer run of latest frames would fit. */
  ghost predicate Longest(c: Caps, b: Buffer, all: seq<string>) {
    forall k | |b.frames| < k <= |all| :: !Fits(c, Latest(all, k))
  }

  lemma {:induction false} TrimIsLongest(c: Caps, b: Buffer, all: seq<string>)
    requires Holds(b, all) && Longest(c, b, all)
    ensures Longest(c, Trim(c, b), all)
    decreases |b.frames|
  {
    hide Stamped, Size;
    if !Within(c, b) && b.frames != [] {
      SizeOfTail(b.frames);
      StampedLength(all);
      assert Latest(all, |b.frames|)[1..] == Latest(all, |b.frames| - 1);
      TrimIsLongest(c, b.(frames := b.frames[1..], bytes := b.bytes - |b.frames[0].data|, truncated := true), all);
    }
  }

  lemma SizeOfTail(frames: seq<Frame>)
    requires frames != []
    ensures Size(frames) == |frames[0].data| + Size(frames[1..])
  {
  }

  lemma StampedLength(all: seq<string>)
    ensures |Stamped(all)| == |all|
  {
  }

  lemma PushIsLongest(c: Caps, b: Buffer, all: seq<string>, data: string)
    requires Longest(c, b, all) && |b.frames| <= |all|
    ensures Longest(c, Pushed(b, data), all + [data])
  {
    hide Size;
    var f := Frame(|all| + 1, data);
    assert Stamped(all + [data]) == Stamped(all) + [f];
    forall k | |b.frames| + 1 < k <= |all| + 1 ensures !Fits(c, Latest(all + [data], k)) {
      assert !Fits(c, Latest(all, k - 1));
      assert Latest(all + [data], k) == Latest(all, k - 1) + [f];
      SizeOfAppended(Latest(all, k - 1), f);
    }
  }

  /** And it is the longest such range: nothing is dropped that need not be. */
  lemma {:induction false} BufferIsLongest(c: Caps, all: seq<string>)
    ensures var b := Recorded(c, all);
            && Fits(c, b.frames)
            && forall k | |b.frames| < k <= |all| :: !Fits(c, Latest(all, k))
    decreases |all|
  {
    hide Holds, Within, Append, Fits, Pushed, Latest;
    BufferIsSuffix(c, all);
    HoldsFits(c, Recorded(c, all), all);
    if all == [] {
    } else {
      var init, last := all[..|all| - 1], all[|all| - 1];
      var b := Recorded(c, init);
      assert init + [last] == all;
      BufferIsLongest(c, init);
      BufferIsSuffix(c, init);
      HoldsFits(c, b, init);
      PushIsLongest(c, b, init, last);
      PushHolds(b, init, last);
      TrimIsLongest(c, Pushed(b, last), all);
      AppendIsTrimmedPush(c, b, last);
    }
  }

  lemma HoldsFits(c: Caps, b: Buffer, all: seq<string>)
    requires Holds(b, all)
    ensures Within(c, b) ==> Fits(c, b.frames)
    ensures |b.frames| <= |all|
  {
  }

  lemma EmptyHolds()
    ensures Holds(EMPTY, [])
  {
  }

  lemma AppendIsTrimmedPush(c: Caps, b: Buffer, data: string)
    ensures Append(c, b, data) == Trim(c, Pushed(b, data))
  {
  }

  // ---- what a reader gets ----

  ghost predicate Numbered(frames: seq<Frame>, first: int) {
    forall i | 0 <= i < |frames| :: frames[i].seqNo == first + i
  }

  /** From contiguously numbered frames, those after `from` are a suffix. */
  lemma {:induction false} AfterIsSuffix(frames: seq<Frame>, first: int, from: int)
    requires Numbered(frames, first)
    ensures After(frames, from)
            == frames[if from < first then 0 else if from >= first + |frames| - 1 then |frames| else from - first + 1..]
  {
    if frames == [] {
    } else {
      AfterIsSuffix(frames[1..], first + 1, from);
    }
  }

  /** The reader is told of a gap exactly when a frame it has not seen has been dropped. */
  lemma GapIsToldExactly(c: Caps, all: seq<string>, from: int)
    requires from <= |all|
    ensures var b := Recorded(c, all);
            Gapped(b, from) <==> exists f | f in Stamped(all) :: f.seqNo > from && f !in b.frames
  {
    hide Recorded;
    BufferIsSuffix(c, all);
    var b := Recorded(c, all);
    var dropped := |all| - |b.frames|;
    forall f | f in Stamped(all) ensures f !in b.frames <==> f.seqNo <= dropped {
      assert f.seqNo > dropped ==> b.frames[f.seqNo - 1 - dropped] == f;
    }
    if Gapped(b, from) {
      assert Stamped(all)[dropped - 1].seqNo == dropped;
      assert Stamped(all)[dropped - 1] in Stamped(all);
    }
  }

  /** A reader that subscribes after `before` frames and stays for `later` ones gets, unless told of a gap,
      exactly the frames after its last one, in order, each once. This needs, and needs only, that it does
      not claim to have seen frames that do not exist yet. */
  lemma ReplayThenLiveIsEverything(c: Caps, before: seq<string>, later: seq<string>, from: int)
    requires !Gapped(Recorded(c, before), from)
    ensures Replay(Recorded(c, before), from) + Stamped(before + later)[|before|..]
            == After(Stamped(before + later), from)
            <==> from <= |before| || later == []
  {
    hide Recorded, Gapped, Replay, After, Holds, Within, Stamped;
    BufferIsSuffix(c, before);
    ReplayThenLive(Recorded(c, before), before, later, from);
  }

  /** The same for any buffer that holds what it should. */
  lemma ReplayThenLive(b: Buffer, before: seq<string>, later: seq<string>, from: int)
    requires Holds(b, before) && !Gapped(b, from)
    ensures Replay(b, from) + Stamped(before + later)[|before|..] == After(Stamped(before + later), from)
            <==> from <= |before| || later == []
    ensures from >= |before| ==> Replay(b, from) == []
  {
    hide Gapped, Replay, After;
    var all, n := Stamped(before + later), |before|;
    AfterIsSuffix(all, 1, from);
    StampedIsPrefix(before, later);
    ReplayIsSlice(b, all, n, from);
    SlicesJoin(all, n, if from < 0 then 0 else from);
  }

  lemma StampedIsPrefix(before: seq<string>, later: seq<string>)
    ensures Stamped(before) == Stamped(before + later)[..|before|]
  {
  }

  /** Two neighbouring slices are one, and a slice from further on is another unless both are empty. */
  lemma SlicesJoin(all: seq<Frame>, n: nat, at: nat)
    requires n <= |all|
    ensures at <= n ==> all[at..n] + all[n..] == all[at..]
    ensures n < at <= |all| ==> all[n..] != all[at..]
    ensures n < |all| ==> all[n..] != []
  {
    assert n < at <= |all| ==> |all[n..]| != |all[at..]|;
  }

  lemma ReplayIsSlice(b: Buffer, all: seq<Frame>, n: nat, from: int)
    requires |b.frames| <= n <= |all| && b.frames == all[..n][n - |b.frames|..] && Numbered(all, 1)
    requires b.nextSeq == n + 1 && (b.truncated <==> |b.frames| < n) && !Gapped(b, from)
    ensures Replay(b, from) == if from <= n then all[if from < 0 then 0 else from..n] else []
  {
    hide After;
    AfterIsSuffix(b.frames, n - |b.frames| + 1, from);
  }

  // ---- the registry in place ----

  /** One reader of the stream. Frames that come in before its response is open wait; the replay goes first. */
  class Reader {
    var isOpen: bool
    var ended: bool
    var pending: seq<Frame>
    var sent: seq<Frame>

    constructor ()
      ensures !isOpen && !ended && pending == [] && sent == []
    {
      isOpen, ended, pending, sent := false, false, [], [];
    }

    /** The reader was given these frames: sent on at once if the response is open, left waiting if not. */
    twostate predicate Given(fs: seq<Frame>)
      reads this
    {
      && isOpen == old(isOpen) && ended == old(ended)
      && sent == old(sent) + (if isOpen then fs else [])
      && pending == old(pending) + if isOpen then [] else fs
    }

    /** The reader was told of the end, and nothing else. */
    twostate predicate Told()
      reads this
    {
      ended && isOpen == old(isOpen) && sent == old(sent) && pending == old(pending)
    }

    /** A frame, or None for the end of the run. */
    method Receive(frame: Option<Frame>)
      modifies this
      ensures if frame.Some? then Given([frame.value]) else Told()
    {
      if frame.None? { ended := true; }
      else if !isOpen { pending := pending + [frame.value]; }
      else { sent := sent + [frame.value]; }
    }

    method Open(replay: seq<Frame>)
      requires !isOpen && sent == []
      modifies this
      ensures isOpen && pending == [] && sent == replay + old(pending) && ended == old(ended)
    {
      isOpen, sent := true, replay;
      while pending != []
        invariant isOpen && ended == old(ended) && sent + pending == replay + old(pending)
        decreases |pending|
      {
        sent, pending := sent + [pending[0]], pending[1..];
      }
    }

    /** The answer to a reader that has missed frames for good: it is sent nothing and must start over. */
    method Resync()
      modifies this
      ensures isOpen && ended && sent == old(sent) && pending == []
    {
      isOpen, ended, pending := true, true, [];
    }
  }

  ghost predicate Apart(rs: seq<Reader>) { forall i, j | 0 <= i < j < |rs| :: rs[i] != rs[j] }

  function Without(rs: seq<Reader>, r: Reader): seq<Reader> {
    if rs == [] then [] else (if rs[0] == r then [] else [rs[0]]) + Without(rs[1..], r)
  }

  lemma {:induction false} WithoutFacts(rs: seq<Reader>, r: Reader)
    ensures forall x :: x in Without(rs, r) <==> x in rs && x != r
    ensures Apart(rs) ==> Apart(Without(rs, r))
  {
    if rs == [] {
    } else {
      var rest := Without(rs[1..], r);
      WithoutFacts(rs[1..], r);
      assert Apart(rs) ==> Apart(rs[1..]) && rs[0] !in rs[1..];
      assert Without(rs, r) == if rs[0] == r then rest else [rs[0]] + rest;
    }
  }

  class Run {
    const caps: Caps
    var frames: seq<Frame>
    var nextSeq: nat
    var bytes: int
    var truncated: bool
    var done: bool
    var endedAt: int
    var listeners: seq<Reader>

    constructor (caps: Caps)
      ensures State() == EMPTY && this.caps == caps && !done && listeners == []
    {
      this.caps := caps;
      frames, nextSeq, bytes, truncated := [], 1, 0, false;
      done, endedAt, listeners := false, 0, [];
    }

    function State(): Buffer
      reads this
    {
      Buffer(frames, nextSeq, bytes, truncated)
    }

    ghost predicate Valid()
      reads this
    {
      Apart(listeners) && (done ==> listeners == [])
    }

    method TrimFrames()
      modifies this
      ensures State() == Trim(caps, old(State()))
      ensures done == old(done) && endedAt == old(endedAt) && listeners == old(listeners)
    {
      while frames != [] && (|frames| > caps.maxFrames || bytes > caps.maxBytes)
        invariant Trim(caps, State()) == Trim(caps, old(State()))
        invariant done == old(done) && endedAt == old(endedAt) && listeners == old(listeners)
        decreases |frames|
      {
        var dropped := frames[0];
        frames := frames[1..];
        bytes := bytes - |dropped.data|;
        truncated := true;
      }
    }

    /** Records a frame and hands it to every listener once. */
    method AppendFrame(data: string) returns (seqNo: nat)
      requires Valid()
      modifies this, listeners
      ensures Valid() && State() == Append(caps, old(State()), data) && seqNo == old(nextSeq)
      ensures done == old(done) && endedAt == old(endedAt) && listeners == old(listeners)
      ensures forall l | l in listeners :: l.Given([Frame(seqNo, data)])
    {
      var frame := Frame(nextSeq, data);
      seqNo := nextSeq;
      nextSeq := nextSeq + 1;
      bytes := bytes + |data|;
      frames := frames + [frame];
      assert State() == Pushed(old(State()), data);
      TrimFrames();
      hide Trim, Pushed, Append;
      for i := 0 to |listeners|
        invariant listeners == old(listeners) && Apart(listeners)
        invariant State() == Trim(caps, Pushed(old(State()), data)) && done == old(done) && endedAt == old(endedAt)
        invariant forall k | 0 <= k < i :: listeners[k].Given([frame])
        invariant forall k | i <= k < |listeners| :: unchanged(listeners[k])
      {
        listeners[i].Receive(Some(frame));
      }
      AppendIsTrimmedPush(caps, old(State()), data);
    }

    method Close(now: int)
      requires Valid()
      modifies this, listeners
      ensures Valid() && done && State() == old(State())
      ensures endedAt == if old(done) then old(endedAt) else now
      ensures forall l | l in old(listeners) :: l.Told()
      ensures listeners == []
    {
      if done { return; }
      done, endedAt := true, now;
      for i := 0 to |listeners|
        invariant listeners == old(listeners) && Apart(listeners) && done && endedAt == now && State() == old(State())
        invariant forall k | 0 <= k < i :: listeners[k].Told()
        invariant forall k | i <= k < |listeners| :: unchanged(listeners[k])
      {
        listeners[i].Receive(None);
      }
      listeners := [];
    }

    method Subscribe(from: int, listener: Reader) returns (replay: seq<Frame>, gapped: bool)
      requires Valid() && listener !in listeners
      modifies this
      ensures Valid() && State() == old(State()) && done == old(done) && endedAt == old(endedAt)
      ensures replay == Replay(State(), from) && gapped == Gapped(State(), from)
      ensures listeners == if done then [] else old(listeners) + [listener]
    {
      var oldest := if frames != [] then frames[0].seqNo else nextSeq;
      gapped := truncated && from + 1 < oldest;
      replay := if gapped then [] else After(frames, from);
      if !done { listeners := listeners + [listener]; }
    }

    method Unsubscribe(listener: Reader)
      requires Valid()
      modifies this
      ensures Valid() && State() == old(State()) && done == old(done) && endedAt == old(endedAt)
      ensures forall l :: l in listeners <==> l in old(listeners) && l != listener
    {
      WithoutFacts(listeners, listener);
      listeners := Without(listeners, listener);
    }
  }

  // ---- a run watched from somewhere in its middle to its end ----

  lemma AppendHolds(c: Caps, b: Buffer, all: seq<string>, data: string)
    requires Holds(b, all)
    ensures Holds(Append(c, b, data), all + [data]) && b.nextSeq == |all| + 1
  {
    PushHolds(b, all, data);
    TrimHolds(c, Pushed(b, data), all + [data]);
    AppendIsTrimmedPush(c, b, data);
  }

  /** What comes after the first n frames, numbered on. */
  function StampedFrom(n: nat, data: seq<string>): seq<Frame> {
    seq(|data|, i requires 0 <= i < |data| => Frame(n + i + 1, data[i]))
  }

  lemma StampedTail(all: seq<string>, data: seq<string>)
    ensures |Stamped(all + data)| == |all| + |data| && Stamped(all + data)[|all|..] == StampedFrom(|all|, data)
  {
  }

  lemma NothingStamped(n: nat)
    ensures StampedFrom(n, []) == []
  {
  }

  lemma OneMore(all: seq<string>, data: seq<string>, i: nat)
    requires i < |data|
    ensures all + data[..i] + [data[i]] == all + data[..i + 1]
    ensures StampedFrom(|all|, data[..i + 1]) == StampedFrom(|all|, data[..i]) + [Frame(|all| + i + 1, data[i])]
  {
  }

  method Produce(run: Run, data: string, ghost all: seq<string>)
    requires run.Valid() && Holds(run.State(), all) && !run.done
    modifies run, run.listeners
    ensures run.Valid() && Holds(run.State(), all + [data]) && run.done == old(run.done)
    ensures run.listeners == old(run.listeners)
    ensures forall l | l in run.listeners :: l.Given([Frame(|all| + 1, data)])
  {
    hide Holds, Append;
    AppendHolds(run.caps, run.State(), all, data);
    var seqNo := run.AppendFrame(data);
  }

  /** A stretch of a run: every frame is recorded and given to whoever listens. */
  method Proceed(run: Run, data: seq<string>, ghost all: seq<string>)
    requires run.Valid() && Holds(run.State(), all) && (run.done ==> data == [])
    modifies run, run.listeners
    ensures run.Valid() && Holds(run.State(), all + data) && run.done == old(run.done)
    ensures run.listeners == old(run.listeners)
    ensures forall l | l in run.listeners :: l.Given(StampedFrom(|all|, data))
  {
    hide Holds, Trim, Pushed, Append, Within, StampedFrom;
    assert all + data[..0] == all && StampedFrom(|all|, data[..0]) == [] by { NothingStamped(|all|); }
    for i := 0 to |data|
      invariant run.Valid() && run.done == old(run.done) && run.listeners == old(run.listeners)
      invariant Holds(run.State(), all + data[..i])
      invariant forall l | l in run.listeners :: l.Given(StampedFrom(|all|, data[..i]))
    {
      OneMore(all, data, i);
      label Before:
      Produce(run, data[i], all + data[..i]);
      forall l | l in run.listeners ensures l.Given(StampedFrom(|all|, data[..i + 1])) {
        assert l.Given@Before([Frame(|all| + i + 1, data[i])]);
      }
    }
    assert data[..|data|] == data;
  }

  /** What a reader is sent in three parts is all that comes after its last frame. */
  lemma WatchedWhole(b: Buffer, before: seq<string>, early: seq<string>, late: seq<string>, from: int)
    requires Holds(b, before) && !Gapped(b, from)
    ensures var all := Stamped(before + early + late);
            Replay(b, from) + StampedFrom(|before|, early) + StampedFrom(|before + early|, late)
            == After(all, if from <= |before| then from else |before|)
  {
    hide Gapped, Replay, After, Holds, Stamped, StampedFrom;
    StampedTail(before, early);
    StampedTail(before + early, late);
    var all, n := Stamped(before + early + late), |before|;
    StampedIsPrefix(before + early, late);
    assert before + (early + late) == before + early + late;
    ReplayThenLive(b, before, early + late, from);
    AfterSeen(before, early + late);
    StampedTail(before, early + late);
    assert all[..|before + early|][n..] + all[|before + early|..] == all[n..];
  }

  lemma AfterSeen(before: seq<string>, later: seq<string>)
    ensures After(Stamped(before + later), |before|) == Stamped(before + later)[|before|..]
  {
    hide After;
    AfterIsSuffix(Stamped(before + later), 1, |before|);
  }

  /** One reader of a run that has produced `earlier`: it subscribes, `early` comes in before its response
      is open and `late` after, and then the run ends, if it has not already. Unless it is told to start
      over, it is sent every frame of the run after its last one, in order and once, and then the end. */
  method ServeEvents(run: Run, from: int, early: seq<string>, late: seq<string>, now: int, ghost earlier: seq<string>)
    returns (reader: Reader, gapped: bool)
    requires run.Valid() && Holds(run.State(), earlier) && (run.done ==> early == [] && late == [])
    modifies run, run.listeners
    ensures run.done && Holds(run.State(), earlier + early + late)
    ensures gapped == old(Gapped(run.State(), from))
    ensures reader.isOpen && reader.ended
    ensures reader.sent == if gapped then []
                           else After(Stamped(earlier + early + late), if from <= |earlier| then from else |earlier|)
  {
    hide Gapped, Replay, After, Holds, Stamped, StampedFrom;
    NothingStamped(|earlier|);
    NothingStamped(|earlier + early|);
    reader := new Reader();
    ghost var b := run.State();
    var replay;
    replay, gapped := run.Subscribe(from, reader);
    var over := run.done;
    assert !over ==> reader in run.listeners;
    Proceed(run, early, earlier);
    assert !over ==> reader in run.listeners;
    if gapped {
      reader.Resync();
      run.Unsubscribe(reader);
    } else {
      assert reader.pending == StampedFrom(|earlier|, early);
      reader.Open(replay);
      if over { reader.Receive(None); }
    }
    forall i | 0 <= i < |run.listeners| ensures run.listeners[i] in old(run.listeners) + [reader] {
      assert run.listeners[i] in run.listeners;
    }
    Proceed(run, late, earlier + early);
    run.Close(now);
    if !gapped { WatchedWhole(b, earlier, early, late, from); }
  }

  // ---- forgetting runs ----

  function NotExpired(ids: seq<string>, ends: Ends, at: int, keep: int): seq<string> {
    if ids == [] then []
    else
      var init, id := NotExpired(ids[..|ids| - 1], ends, at, keep), ids[|ids| - 1];
      if id in ends && ends[id].Some? && at - ends[id].value > keep then init else init + [id]
  }

  /** The runs that a sweep evicts because there are too many: the ones that ended first. */
  function Evicted(ids: seq<string>, ends: Ends, max: nat): seq<string> {
    Oldest(Finished(ids, ends), EndOf(ends), |ids| - max)
  }

  lemma {:induction false} NotExpiredFacts(ids: seq<string>, ends: Ends, at: int, keep: int)
    ensures forall id :: id in NotExpired(ids, ends, at, keep) <==>
                         id in ids && !(id in ends && ends[id].Some? && at - ends[id].value > keep)
    ensures Distinct(ids) ==> Distinct(NotExpired(ids, ends, at, keep))
  {
    if ids == [] {
    } else {
      var init, last := ids[..|ids| - 1], ids[|ids| - 1];
      NotExpiredFacts(init, ends, at, keep);
      assert ids == init + [last];
      assert Distinct(ids) ==> Distinct(init) && last !in init;
    }
  }

  /** What a sweep leaves: finished runs go when they are old enough, and then, while there are too many,
      the ones that ended first. */
  function Swept(ids: seq<string>, ends: Ends, at: int, keep: int, max: nat): seq<string> {
    var young := NotExpired(ids, ends, at, keep);
    Minus(young, Evicted(young, ends, max))
  }

  lemma EvictedFacts(ids: seq<string>, ends: Ends, max: nat)
    requires Distinct(ids)
    ensures var gone, left := Evicted(ids, ends, max), Minus(ids, Evicted(ids, ends, max));
            && Distinct(left) && (forall id | id in gone :: id in ids && IsFinished(ends, id))
            && (forall x, y | x in gone && y in left && IsFinished(ends, y) :: ends[x].value <= ends[y].value)
            && (|left| <= max || forall id | id in left :: !IsFinished(ends, id))
            && (gone != [] ==> |left| >= max)
  {
    hide Minus, Oldest, Newest, Finished, SortBy;
    var finished, count := Finished(ids, ends), |ids| - max;
    var gone := Evicted(ids, ends, max);
    FinishedFacts(ids, ends);
    OldestSplits(finished, EndOf(ends), count);
    OldestSplitsDistinct(finished, EndOf(ends), count);
    MinusFacts(ids, gone);
    var left := Minus(ids, gone);
    ConcatDistinct(left, gone);
    SubsetIsShorter(left + gone, ids);
    SubsetIsShorter(ids, left + gone);
    forall x, y | x in gone && y in left && IsFinished(ends, y) ensures ends[x].value <= ends[y].value {
      assert y in Newest(finished, EndOf(ends), count);
      assert EndOf(ends)(x) <= EndOf(ends)(y);
    }
  }

  /** A sweep never takes a run that is still going. It takes all that have expired. What it takes beyond them
      ended no later than any finished run it leaves, and it does not go below the limit for it; it leaves more
      than the limit only if all of them are going. */
  lemma SweepSparesTheLiving(ids: seq<string>, ends: Ends, at: int, keep: int, max: nat)
    requires Distinct(ids)
    ensures var left := Swept(ids, ends, at, keep, max);
            && Distinct(left) && (forall id | id in left :: id in ids)
            && (forall id | id in ids && !IsFinished(ends, id) :: id in left)
            && (forall id | id in left && IsFinished(ends, id) :: at - ends[id].value <= keep)
            && (forall x, y | x in ids && x !in left && y in left && IsFinished(ends, y) ::
                  IsFinished(ends, x) && (at - ends[x].value > keep || ends[x].value <= ends[y].value))
            && (|left| <= max || forall id | id in left :: !IsFinished(ends, id))
            && (forall x | x in ids && x !in left :: at - ends[x].value > keep || |left| >= max)
  {
    hide Minus, Evicted;
    var young := NotExpired(ids, ends, at, keep);
    NotExpiredFacts(ids, ends, at, keep);
    EvictedFacts(young, ends, max);
    MinusFacts(young, Evicted(young, ends, max));
  }

  class Registry {
    const caps: Caps
    const keepFinished: int
    const maxRetained: nat
    var ids: seq<string>
    var runs: map<string, Run>

    constructor (caps: Caps, keepFinished: int, maxRetained: nat)
      ensures Valid() && ids == [] && this.caps == caps && this.keepFinished == keepFinished
              && this.maxRetained == maxRetained
    {
      this.caps, this.keepFinished, this.maxRetained := caps, keepFinished, maxRetained;
      ids, runs := [], map[];
    }

    ghost predicate Valid()
      reads this
    {
      Distinct(ids) && (forall id :: id in ids <==> id in runs)
    }

    function EndsNow(): Ends
      reads this, runs.Values
    {
      map id | id in runs :: if runs[id].done then Some(runs[id].endedAt) else None
    }

    method Sweep(now: int)
      requires Valid()
      modifies this
      ensures Valid()
      ensures ids == Swept(old(ids), old(EndsNow()), now, keepFinished, maxRetained)
      ensures forall id | id in runs :: id in old(runs) && runs[id] == old(runs)[id]
    {
      ghost var ends := EndsNow();
      var kept: seq<string> := [];
      for i := 0 to |ids|
        invariant kept == NotExpired(ids[..i], ends, now, keepFinished)
      {
        assert ids[..i + 1][..i] == ids[..i];
        var run := runs[ids[i]];
        if !(run.done && now - run.endedAt > keepFinished) { kept := kept + [ids[i]]; }
      }
      assert ids[..|ids|] == ids;
      NotExpiredFacts(ids, ends, now, keepFinished);
      var victims: seq<string> := [];
      if |kept| > maxRetained { victims := OldestFinished(kept, ends); }
      MinusFacts(kept, victims);
      ids := Minus(kept, victims);
      runs := map id | id in runs && id in ids :: runs[id];
      SweepSparesTheLiving(old(ids), ends, now, keepFinished, maxRetained);
    }

    /** The finished runs that ended first, as many as there are runs too many. */
    method OldestFinished(kept: seq<string>, ghost ends: Ends) returns (victims: seq<string>)
      requires ends == EndsNow() && |kept| > maxRetained && forall id | id in kept :: id in runs
      ensures victims == Evicted(kept, ends, maxRetained)
    {
      hide Minus, SortBy, Oldest;
      var finished: seq<string> := [];
      var endedAt: map<string, int> := map[];
      for i := 0 to |kept|
        invariant finished == Finished(kept[..i], ends)
        invariant forall id | id in kept[..i] && runs[id].done :: id in endedAt && endedAt[id] == runs[id].endedAt
      {
        assert kept[..i + 1][..i] == kept[..i];
        var run := runs[kept[i]];
        if run.done { finished, endedAt := finished + [kept[i]], endedAt[kept[i] := run.endedAt]; }
      }
      assert kept[..|kept|] == kept;
      FinishedFacts(kept, ends);
      var key := (id: string) => if id in endedAt then endedAt[id] else 0;
      SameKeys(finished, key, EndOf(ends));
      victims := Oldest(finished, key, |kept| - maxRetained);
    }
  }
}
