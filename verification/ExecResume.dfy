/** The client of a background command: it reads newline-delimited frames and, when a connection ends
    early, comes back for the frames after the last one it has processed. */
module ExecResume {
  import opened ExecJobs
  import opened Wrappers

  // ---- lines ----

  function FirstBreak(text: string): (i: nat)
    ensures i <= |text| && '\n' !in text[..i] && (i < |text| ==> text[i] == '\n')
  {
    if text == [] || text[0] == '\n' then 0 else 1 + FirstBreak(text[1..])
  }

  /** The lines that are complete. */
  function Lines(text: string): seq<string>
    decreases |text|
  {
    var i := FirstBreak(text);
    if i == |text| then [] else [text[..i]] + Lines(text[i + 1..])
  }

  /** What follows the last line break. */
  function Rest(text: string): string
    decreases |text|
  {
    var i := FirstBreak(text);
    if i == |text| then text else Rest(text[i + 1..])
  }

  lemma BreakIsUnique(text: string, i: nat)
    requires i < |text| && text[i] == '\n' && '\n' !in text[..i]
    ensures FirstBreak(text) == i
  {
    var j := FirstBreak(text);
    assert forall k | 0 <= k < i :: text[k] in text[..i];
    assert forall k | 0 <= k < j :: text[k] in text[..j];
  }

  /** A line, its break, and what follows. */
  lemma LinesStep(line: string, tail: string)
    requires '\n' !in line
    ensures Lines(line + ['\n'] + tail) == [line] + Lines(tail)
    ensures Rest(line + ['\n'] + tail) == Rest(tail)
  {
    var text := line + ['\n'] + tail;
    assert text[..|line|] == line && text[|line|] == '\n' && text[|line| + 1..] == tail;
    BreakIsUnique(text, |line|);
  }

  lemma NoLine(text: string)
    requires '\n' !in text
    ensures Lines(text) == [] && Rest(text) == text
  {
    assert forall k | 0 <= k < |text| :: text[k] in text;
  }

  lemma {:induction false} LinesOfJoined(a: string, b: string)
    ensures Lines(a + b) == Lines(a) + Lines(Rest(a) + b)
    ensures Rest(a + b) == Rest(Rest(a) + b)
    decreases |a|
  {
    hide Lines, Rest, FirstBreak;
    var i := FirstBreak(a);
    if i == |a| {
      assert a[..i] == a;
      NoLine(a);
    } else {
      var line, tail := a[..i], a[i + 1..];
      assert a == line + ['\n'] + tail;
      assert a + b == line + ['\n'] + (tail + b);
      LinesStep(line, tail);
      LinesStep(line, tail + b);
      LinesOfJoined(tail, b);
      assert [line] + (Lines(tail) + Lines(Rest(tail) + b)) == [line] + Lines(tail) + Lines(Rest(tail) + b);
    }
  }

  function Joined(chunks: seq<string>): string {
    if chunks == [] then [] else Joined(chunks[..|chunks| - 1]) + chunks[|chunks| - 1]
  }

  // ---- frames on the wire ----

  /** A heartbeat is not part of the output and has no number. */
  datatype Item = Beat | Data(frame: Frame)

  predicate Blank(line: string) { forall c | c in line :: c == ' ' || c == '\t' || c == '\r' }

  /** How items become lines and back; a line that does not decode is skipped. */
  datatype Codec = Codec(encode: Item -> string, decode: string -> Option<Item>)

  ghost predicate Faithful(c: Codec) {
    forall item :: c.decode(c.encode(item)) == Some(item) && '\n' !in c.encode(item) && !Blank(c.encode(item))
  }

  predicate IsData(c: Codec, line: string) { !Blank(line) && c.decode(line).Some? && c.decode(line).value.Data? }

  function Received(c: Codec, lines: seq<string>): seq<Frame> {
    if lines == [] then []
    else
      var init, line := Received(c, lines[..|lines| - 1]), lines[|lines| - 1];
      if IsData(c, line) then init + [c.decode(line).value.frame] else init
  }

  function Wire(c: Codec, items: seq<Item>): string {
    if items == [] then [] else c.encode(items[0]) + ['\n'] + Wire(c, items[1..])
  }

  function FramesOf(items: seq<Item>): seq<Frame> {
    if items == [] then [] else (if items[0].Data? then [items[0].frame] else []) + FramesOf(items[1..])
  }

  lemma {:induction false} ReceivedSplits(c: Codec, a: seq<string>, b: seq<string>)
    ensures Received(c, a + b) == Received(c, a) + Received(c, b)
    decreases |b|
  {
    if b == [] {
      assert a + b == a;
    } else {
      assert (a + b)[..|a + b| - 1] == a + b[..|b| - 1];
      ReceivedSplits(c, a, b[..|b| - 1]);
    }
  }

  /** However much of a stream gets through, the frames read from it are the first ones sent, in order. */
  lemma {:induction false} PrefixOfWire(c: Codec, items: seq<Item>, text: string)
    requires Faithful(c) && text <= Wire(c, items)
    ensures Received(c, Lines(text)) <= FramesOf(items)
    ensures text == Wire(c, items) ==> Received(c, Lines(text)) == FramesOf(items)
    decreases |items|
  {
    if items == [] {
      assert Lines(text) == [];
    } else {
      var line, tail := c.encode(items[0]), Wire(c, items[1..]);
      hide Wire, Lines, Received, FirstBreak;
      assert Wire(c, items) == line + ['\n'] + tail by { WireStep(c, items); }
      if |text| <= |line| {
        assert text == line[..|text|];
        NoLine(text);
      } else {
        var more := text[|line| + 1..];
        assert text == line + ['\n'] + more && more <= tail;
        LinesStep(line, more);
        PrefixOfWire(c, items[1..], more);
        ReceivedSplits(c, [line], Lines(more));
        OneLine(c, items[0], items[1..]);
        assert [items[0]] + items[1..] == items;
      }
    }
  }

  lemma WireStep(c: Codec, items: seq<Item>)
    requires items != []
    ensures Wire(c, items) == c.encode(items[0]) + ['\n'] + Wire(c, items[1..])
  {
  }

  lemma OneLine(c: Codec, item: Item, rest: seq<Item>)
    requires Faithful(c)
    ensures Received(c, [c.encode(item)]) == FramesOf([item])
    ensures FramesOf([item] + rest) == FramesOf([item]) + FramesOf(rest)
  {
    assert [c.encode(item)][..0] == [];
    assert ([item] + rest)[1..] == rest && [item][1..] == [];
  }

  // ---- one execution, over several connections ----

  /** What becomes of one connection: none, a refusal, the caller giving up, or a stream of chunks that
      ends by itself or breaks with an error. */
  datatype Attempt = Unreachable | Denied | Cancelled | Stream(chunks: seq<string>, broken: bool)

  datatype Verdict = Returned(exit: Status) | Threw

  const ATTEMPTS := 4

  function FramesIn(c: Codec, a: Attempt): seq<Frame> { if a.Stream? then Received(c, Lines(Joined(a.chunks))) else [] }

  predicate HasExit(frames: seq<Frame>) { exists f | f in frames :: f.body.Exit? }

  function LastExit(frames: seq<Frame>): Option<Status> {
    if frames == [] then None
    else if frames[|frames| - 1].body.Exit? then Some(frames[|frames| - 1].body.status)
    else LastExit(frames[..|frames| - 1])
  }

  predicate Final(c: Codec, a: Attempt) { a.Stream? && !a.broken && LastExit(FramesIn(c, a)).Some? }

  predicate Fatal(a: Attempt) { a.Denied? || a.Cancelled? }

  function Outcome(c: Codec, attempts: seq<Attempt>): Verdict {
    if attempts == [] || Fatal(attempts[0]) then Threw
    else if Final(c, attempts[0]) then Returned(LastExit(FramesIn(c, attempts[0])).value)
    else Outcome(c, attempts[1..])
  }

  function Processed(c: Codec, attempts: seq<Attempt>): seq<Frame> {
    if attempts == [] || Fatal(attempts[0]) then []
    else if Final(c, attempts[0]) then FramesIn(c, attempts[0])
    else FramesIn(c, attempts[0]) + Processed(c, attempts[1..])
  }

  lemma {:induction false} LastExitIsExit(frames: seq<Frame>)
    ensures LastExit(frames).Some? <==> HasExit(frames)
  {
    if frames == [] {
    } else {
      LastExitIsExit(frames[..|frames| - 1]);
      assert frames == frames[..|frames| - 1] + [frames[|frames| - 1]];
    }
  }

  class Client {
    const codec: Codec
    var lastSeq: nat
    var processed: seq<Frame>

    constructor (codec: Codec)
      ensures this.codec == codec && lastSeq == 0 && processed == []
    {
      this.codec, lastSeq, processed := codec, 0, [];
    }

    /** The largest number processed. */
    ghost predicate Valid()
      reads this
    {
      (forall f | f in processed :: f.seqNo <= lastSeq)
        && (lastSeq == 0 || exists f | f in processed :: f.seqNo == lastSeq)
    }

    /** Reads a stream chunk by chunk; how it was cut makes no difference. */
    method ReadNdjson(chunks: seq<string>) returns (exit: Option<Status>)
      requires Valid()
      modifies this
      ensures Valid() && processed == old(processed) + Received(codec, Lines(Joined(chunks)))
      ensures exit == LastExit(Received(codec, Lines(Joined(chunks))))
    {
      hide Lines, Rest, IsData;
      var buffer := "";
      exit := None;
      EmptyText();
      for i := 0 to |chunks|
        invariant Valid() && buffer == Rest(Joined(chunks[..i]))
        invariant processed == old(processed) + Received(codec, Lines(Joined(chunks[..i])))
        invariant exit == LastExit(Received(codec, Lines(Joined(chunks[..i]))))
      {
        var before := Joined(chunks[..i]);
        assert chunks[..i + 1][..i] == chunks[..i];
        LinesOfJoined(before, chunks[i]);
        var lines := Lines(buffer + chunks[i]);
        buffer := Rest(buffer + chunks[i]);
        ReceivedSplits(codec, Lines(before), lines);
        exit := TakeLines(lines, exit, Received(codec, Lines(before)));
      }
      assert chunks[..|chunks|] == chunks;
    }

    method TakeLines(lines: seq<string>, exitBefore: Option<Status>, ghost seen: seq<Frame>)
      returns (exit: Option<Status>)
      requires Valid() && exitBefore == LastExit(seen)
      modifies this
      ensures Valid() && processed == old(processed) + Received(codec, lines)
      ensures exit == LastExit(seen + Received(codec, lines))
    {
      exit := exitBefore;
      assert seen + [] == seen;
      for i := 0 to |lines|
        invariant Valid() && processed == old(processed) + Received(codec, lines[..i])
        invariant exit == LastExit(seen + Received(codec, lines[..i]))
      {
        assert lines[..i + 1][..i] == lines[..i];
        if IsData(codec, lines[i]) {
          var frame := codec.decode(lines[i]).value.frame;
          ghost var sofar := seen + Received(codec, lines[..i]);
          assert seen + Received(codec, lines[..i + 1]) == sofar + [frame];
          assert (sofar + [frame])[..|sofar|] == sofar;
          processed := processed + [frame];
          if frame.body.Exit? { exit := Some(frame.body.status); }
          if frame.seqNo > lastSeq { lastSeq := frame.seqNo; }
        }
      }
      assert lines[..|lines|] == lines;
    }

    /** Tries up to four times; only a stream that ended by itself and showed the exit frame is a result. */
    method Exec(attempts: seq<Attempt>) returns (verdict: Verdict)
      requires Valid() && processed == [] && |attempts| == 4
      modifies this
      ensures Valid() && processed == Processed(codec, attempts) && verdict == Outcome(codec, attempts)
    {
      hide Lines, Received, LastExit, Joined, Outcome, Processed;
      NothingTried(codec);
      for i := 0 to ATTEMPTS
        invariant Valid() && processed + Processed(codec, attempts[i..]) == Processed(codec, attempts)
        invariant Outcome(codec, attempts[i..]) == Outcome(codec, attempts)
      {
        var a := attempts[i];
        assert attempts[i..] == [a] + attempts[i + 1..];
        TriedFirst(codec, a, attempts[i + 1..]);
        if a.Denied? || a.Cancelled? { return Threw; }
        if a.Stream? {
          var exit := ReadNdjson(a.chunks);
          if !a.broken && exit.Some? { return Returned(exit.value); }
        }
      }
      assert attempts[ATTEMPTS..] == [];
      verdict := Threw;
    }
  }

  lemma NothingTried(c: Codec)
    ensures Processed(c, []) == [] && Outcome(c, []) == Threw
  {
  }

  lemma TriedFirst(c: Codec, a: Attempt, rest: seq<Attempt>)
    ensures Processed(c, [a] + rest)
            == if Fatal(a) then [] else FramesIn(c, a) + if Final(c, a) then [] else Processed(c, rest)
    ensures Outcome(c, [a] + rest)
            == if Fatal(a) then Threw
               else if Final(c, a) then Returned(LastExit(FramesIn(c, a)).value) else Outcome(c, rest)
  {
    assert ([a] + rest)[1..] == rest;
  }

  /** A refusal or a cancellation ends the execution at once; no connection at all, a lost one, or one that ended
      without the exit frame only costs a try. */
  lemma RefusalsAreFinal(c: Codec, a: Attempt, rest: seq<Attempt>)
    ensures Outcome(c, [Denied] + rest) == Outcome(c, [Cancelled] + rest) == Threw
    ensures Processed(c, [Denied] + rest) == Processed(c, [Cancelled] + rest) == []
    ensures Outcome(c, [Unreachable] + rest) == Outcome(c, rest)
    ensures a.Stream? && (a.broken || !HasExit(FramesIn(c, a))) ==> Outcome(c, [a] + rest) == Outcome(c, rest)
  {
    hide Lines, Received, Joined;
    TriedFirst(c, Denied, rest);
    TriedFirst(c, Cancelled, rest);
    TriedFirst(c, Unreachable, rest);
    TriedFirst(c, a, rest);
    LastExitIsExit(FramesIn(c, a));
  }

  lemma EmptyText()
    ensures Lines("") == [] && Rest("") == ""
  {
  }

  // ---- what the caller gets ----

  /** The stream of a connection that asked for the frames after `from`: those frames in order, heartbeats
      anywhere between, and of all that any number of bytes. */
  ghost predicate Served(c: Codec, all: seq<Frame>, from: nat, a: Attempt) {
    a.Stream? ==> from <= |all| && exists items :: FramesOf(items) <= all[from..] && Joined(a.chunks) <= Wire(c, items)
  }

  /** Each connection asks for what comes after the last frame processed. */
  ghost predicate Plausible(c: Codec, all: seq<Frame>, from: nat, attempts: seq<Attempt>)
    decreases |attempts|
  {
    attempts == [] || (Served(c, all, from, attempts[0])
                       && Plausible(c, all, from + |FramesIn(c, attempts[0])|, attempts[1..]))
  }

  lemma ServedFrames(c: Codec, all: seq<Frame>, from: nat, a: Attempt)
    requires Faithful(c) && Served(c, all, from, a) && from <= |all|
    ensures FramesIn(c, a) <= all[from..]
  {
    hide Received, Lines, Wire, Joined;
    if a.Stream? {
      var items :| FramesOf(items) <= all[from..] && Joined(a.chunks) <= Wire(c, items);
      PrefixOfWire(c, items, Joined(a.chunks));
    }
  }

  /** Exactly once: whatever the cuts, what has been processed is the first frames of the job, in order,
      without a repeat or a hole. */
  lemma {:induction false} ProcessedIsPrefix(c: Codec, all: seq<Frame>, from: nat, attempts: seq<Attempt>)
    requires Faithful(c) && from <= |all| && Plausible(c, all, from, attempts)
    ensures Processed(c, attempts) <= all[from..]
    decreases |attempts|
  {
    hide FramesIn, Faithful;
    if attempts != [] && !Fatal(attempts[0]) {
      ServedFrames(c, all, from, attempts[0]);
      var got := FramesIn(c, attempts[0]);
      ProcessedIsPrefix(c, all, from + |got|, attempts[1..]);
      assert all[from..][|got|..] == all[from + |got|..];
    }
  }

  /** For a client that has processed a prefix, the largest number seen is its length: asking for what
      comes after lastSeq is asking for the rest. */
  lemma LastSeqIsCount(all: seq<Frame>, processed: seq<Frame>, lastSeq: nat)
    requires WellNumbered(all) && processed <= all
    requires forall f | f in processed :: f.seqNo <= lastSeq
    requires lastSeq == 0 || exists f | f in processed :: f.seqNo == lastSeq
    ensures lastSeq == |processed|
  {
    if processed != [] {
      assert processed[|processed| - 1] in processed;
    }
  }

  lemma ExitComesLast(all: seq<Frame>, from: nat, got: seq<Frame>)
    requires WellNumbered(all) && from <= |all| && got <= all[from..] && HasExit(got)
    ensures Ended(all) && got == all[from..] && LastExit(got) == Some(all[|all| - 1].body.status)
  {
    var f :| f in got && f.body.Exit?;
    var i :| 0 <= i < |got| && got[i] == f;
    assert all[from + i] == f;
  }

  /** A normal return means that the command is over, that every frame of the job was processed, and that
      the status returned is the one of its exit frame. */
  lemma {:induction false} ReturnMeansComplete(c: Codec, all: seq<Frame>, from: nat, attempts: seq<Attempt>)
    requires Faithful(c) && WellNumbered(all) && from <= |all| && Plausible(c, all, from, attempts)
    requires Outcome(c, attempts).Returned?
    ensures Ended(all) && Processed(c, attempts) == all[from..]
            && Outcome(c, attempts).exit == all[|all| - 1].body.status
    decreases |attempts|
  {
    hide FramesIn, Faithful, WellNumbered;
    ServedFrames(c, all, from, attempts[0]);
    var got := FramesIn(c, attempts[0]);
    if Final(c, attempts[0]) {
      LastExitIsExit(got);
      ExitComesLast(all, from, got);
    } else {
      ReturnMeansComplete(c, all, from + |got|, attempts[1..]);
      assert got + all[from + |got|..] == all[from..];
    }
  }

  /** The connection that brings the exit frame, if one does. */
  function Delivery(c: Codec, attempts: seq<Attempt>): Option<nat> {
    if attempts == [] || Fatal(attempts[0]) then None
    else if LastExit(FramesIn(c, attempts[0])).Some? then Some(0)
    else match Delivery(c, attempts[1..])
      case Some(i) => Some(i + 1)
      case None => None
  }

  /** Nothing follows the exit frame, so no later connection brings another one. */
  lemma {:induction false} NothingFollowsExit(c: Codec, all: seq<Frame>, attempts: seq<Attempt>)
    requires Faithful(c) && Plausible(c, all, |all|, attempts)
    ensures Outcome(c, attempts) == Threw
    decreases |attempts|
  {
    hide FramesIn, Faithful;
    if attempts == [] {
    } else {
      ServedFrames(c, all, |all|, attempts[0]);
      NothingFollowsExit(c, all, attempts[1..]);
    }
  }

  lemma {:induction false} DeliveryInRange(c: Codec, attempts: seq<Attempt>)
    ensures Delivery(c, attempts).Some? ==> Delivery(c, attempts).value < |attempts|
  {
    hide FramesIn, LastExit;
    if attempts == [] {
    } else {
      DeliveryInRange(c, attempts[1..]);
    }
  }

  /** The execution returns exactly when the connection that brings the exit frame also ends cleanly. If it
      breaks after that frame, the retries ask for frames that do not exist, and the execution fails although
      everything has been received. */
  lemma {:induction false} ReturnsExactlyOnCleanDelivery(c: Codec, all: seq<Frame>, from: nat, attempts: seq<Attempt>)
    requires Faithful(c) && WellNumbered(all) && from <= |all| && Plausible(c, all, from, attempts)
    ensures var d := Delivery(c, attempts);
            Outcome(c, attempts).Returned?
            <==> d.Some? && d.value < |attempts| && attempts[d.value].Stream? && !attempts[d.value].broken
    decreases |attempts|
  {
    hide FramesIn, Faithful, WellNumbered;
    if attempts != [] && !Fatal(attempts[0]) {
      ServedFrames(c, all, from, attempts[0]);
      var got := FramesIn(c, attempts[0]);
      LastExitIsExit(got);
      if LastExit(got).Some? {
        ExitComesLast(all, from, got);
        if !Final(c, attempts[0]) { NothingFollowsExit(c, all, attempts[1..]); }
        FramesComeInStreams(c, attempts[0]);
      } else {
        ReturnsExactlyOnCleanDelivery(c, all, from + |got|, attempts[1..]);
        DeliveryInRange(c, attempts[1..]);
      }
    }
  }

  lemma FramesComeInStreams(c: Codec, a: Attempt)
    ensures FramesIn(c, a) != [] ==> a.Stream?
  {
  }

  /** A one-frame job whose only connection breaks right after its exit frame: all of it was processed, and
      the execution still fails, whatever the other connections do. */
  lemma LostExit(c: Codec, rest: seq<Attempt>)
    requires Faithful(c)
    requires var all := [Frame(1, Exit(Completed))]; Plausible(c, all, 1, rest)
    ensures var all := [Frame(1, Exit(Completed))];
            var first := Stream([Wire(c, [Data(all[0])])], true);
            Plausible(c, all, 0, [first] + rest) && FramesIn(c, first) == all && Outcome(c, [first] + rest) == Threw
  {
    var all := [Frame(1, Exit(Completed))];
    var items := [Data(all[0])];
    var first := Stream([Wire(c, items)], true);
    assert items[1..] == [] && FramesOf(items) == all;
    assert Joined(first.chunks) == Wire(c, items) by { assert first.chunks[..0] == []; }
    PrefixOfWire(c, items, Wire(c, items));
    assert ([first] + rest)[1..] == rest;
    NothingFollowsExit(c, all, rest);
  }
}
