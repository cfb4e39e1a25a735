/** Framing on a mail connection: replies that may span lines and chunks (section 4.2 of RFC 5321), and
    message text whose lines must not look like the end of data (section 4.5.2 of RFC 5321). */
module Smtp {
  import opened Wrappers

  const CRLF: string := ['\r', '\n']

  // ---- lines ----

  predicate BreakAt(text: string, i: nat) { i + 1 < |text| && text[i] == '\r' && text[i + 1] == '\n' }

  /** The position of the first line break, or the length if there is none. */
  function FirstBreak(text: string): (i: nat)
    ensures i <= |text| && (i < |text| ==> BreakAt(text, i))
    ensures forall j | 0 <= j < i :: !BreakAt(text, j)
  {
    if text == [] || BreakAt(text, 0) then 0
    else
      assert forall j | 0 <= j < |text| - 1 :: BreakAt(text[1..], j) == BreakAt(text, j + 1);
      assert forall j | 1 <= j < |text| :: BreakAt(text, j) == BreakAt(text[1..], j - 1);
      1 + FirstBreak(text[1..])
  }

  /** Splitting at every line break; the last piece is what follows the last one. */
  function Split(text: string): (lines: seq<string>)
    ensures lines != []
    decreases |text|
  {
    var i := FirstBreak(text);
    if i == |text| then [text] else [text[..i]] + Split(text[i + 2..])
  }

  function Join(lines: seq<string>): string {
    if lines == [] then [] else if |lines| == 1 then lines[0] else lines[0] + CRLF + Join(lines[1..])
  }

  lemma CutAt(text: string, i: nat)
    requires BreakAt(text, i)
    ensures text == text[..i] + CRLF + text[i + 2..]
  {
    assert text[i..i + 2] == CRLF;
    assert text == text[..i] + text[i..i + 2] + text[i + 2..];
  }

  lemma AtFirstBreak(text: string)
    requires FirstBreak(text) < |text|
    ensures text == text[..FirstBreak(text)] + CRLF + text[FirstBreak(text) + 2..]
  {
    hide FirstBreak;
    CutAt(text, FirstBreak(text));
  }

  lemma JoinStep(line: string, lines: seq<string>)
    requires lines != []
    ensures Join([line] + lines) == line + CRLF + Join(lines)
  {
    assert ([line] + lines)[1..] == lines;
  }

  lemma {:induction false} JoinUndoesSplit(text: string)
    ensures Join(Split(text)) == text
    decreases |text|
  {
    var i := FirstBreak(text);
    if i < |text| {
      hide Join;
      AtFirstBreak(text);
      JoinUndoesSplit(text[i + 2..]);
      JoinStep(text[..i], Split(text[i + 2..]));
    }
  }

  // ---- replies ----

  datatype Reply = Reply(code: int, lines: seq<string>)

  predicate IsDigit(c: char) { '0' <= c <= '9' }

  /** Three digits and then a space or nothing: the last line of a reply. */
  predicate Terminal(line: string) {
    |line| >= 3 && IsDigit(line[0]) && IsDigit(line[1]) && IsDigit(line[2]) && (|line| == 3 || line[3] == ' ')
  }

  function Digit(c: char): int { c as int - '0' as int }

  function CodeOf(line: string): int
    requires |line| >= 3
  {
    100 * Digit(line[0]) + 10 * Digit(line[1]) + Digit(line[2])
  }

  /** The first complete reply in a text, and what follows it. */
  function TakeReply(text: string): (r: Option<(Reply, string)>)
    ensures r.Some? ==> |r.value.1| < |text|
    decreases |text|
  {
    var i := FirstBreak(text);
    if i == |text| then None
    else
      var line, rest := text[..i], text[i + 2..];
      if Terminal(line) then Some((Reply(CodeOf(line), [line]), rest))
      else match TakeReply(rest)
        case None => None
        case Some((reply, after)) => Some((Reply(reply.code, [line] + reply.lines), after))
  }

  function DigitChar(n: int): char
    requires 0 <= n <= 9
  {
    '0' + n as char
  }

  function ThreeDigits(n: int): string
    requires 0 <= n <= 999
  {
    [DigitChar(n / 100), DigitChar(n / 10 % 10), DigitChar(n % 10)]
  }

  /** A line that begins with a number of three digits is a last line exactly if nothing or a space follows,
      and then its code is that number. */
  lemma LastLineForm(n: int, tail: string)
    requires 0 <= n <= 999
    ensures CodeOf(ThreeDigits(n) + tail) == n
    ensures Terminal(ThreeDigits(n) + tail) <==> tail == "" || tail[0] == ' '
  {
    assert n == n / 100 * 100 + n / 10 % 10 * 10 + n % 10;
    assert tail != "" ==> (ThreeDigits(n) + tail)[3] == tail[0];
  }

  /** And no other line is one. */
  lemma LastLineBeginsWithCode(line: string)
    requires Terminal(line)
    ensures 0 <= CodeOf(line) <= 999 && line[..3] == ThreeDigits(CodeOf(line))
  {
    var a, b, c := Digit(line[0]), Digit(line[1]), Digit(line[2]);
    assert CodeOf(line) / 100 == a && CodeOf(line) / 10 == 10 * a + b && CodeOf(line) % 10 == c;
    assert DigitChar(a) == line[0] && DigitChar(b) == line[1] && DigitChar(c) == line[2];
  }

  /** Lines, each with its line break. */
  function Broken(lines: seq<string>): string {
    if lines == [] then "" else lines[0] + CRLF + Broken(lines[1..])
  }

  /** A reply is the lines up to the first one with three digits and a space, or nothing, behind them, and its
      code is that line's. Without such a line there is no reply yet. */
  ghost predicate IsReply(reply: Reply, rest: string, text: string) {
    && reply.lines != [] && text == Broken(reply.lines) + rest
    && (forall i | 0 <= i < |reply.lines| :: OneLine(reply.lines[i]))
    && (forall i | 0 <= i < |reply.lines| :: Terminal(reply.lines[i]) <==> i == |reply.lines| - 1)
    && reply.code == CodeOf(reply.lines[|reply.lines| - 1])
  }

  lemma {:induction false} RepliesEndOnTheirLastLine(text: string)
    ensures TakeReply(text).Some? ==> IsReply(TakeReply(text).value.0, TakeReply(text).value.1, text)
    ensures TakeReply(text).None? ==> forall line | line in Split(text)[..|Split(text)| - 1] :: !Terminal(line)
    decreases |text|
  {
    hide Terminal, CodeOf, FirstBreak, IsReply, OneLine;
    var i := FirstBreak(text);
    if i < |text| {
      var line, rest := text[..i], text[i + 2..];
      AtFirstBreak(text);
      FirstLineOf(text);
      RepliesEndOnTheirLastLine(rest);
      if Terminal(line) {
        ReplyOfOneLine(line, rest);
      } else if TakeReply(rest).Some? {
        ReplyGrows(line, TakeReply(rest).value.0, TakeReply(rest).value.1, rest);
      } else {
        assert Split(text)[..|Split(text)| - 1] == [line] + Split(rest)[..|Split(rest)| - 1];
      }
    }
  }

  lemma ReplyOfOneLine(line: string, rest: string)
    requires OneLine(line) && Terminal(line)
    ensures IsReply(Reply(CodeOf(line), [line]), rest, line + CRLF + rest)
  {
    hide Terminal, CodeOf, OneLine;
    assert Broken([line]) == line + CRLF + "" == line + CRLF;
  }

  lemma ReplyGrows(line: string, reply: Reply, after: string, rest: string)
    requires IsReply(reply, after, rest) && OneLine(line) && !Terminal(line)
    ensures IsReply(Reply(reply.code, [line] + reply.lines), after, line + CRLF + rest)
  {
    hide Terminal, CodeOf, OneLine;
    var lines := [line] + reply.lines;
    assert lines[1..] == reply.lines && forall i | 0 < i < |lines| :: lines[i] == reply.lines[i - 1];
    assert line + CRLF + (Broken(reply.lines) + after) == Broken(lines) + after;
  }

  ghost predicate OneLine(line: string) { forall j: nat | j < |line| :: !BreakAt(line, j) }

  /** All complete replies in a text, and the rest. */
  function Replies(text: string): (seq<Reply>, string)
    decreases |text|
  {
    match TakeReply(text)
    case None => ([], text)
    case Some((reply, rest)) => ([reply] + Replies(rest).0, Replies(rest).1)
  }

  lemma BreakStays(a: string, b: string)
    requires FirstBreak(a) < |a|
    ensures FirstBreak(a + b) == FirstBreak(a)
    ensures (a + b)[..FirstBreak(a)] == a[..FirstBreak(a)] && (a + b)[FirstBreak(a) + 2..] == a[FirstBreak(a) + 2..] + b
  {
    var i, j := FirstBreak(a), FirstBreak(a + b);
    assert BreakAt(a + b, i);
    assert forall k | 0 <= k < i :: BreakAt(a + b, k) ==> BreakAt(a, k);
  }

  /** A reply that is complete stays what it is when more arrives. */
  lemma {:induction false} CompleteReplyStays(a: string, b: string)
    requires TakeReply(a).Some?
    ensures TakeReply(a + b) == Some((TakeReply(a).value.0, TakeReply(a).value.1 + b))
    decreases |a|
  {
    hide FirstBreak, Terminal;
    BreakStays(a, b);
    var i := FirstBreak(a);
    if !Terminal(a[..i]) { CompleteReplyStays(a[i + 2..], b); }
  }

  lemma {:induction false} RepliesOfJoined(a: string, b: string)
    ensures Replies(a + b).0 == Replies(a).0 + Replies(Replies(a).1 + b).0
    ensures Replies(a + b).1 == Replies(Replies(a).1 + b).1
    decreases |a|
  {
    hide TakeReply;
    if TakeReply(a).Some? {
      CompleteReplyStays(a, b);
      RepliesOfJoined(TakeReply(a).value.1, b);
    }
  }

  function Joined(chunks: seq<string>): string {
    if chunks == [] then "" else Joined(chunks[..|chunks| - 1]) + chunks[|chunks| - 1]
  }

  /** The replies taken out chunk by chunk, as each arrives, and what is left in the buffer. */
  function Fed(chunks: seq<string>): (seq<Reply>, string) {
    if chunks == [] then ([], "")
    else
      var (before, buffer) := Fed(chunks[..|chunks| - 1]);
      var (more, rest) := Replies(buffer + chunks[|chunks| - 1]);
      (before + more, rest)
  }

  /** The replies are the same for every way of cutting the stream into chunks, be it inside a line break
      or between the lines of one reply: they are those of the whole text. */
  lemma {:induction false} ChunkingDoesNotMatter(chunks: seq<string>)
    ensures Fed(chunks) == Replies(Joined(chunks))
  {
    hide Replies;
    if chunks == [] {
      RepliesStep("");
    } else {
      ChunkingDoesNotMatter(chunks[..|chunks| - 1]);
      RepliesOfJoined(Joined(chunks[..|chunks| - 1]), chunks[|chunks| - 1]);
    }
  }

  /** A conversation: what was received, the replies nobody has asked for yet, and the readers still
      waiting. `taken` are the replies handed out, in the order the readers asked. */
  class Channel {
    var buffer: string
    var ready: seq<Reply>
    var waiting: nat
    var taken: seq<Reply>
    ghost var received: string

    /** At every moment the replies are those of everything received so far, however it was cut into
        chunks; nobody waits while a reply is ready. */
    ghost predicate Valid()
      reads this
    {
      && taken + ready == Replies(received).0 && buffer == Replies(received).1
      && (waiting > 0 ==> ready == [])
    }

    constructor ()
      ensures Valid() && received == "" && taken == [] && waiting == 0
    {
      buffer, ready, waiting, taken, received := "", [], 0, [], "";
    }

    /** Cuts one complete reply off the buffer. */
    method Take() returns (reply: Option<Reply>)
      modifies this`buffer
      ensures match TakeReply(old(buffer))
              case None => reply == None && buffer == old(buffer)
              case Some((r, rest)) => reply == Some(r) && buffer == rest
    {
      hide TakeReply, Split, Join, FirstBreak;
      var lines := Split(buffer);
      ghost var text := buffer;
      JoinUndoesSplit(buffer);
      PrefixedByNothing(TakeReply(buffer));
      assert lines[0..] == lines && lines[..0] == [];
      for i := 0 to |lines| - 1
        invariant text == Join(lines[i..]) && Split(text) == lines[i..] && buffer == old(buffer)
        invariant TakeReply(old(buffer)) == Prefixed(lines[..i], TakeReply(text))
      {
        SplitStep(text);
        assert lines[i..][1..] == lines[i + 1..] && lines[i..][0] == lines[i];
        assert lines[..i + 1] == lines[..i] + [lines[i]];
        ghost var rest := text[|lines[i]| + 2..];
        if Terminal(lines[i]) {
          reply := Some(Reply(CodeOf(lines[i]), lines[..i + 1]));
          buffer := Join(lines[i + 1..]);
          return;
        }
        PrefixedOnce(lines[..i], lines[i], TakeReply(rest));
        text := rest;
      }
      SplitStep(text);
      reply := None;
    }

    /** New text may complete any number of replies; each goes to the reader who has waited longest. */
    method OnData(chunk: string)
      requires Valid()
      modifies this
      ensures Valid() && received == old(received) + chunk
      ensures old(taken) <= taken && waiting + |taken| == old(waiting) + |old(taken)|
    {
      hide Replies, TakeReply;
      buffer := buffer + chunk;
      received := received + chunk;
      RepliesOfJoined(old(received), chunk);
      ghost var all := Replies(received);
      while true
        invariant taken + ready + Replies(buffer).0 == all.0 && Replies(buffer).1 == all.1
                  && received == old(received) + chunk
        invariant waiting > 0 ==> ready == []
        invariant old(taken) <= taken && waiting + |taken| == old(waiting) + |old(taken)|
        decreases |buffer|
      {
        RepliesStep(buffer);
        ghost var before := buffer;
        var reply := Take();
        if reply.None? { return; }
        assert taken + ready + Replies(before).0 == taken + ready + [reply.value] + Replies(buffer).0;
        if waiting > 0 { waiting, taken := waiting - 1, taken + [reply.value]; }
        else { ready := ready + [reply.value]; }
      }
    }

    /** A reader gets the oldest reply, or waits its turn. */
    method Read() returns (reply: Option<Reply>)
      requires Valid()
      modifies this
      ensures Valid() && received == old(received)
      ensures if old(ready) != []
              then reply == Some(old(ready)[0]) && taken == old(taken) + [old(ready)[0]] && waiting == old(waiting)
              else reply == None && taken == old(taken) && waiting == old(waiting) + 1
    {
      if ready != [] {
        reply := Some(ready[0]);
        taken, ready := taken + [ready[0]], ready[1..];
      } else {
        reply, waiting := None, waiting + 1;
      }
    }
  }

  function Prefixed(lines: seq<string>, r: Option<(Reply, string)>): Option<(Reply, string)> {
    match r
    case None => None
    case Some((reply, rest)) => Some((Reply(reply.code, lines + reply.lines), rest))
  }

  lemma PrefixedOnce(lines: seq<string>, line: string, r: Option<(Reply, string)>)
    ensures Prefixed(lines, Prefixed([line], r)) == Prefixed(lines + [line], r)
  {
    if r.Some? { assert lines + ([line] + r.value.0.lines) == lines + [line] + r.value.0.lines; }
  }

  lemma PrefixedByNothing(r: Option<(Reply, string)>)
    ensures Prefixed([], r) == r
  {
    if r.Some? { assert [] + r.value.0.lines == r.value.0.lines; }
  }

  lemma RepliesStep(text: string)
    ensures match TakeReply(text)
            case None => Replies(text) == ([], text)
            case Some((reply, rest)) => |rest| < |text| && Replies(text) == ([reply] + Replies(rest).0, Replies(rest).1)
  {
    hide TakeReply;
  }

  /** Taking a reply looks at one line after the other. */
  lemma SplitStep(text: string)
    ensures |Split(text)| > 1 ==>
              var line := Split(text)[0];
              && |line| + 2 <= |text| && Split(text)[1..] == Split(text[|line| + 2..])
              && Join(Split(text)[1..]) == text[|line| + 2..]
              && TakeReply(text) == if Terminal(line) then Some((Reply(CodeOf(line), [line]), text[|line| + 2..]))
                                    else Prefixed([line], TakeReply(text[|line| + 2..]))
    ensures |Split(text)| == 1 ==> TakeReply(text) == None
  {
    hide Join, FirstBreak, Terminal;
    var i := FirstBreak(text);
    if i < |text| {
      JoinUndoesSplit(text[i + 2..]);
      assert ([text[..i]] + Split(text[i + 2..]))[1..] == Split(text[i + 2..]);
    }
  }

  // ---- dot-stuffing ----

  /** Every line break that a dot follows, with or without its carriage return, gets it back and a second
      dot. */
  function Stuff(text: string): string
    decreases |text|
  {
    if text == [] then []
    else if BreakAt(text, 0) && |text| > 2 && text[2] == '.' then CRLF + ".." + Stuff(text[3..])
    else if text[0] == '\n' && |text| > 1 && text[1] == '.' then CRLF + ".." + Stuff(text[2..])
    else [text[0]] + Stuff(text[1..])
  }

  function Undot(line: string): string { if line != "" && line[0] == '.' then line[1..] else line }

  function UndotAll(lines: seq<string>): seq<string> { seq(|lines|, i requires 0 <= i < |lines| => Undot(lines[i])) }

  /** The receiver: a leading dot of a line is taken away. */
  function Unstuff(text: string): string { Join(UndotAll(Split(text))) }

  /** No dot follows a line feed that has no carriage return. */
  predicate Canonical(text: string) {
    forall i | 0 <= i < |text| - 1 && text[i] == '\n' && text[i + 1] == '.' :: i > 0 && text[i - 1] == '\r'
  }

  predicate StartsWithDot(text: string) { text != "" && text[0] == '.' }

  function Dotted(lines: seq<string>): seq<string> {
    seq(|lines|, i requires 0 <= i < |lines| => if StartsWithDot(lines[i]) then "." + lines[i] else lines[i])
  }

  lemma TailKeepsShape(c: char, rest: string)
    requires Canonical([c] + rest) && !BreakAt([c] + rest, 0)
    ensures Canonical(rest)
    ensures forall j: nat | j < |rest| :: BreakAt(rest, j) == BreakAt([c] + rest, j + 1)
  {
    var text := [c] + rest;
    assert forall i | 0 <= i < |rest| :: rest[i] == text[i + 1];
  }

  lemma StuffChar(c: char, rest: string)
    requires Canonical([c] + rest) && !BreakAt([c] + rest, 0)
    ensures Stuff([c] + rest) == [c] + Stuff(rest)
  {
    assert ([c] + rest)[1..] == rest;
  }

  /** Within a line nothing is stuffed. */
  lemma {:induction false} StuffLine(line: string, tail: string)
    requires Canonical(line + tail)
    requires forall j: nat | j < |line| :: !BreakAt(line + tail, j)
    ensures Stuff(line + tail) == line + Stuff(tail)
    decreases |line|
  {
    hide Stuff, Canonical;
    if line == "" {
      assert line + tail == tail;
    } else {
      var c, rest := line[0], line[1..] + tail;
      assert line + tail == [c] + rest;
      TailKeepsShape(c, rest);
      StuffChar(c, rest);
      StuffLine(line[1..], tail);
      assert [c] + (line[1..] + Stuff(tail)) == line + Stuff(tail);
    }
  }

  lemma StuffBreak(rest: string)
    ensures Stuff(CRLF + rest) == CRLF + (if StartsWithDot(rest) then "." else "") + Stuff(rest)
  {
    var text := CRLF + rest;
    assert text[2..] == rest && text[1..] == ['\n'] + rest && (['\n'] + rest)[1..] == rest;
    if StartsWithDot(rest) {
      assert text[3..] == rest[1..];
      assert Stuff(rest) == ['.'] + Stuff(rest[1..]);
      assert CRLF + ".." + Stuff(rest[1..]) == CRLF + "." + (['.'] + Stuff(rest[1..]));
    } else {
      assert Stuff(['\n'] + rest) == ['\n'] + Stuff(rest);
      assert ['\r'] + (['\n'] + Stuff(rest)) == CRLF + "" + Stuff(rest);
    }
  }

  lemma SplitLine(line: string, rest: string)
    requires OneLine(line)
    ensures Split(line + CRLF + rest) == [line] + Split(rest)
    ensures Split(line) == [line]
  {
    var text := line + CRLF + rest;
    assert BreakAt(text, |line|);
    forall j: nat | j < |line| ensures !BreakAt(text, j) { assert !BreakAt(line, j); }
    assert FirstBreak(text) == |line|;
    assert text[..|line|] == line && text[|line| + 2..] == rest;
  }

  lemma SplitDot(text: string)
    ensures Split("." + text) == ["." + Split(text)[0]] + Split(text)[1..]
  {
    var dotted, i := "." + text, FirstBreak(text);
    assert dotted[1..] == text;
    assert FirstBreak(dotted) == i + 1;
    if i < |text| {
      assert dotted[..i + 1] == "." + text[..i] && dotted[i + 3..] == text[i + 2..];
    }
  }

  lemma FirstLineOf(text: string)
    ensures StartsWithDot(Split(text)[0]) <==> StartsWithDot(text)
    ensures FirstBreak(text) < |text| ==> OneLine(text[..FirstBreak(text)])
    ensures FirstBreak(text) == |text| ==> OneLine(text)
  {
    var i := FirstBreak(text);
    forall j: nat | j < i ensures !BreakAt(text[..i], j) { assert !BreakAt(text, j); }
  }

  lemma RestIsCanonical(text: string, i: nat)
    requires Canonical(text) && BreakAt(text, i)
    ensures Canonical(text[i + 2..])
  {
    var rest := text[i + 2..];
    forall j | 0 <= j < |rest| - 1 && rest[j] == '\n' && rest[j + 1] == '.' ensures j > 0 && rest[j - 1] == '\r' {
      assert text[j + i + 2] == '\n' && text[j + i + 3] == '.';
      assert text[j + i + 1] == '\r';
    }
  }

  lemma DottedHead(head: string, tail: seq<string>)
    ensures Dotted([head] + tail) == [if StartsWithDot(head) then "." + head else head] + Dotted(tail)
  {
  }

  lemma FirstLineDot(text: string)
    ensures StartsWithDot(Split(text)[0]) <==> StartsWithDot(text)
  {
    FirstLineOf(text);
  }

  /** The rest of a text behind a line break, its leading dot doubled. */
  lemma DottedRest(rest: string, stuffed: string)
    requires Split(stuffed) == [Split(rest)[0]] + Dotted(Split(rest)[1..])
    ensures Split((if StartsWithDot(rest) then "." else "") + stuffed) == Dotted(Split(rest))
  {
    hide Split, FirstBreak, Dotted, StartsWithDot;
    FirstLineDot(rest);
    var head, tail := Split(rest)[0], Split(rest)[1..];
    assert Split(rest) == [head] + tail;
    DottedHead(head, tail);
    assert Split(stuffed)[0] == head && Split(stuffed)[1..] == Dotted(tail);
    if StartsWithDot(rest) {
      SplitDot(stuffed);
    } else {
      assert "" + stuffed == stuffed;
    }
  }

  /** Line by line, stuffing doubles the leading dot of every line but the first. */
  lemma {:induction false} StuffingIsLinewise(text: string)
    requires Canonical(text)
    ensures Split(Stuff(text)) == [Split(text)[0]] + Dotted(Split(text)[1..])
    decreases |text|
  {
    hide Stuff, Canonical, FirstBreak, Split;
    var i := FirstBreak(text);
    FirstLineOf(text);
    if i == |text| {
      OneLineStuffed(text);
    } else {
      var line, rest := text[..i], text[i + 2..];
      AtFirstBreak(text);
      RestIsCanonical(text, i);
      StuffingIsLinewise(rest);
      DottedRest(rest, Stuff(rest));
      StuffedText(text, line, rest);
      SplitLine(line, rest);
      SplitLine(line, (if StartsWithDot(rest) then "." else "") + Stuff(rest));
      assert ([line] + Split(rest))[1..] == Split(rest);
    }
  }

  lemma OneLineStuffed(text: string)
    requires Canonical(text) && OneLine(text)
    ensures Split(Stuff(text)) == [Split(text)[0]] + Dotted(Split(text)[1..])
  {
    hide Stuff, Canonical;
    assert text + "" == text;
    StuffLine(text, "") by { WholeLine(text); }
    assert Stuff("") == "" by { StuffNothing(); }
    SplitLine(text, "");
    assert Split(text)[1..] == [];
  }

  lemma WholeLine(text: string)
    requires OneLine(text)
    ensures forall j: nat | j < |text| :: !BreakAt(text + "", j)
  {
    assert text + "" == text;
  }

  lemma StuffNothing()
    ensures Stuff("") == ""
  {
  }

  lemma StuffedText(text: string, line: string, rest: string)
    requires Canonical(text) && text == line + CRLF + rest && OneLine(line)
    ensures Stuff(text) == line + CRLF + ((if StartsWithDot(rest) then "." else "") + Stuff(rest))
  {
    hide Stuff, Canonical;
    assert text == line + (CRLF + rest);
    forall j: nat | j < |line| ensures !BreakAt(line + (CRLF + rest), j) { assert !BreakAt(line, j); }
    StuffLine(line, CRLF + rest);
    StuffBreak(rest);
    var dot := if StartsWithDot(rest) then "." else "";
    assert line + (CRLF + dot + Stuff(rest)) == line + CRLF + (dot + Stuff(rest));
  }

  // ---- dots behind bare line feeds ----

  /** The text with the carriage returns that stuffing puts in, and without the dots. */
  function Normal(text: string): string
    decreases |text|
  {
    if text == [] then []
    else if BreakAt(text, 0) && |text| > 2 && text[2] == '.' then CRLF + "." + Normal(text[3..])
    else if text[0] == '\n' && |text| > 1 && text[1] == '.' then CRLF + "." + Normal(text[2..])
    else [text[0]] + Normal(text[1..])
  }

  lemma NormalStart(text: string)
    ensures Normal(text) == "" <==> text == ""
    ensures StartsWithDot(Normal(text)) <==> StartsWithDot(text)
    ensures CRLF <= Normal(text) <==> CRLF <= text || "\n." <= text
    ensures !("\n." <= Normal(text))
  {
    var rest := if text == "" then "" else text[1..];
    assert Normal(rest) == "" <==> rest == "";
    assert rest != "" ==> (Normal(rest)[0] == '\n' ==> rest[0] == '\n') && (Normal(rest)[0] == '.' <==> rest[0] == '.');
  }

  lemma StuffDotted(rest: string)
    ensures Stuff(CRLF + "." + rest) == CRLF + ".." + Stuff(rest)
  {
    assert (CRLF + "." + rest)[3..] == rest;
  }

  lemma StuffPlain(c: char, rest: string)
    requires !(CRLF + "." <= [c] + rest) && !("\n." <= [c] + rest)
    ensures Stuff([c] + rest) == [c] + Stuff(rest)
  {
    assert ([c] + rest)[1..] == rest;
  }

  /** Stuffing a text is stuffing its normal form. */
  lemma {:induction false} StuffOfNormal(text: string)
    ensures Stuff(Normal(text)) == Stuff(text)
    decreases |text|
  {
    if text == "" {
    } else if CRLF + "." <= text {
      StuffOfNormal(text[3..]);
      StuffDotted(Normal(text[3..]));
    } else if "\n." <= text {
      StuffOfNormal(text[2..]);
      StuffDotted(Normal(text[2..]));
    } else {
      StuffOfNormal(text[1..]);
      NormalStart(text[1..]);
      StuffPlain(text[0], Normal(text[1..]));
    }
  }

  lemma {:induction false} NormalIsCanonical(text: string)
    ensures Canonical(Normal(text))
    decreases |text|
  {
    if text == "" {
    } else if CRLF + "." <= text {
      NormalIsCanonical(text[3..]);
    } else if "\n." <= text {
      NormalIsCanonical(text[2..]);
    } else {
      NormalIsCanonical(text[1..]);
      NormalStart(text[1..]);
    }
  }

  /** The normal form of a text is the text, or longer. */
  lemma {:induction false} CanonicalIsNormal(text: string)
    ensures Normal(text) == text || |Normal(text)| > |text|
    ensures Canonical(text) <==> Normal(text) == text
    decreases |text|
  {
    NormalIsCanonical(text);
    if text == "" {
    } else if CRLF + "." <= text {
      CanonicalIsNormal(text[3..]);
      assert Canonical(text) ==> Canonical(text[3..]) by { CanonicalTail(text, 3); }
    } else if "\n." <= text {
      CanonicalIsNormal(text[2..]);
    } else {
      CanonicalIsNormal(text[1..]);
      assert Canonical(text) ==> Canonical(text[1..]) by { CanonicalTail(text, 1); }
    }
  }

  lemma CanonicalTail(text: string, n: nat)
    requires 1 <= n <= |text| && (text[n - 1] == '\r' ==> !("\n." <= text[n..]))
    ensures Canonical(text) ==> Canonical(text[n..])
  {
    var tail := text[n..];
    if Canonical(text) {
      forall i | 0 <= i < |tail| - 1 && tail[i] == '\n' && tail[i + 1] == '.' ensures i > 0 && tail[i - 1] == '\r' {
        assert text[i + n] == '\n' && text[i + n + 1] == '.';
      }
    }
  }

  /** Inserting carriage returns never amounts to inserting a dot in front. */
  lemma {:induction false} NeverShifted(text: string)
    ensures Normal(text) != "." + text
    decreases |text|
  {
    NormalStart(text);
    if text == "" {
    } else if text[0] == '.' {
      NeverShifted(text[1..]);
      assert text == "." + text[1..] && Normal(text)[1..] == Normal(text[1..]) && ("." + text)[1..] == text;
    } else {
      assert ("." + text)[0] == '.';
    }
  }

  /** What the receiver makes of a stuffed text: its normal form, without a dot at the very beginning. */
  lemma Received(text: string)
    requires Canonical(text)
    ensures Unstuff(Stuff(text)) == if StartsWithDot(text) then text[1..] else text
  {
    hide Stuff, Canonical, Split, FirstBreak, Join;
    StuffingIsLinewise(text);
    FirstLineOf(text);
    JoinUndoesSplit(text);
    var lines := Split(text);
    assert UndotAll(Dotted(lines[1..])) == lines[1..];
    assert UndotAll(Split(Stuff(text))) == [Undot(lines[0])] + lines[1..];
    assert [lines[0]] + lines[1..] == lines;
    ShorterFirst(lines[0], lines[1..]);
  }

  lemma ShorterFirst(line: string, lines: seq<string>)
    ensures Join([Undot(line)] + lines)
            == if StartsWithDot(line) then Join([line] + lines)[1..] else Join([line] + lines)
  {
    assert ([Undot(line)] + lines)[1..] == lines && ([line] + lines)[1..] == lines;
  }

  /** The receiver gets back what was sent exactly if every line break in front of a dot is a proper one and
      the text does not begin with a dot: a bare line feed gains a carriage return there, and a dot at the
      very beginning, which nothing doubles, is lost. */
  lemma StuffingIsUndone(text: string)
    ensures Unstuff(Stuff(text)) == text <==> Canonical(text) && !StartsWithDot(text)
  {
    hide Stuff, Unstuff, Canonical, Normal;
    var normal := Normal(text);
    StuffOfNormal(text);
    NormalIsCanonical(text);
    CanonicalIsNormal(text);
    NormalStart(text);
    Received(normal);
    NeverShifted(text);
    assert StartsWithDot(normal) ==> normal == "." + normal[1..];
  }

  /** No line of a stuffed text is a single dot, the end-of-data mark, unless the first line was one. */
  lemma NoLineIsTheEndMark(text: string)
    ensures "." in Split(Stuff(text)) <==> text == "." || "." + CRLF <= text || ".\n." <= text
  {
    hide Stuff, Canonical, Split;
    var normal := Normal(text);
    StuffOfNormal(text);
    NormalIsCanonical(text);
    StuffingIsLinewise(normal);
    FirstLineOf(normal);
    var dotted := Dotted(Split(normal)[1..]);
    forall i | 0 <= i < |dotted| ensures dotted[i] != "." {}
    LoneDot(normal);
    LoneDotOfNormal(text);
  }

  lemma LoneDot(text: string)
    ensures Split(text)[0] == "." <==> text == "." || "." + CRLF <= text
  {
    assert "." + CRLF <= text ==> BreakAt(text, 1) && !BreakAt(text, 0);
  }

  lemma LoneDotOfNormal(text: string)
    ensures Normal(text) == "." || "." + CRLF <= Normal(text) <==> text == "." || "." + CRLF <= text || ".\n." <= text
  {
    NormalStart(text);
    if StartsWithDot(text) {
      var rest := text[1..];
      NormalStart(rest);
      assert text == "." + rest && Normal(text) == "." + Normal(rest);
    }
  }
}
