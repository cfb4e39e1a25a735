/** Streaming a message as it grows: the encoder sends the whole text once and then only what was appended;
    the client puts the pieces together again. */
module FrameEncoder {
  import opened Wrappers

  /** A piece of a text: all of it, to replace what is there, or an addition. */
  datatype Chunk = Whole(text: string) | Delta(text: string)

  datatype Kind = Thinking | Text

  /** A message event, with the joined thinking and text parts; other roles than the assistant's have none. */
  datatype Event = Message(assistant: bool, ended: bool, thinking: string, text: string)

  datatype Frame = Piece(kind: Kind, chunk: Chunk) | TextEnd

  // ---- encoder ----

  datatype Sent = Sent(thinking: string, text: string)

  function Part(e: Event, kind: Kind): string {
    if !e.assistant then "" else if kind.Thinking? then e.thinking else e.text
  }

  function NextChunk(sent: string, full: string): Option<Chunk> {
    if full == "" || full == sent then None
    else if sent == "" || !(sent <= full) then Some(Whole(full))
    else Some(Delta(full[|sent|..]))
  }

  function SentAfter(sent: string, full: string): string { if full == "" then sent else full }

  function Pieces(kind: Kind, chunk: Option<Chunk>): seq<Frame> {
    if chunk.Some? then [Piece(kind, chunk.value)] else []
  }

  function Encode(s: Sent, e: Event): (Sent, seq<Frame>) {
    var frames := Pieces(Thinking, NextChunk(s.thinking, Part(e, Thinking)))
      + Pieces(Text, NextChunk(s.text, Part(e, Text)));
    if e.ended && e.assistant then (Sent("", ""), frames + [TextEnd])
    else (Sent(SentAfter(s.thinking, Part(e, Thinking)), SentAfter(s.text, Part(e, Text))), frames)
  }

  class Chunker {
    var sent: string

    constructor () ensures sent == "" { sent := ""; }

    method Next(full: string) returns (chunk: Option<Chunk>)
      modifies this
      ensures chunk == NextChunk(old(sent), full) && sent == SentAfter(old(sent), full)
    {
      if full == "" || full == sent { return None; }
      if sent == "" || !(sent <= full) {
        sent := full;
        return Some(Whole(full));
      }
      var delta := full[|sent|..];
      sent := full;
      chunk := Some(Delta(delta));
    }

    method Reset()
      modifies this
      ensures sent == ""
    {
      sent := "";
    }
  }

  class Encoder {
    const thinking: Chunker
    const text: Chunker

    constructor ()
      ensures fresh(thinking) && fresh(text) && thinking != text && State() == Sent("", "")
    {
      thinking := new Chunker();
      text := new Chunker();
    }

    ghost function State(): Sent
      reads thinking, text
    {
      Sent(thinking.sent, text.sent)
    }

    method ToClientFrames(e: Event) returns (frames: seq<Frame>)
      requires thinking != text
      modifies thinking, text
      ensures (State(), frames) == Encode(old(State()), e)
    {
      var thinkingFrame := thinking.Next(Part(e, Thinking));
      frames := if thinkingFrame.Some? then [Piece(Thinking, thinkingFrame.value)] else [];
      var textFrame := text.Next(Part(e, Text));
      if textFrame.Some? { frames := frames + [Piece(Text, textFrame.value)]; }
      assert frames == Pieces(Thinking, thinkingFrame) + Pieces(Text, textFrame);
      if e.ended && e.assistant {
        frames := frames + [TextEnd];
        text.Reset();
        thinking.Reset();
      }
    }
  }

  // ---- client ----

  datatype Block = Block(kind: Kind, text: string)

  /** The blocks of a turn, and which of them are open. */
  datatype View = View(blocks: seq<Block>, thinking: Option<nat>, text: Option<nat>)

  function Open(v: View, kind: Kind): Option<nat> { if kind.Thinking? then v.thinking else v.text }

  predicate InRange(v: View) {
    && (v.thinking.Some? ==> v.thinking.value < |v.blocks|)
    && (v.text.Some? ==> v.text.value < |v.blocks|)
    && (v.thinking.Some? && v.text.Some? ==> v.thinking.value != v.text.value)
  }

  /** Opens a block of this kind at the end if none is open. */
  function Opened(v: View, kind: Kind): View {
    if Open(v, kind).Some? then v
    else if kind.Thinking? then View(v.blocks + [Block(Thinking, "")], Some(|v.blocks|), v.text)
    else View(v.blocks + [Block(Text, "")], v.thinking, Some(|v.blocks|))
  }

  function SetText(v: View, kind: Kind, text: string): View {
    if Open(v, kind).Some? && Open(v, kind).value < |v.blocks|
    then v.(blocks := v.blocks[Open(v, kind).value := Block(kind, text)]) else v
  }

  function TextOf(v: View, kind: Kind): string {
    if Open(v, kind).Some? && Open(v, kind).value < |v.blocks| then v.blocks[Open(v, kind).value].text else ""
  }

  function Handle(v: View, f: Frame): View {
    match f
    case Piece(kind, Whole(text)) => SetText(Opened(v, kind), kind, text)
    case Piece(kind, Delta(text)) => SetText(Opened(v, kind), kind, TextOf(Opened(v, kind), kind) + text)
    case TextEnd => v.(thinking := None, text := None)
  }

  function HandleAll(v: View, frames: seq<Frame>): View {
    if frames == [] then v else Handle(HandleAll(v, frames[..|frames| - 1]), frames[|frames| - 1])
  }

  class LiveTurn {
    var blocks: seq<Block>
    var openThinking: Option<nat>
    var openText: Option<nat>

    constructor () ensures State() == View([], None, None) { blocks, openThinking, openText := [], None, None; }

    function State(): View
      reads this
    {
      View(blocks, openThinking, openText)
    }

    method HandleFrame(f: Frame)
      requires InRange(State())
      modifies this
      ensures State() == Handle(old(State()), f) && InRange(State())
    {
      match f
      case Piece(kind, chunk) =>
        if kind.Thinking? && openThinking.None? {
          blocks, openThinking := blocks + [Block(kind, "")], Some(|blocks|);
        }
        if kind.Text? && openText.None? {
          blocks, openText := blocks + [Block(kind, "")], Some(|blocks|);
        }
        var at := if kind.Thinking? then openThinking.value else openText.value;
        var text := if chunk.Whole? then chunk.text else blocks[at].text + chunk.text;
        blocks := blocks[at := Block(kind, text)];
      case TextEnd =>
        openThinking, openText := None, None;
    }
  }

  // ---- the plain form: every event carries the whole text ----

  /** Shows a text as it stands; an empty one changes nothing. */
  function Show(v: View, kind: Kind, full: string): View {
    if full == "" then v else SetText(Opened(v, kind), kind, full)
  }

  function ShowEvent(v: View, e: Event): View {
    var shown := Show(Show(v, Thinking, Part(e, Thinking)), Text, Part(e, Text));
    if e.ended && e.assistant then shown.(thinking := None, text := None) else shown
  }

  function ShowAll(events: seq<Event>): View {
    if events == [] then View([], None, None) else ShowEvent(ShowAll(events[..|events| - 1]), events[|events| - 1])
  }

  function EncodeAll(events: seq<Event>): (Sent, seq<Frame>) {
    if events == [] then (Sent("", ""), [])
    else
      var (s, before) := EncodeAll(events[..|events| - 1]);
      var (s', frames) := Encode(s, events[|events| - 1]);
      (s', before + frames)
  }

  /** What the encoder has sent is what the client's open block holds. */
  predicate InStep(v: View, s: Sent, kind: Kind) {
    var sent := if kind.Thinking? then s.thinking else s.text;
    (Open(v, kind).Some? <==> sent != "")
    && (sent != "" ==> Open(v, kind).value < |v.blocks| && v.blocks[Open(v, kind).value] == Block(kind, sent))
  }

  predicate Synced(v: View, s: Sent) { InRange(v) && InStep(v, s, Thinking) && InStep(v, s, Text) }

  lemma {:induction false} HandleSplits(v: View, a: seq<Frame>, b: seq<Frame>)
    ensures HandleAll(v, a + b) == HandleAll(HandleAll(v, a), b)
    decreases |b|
  {
    if b == [] {
      assert a + b == a;
    } else {
      assert (a + b)[..|a + b| - 1] == a + b[..|b| - 1];
      HandleSplits(v, a, b[..|b| - 1]);
    }
  }

  /** One chunk does to the client what the whole text would. */
  lemma ChunkShowsText(v: View, s: Sent, kind: Kind, full: string)
    requires Synced(v, s)
    ensures var sent := if kind.Thinking? then s.thinking else s.text;
            var after := if kind.Thinking? then s.(thinking := SentAfter(sent, full))
              else s.(text := SentAfter(sent, full));
            HandleAll(v, Pieces(kind, NextChunk(sent, full))) == Show(v, kind, full)
              && Synced(Show(v, kind, full), after)
  {
    hide Encode, EncodeAll, ShowAll;
    var sent := if kind.Thinking? then s.thinking else s.text;
    var chunk := NextChunk(sent, full);
    if chunk.Some? {
      var f := Piece(kind, chunk.value);
      assert [f][..0] == [];
      assert HandleAll(v, [f]) == Handle(v, f);
      if chunk.value.Delta? { assert sent + full[|sent|..] == full; }
    } else if full != "" {
      assert v.blocks[Open(v, kind).value := Block(kind, full)] == v.blocks;
    }
  }

  /** Whatever the texts do, growing or rewritten, a client fed with the frames always shows what a client
      fed with the whole texts would: in every open block the latest non-empty text, in every sealed one the
      final text. */
  lemma {:induction false} EncodingUndoesItself(events: seq<Event>)
    ensures var (s, frames) := EncodeAll(events);
            HandleAll(View([], None, None), frames) == ShowAll(events) && Synced(ShowAll(events), s)
    decreases |events|
  {
    if events == [] {
    } else {
      var init, e := events[..|events| - 1], events[|events| - 1];
      EncodingUndoesItself(init);
      var (s, before) := EncodeAll(init);
      EventShown(ShowAll(init), s, e);
      HandleSplits(View([], None, None), before, Encode(s, e).1);
    }
  }

  lemma EventShown(v: View, s: Sent, e: Event)
    requires Synced(v, s)
    ensures HandleAll(v, Encode(s, e).1) == ShowEvent(v, e) && Synced(ShowEvent(v, e), Encode(s, e).0)
  {
    hide NextChunk, Show, InStep, InRange, HandleAll;
    var a := Pieces(Thinking, NextChunk(s.thinking, Part(e, Thinking)));
    var b := Pieces(Text, NextChunk(s.text, Part(e, Text)));
    ChunkShowsText(v, s, Thinking, Part(e, Thinking));
    var v1, s1 := Show(v, Thinking, Part(e, Thinking)), s.(thinking := SentAfter(s.thinking, Part(e, Thinking)));
    ChunkShowsText(v1, s1, Text, Part(e, Text));
    HandleSplits(v, a, b);
    if e.ended && e.assistant {
      HandleSplits(v, a + b, [TextEnd]);
      Sealed(HandleAll(v, a + b));
    }
  }

  lemma Sealed(v: View)
    ensures HandleAll(v, [TextEnd]) == v.(thinking := None, text := None)
    ensures Synced(v.(thinking := None, text := None), Sent("", ""))
  {
    assert [TextEnd][..0] == [];
  }

  /** The latest non-empty text since the last assistant message ended. */
  function Latest(events: seq<Event>, kind: Kind): string {
    if events == [] then ""
    else
      var e := events[|events| - 1];
      if e.ended && e.assistant then "" else Final(Latest(events[..|events| - 1], kind), e, kind)
  }

  /** The text that an event leaves: its own, if it is the assistant's and not empty. */
  function Final(before: string, e: Event, kind: Kind): string {
    match (e.assistant, kind)
    case (true, Thinking) => if e.thinking != "" then e.thinking else before
    case (true, Text) => if e.text != "" then e.text else before
    case (false, _) => before
  }

  lemma {:induction false} SentIsLatest(events: seq<Event>)
    ensures EncodeAll(events).0 == Sent(Latest(events, Thinking), Latest(events, Text))
  {
    if events == [] {
    } else {
      SentIsLatest(events[..|events| - 1]);
    }
  }

  /** What the client's open block of a kind shows is the latest text; there is one exactly if that is not
      empty. */
  lemma OpenBlockIsLatest(events: seq<Event>, kind: Kind)
    ensures var v := HandleAll(View([], None, None), EncodeAll(events).1);
            (Open(v, kind).Some? <==> Latest(events, kind) != "") && TextOf(v, kind) == Latest(events, kind)
  {
    hide HandleAll, EncodeAll, Latest, ShowAll;
    EncodingUndoesItself(events);
    SentIsLatest(events);
  }

  /** A block that is not open stays as it is. */
  lemma {:induction false} SealedStays(v: View, frames: seq<Frame>, i: nat)
    requires i < |v.blocks| && v.thinking != Some(i) && v.text != Some(i) && InRange(v)
    ensures var w := HandleAll(v, frames);
            i < |w.blocks| && w.blocks[i] == v.blocks[i] && w.thinking != Some(i) && w.text != Some(i) && InRange(w)
  {
    hide Handle, InRange;
    if frames == [] {
    } else {
      SealedStays(v, frames[..|frames| - 1], i);
      SealedStaysOnce(HandleAll(v, frames[..|frames| - 1]), frames[|frames| - 1], i);
    }
  }

  lemma SealedStaysOnce(v: View, f: Frame, i: nat)
    requires i < |v.blocks| && v.thinking != Some(i) && v.text != Some(i) && InRange(v)
    ensures var w := Handle(v, f);
            i < |w.blocks| && w.blocks[i] == v.blocks[i] && w.thinking != Some(i) && w.text != Some(i) && InRange(w)
  {
  }

  /** When the assistant's message ends, its texts are sealed. */
  lemma EndedIsSealed(before: seq<Event>, e: Event, kind: Kind) returns (i: nat)
    requires e.assistant && e.ended && Final(Latest(before, kind), e, kind) != ""
    ensures var v := ShowAll(before + [e]);
            && i < |v.blocks| && v.blocks[i] == Block(kind, Final(Latest(before, kind), e, kind))
            && v.thinking.None? && v.text.None?
  {
    hide EncodeAll, Show;
    assert (before + [e])[..|before|] == before;
    EncodingUndoesItself(before);
    SentIsLatest(before);
    var v, s := ShowAll(before), EncodeAll(before).0;
    ChunkShowsText(v, s, Thinking, Part(e, Thinking));
    var v1, s1 := Show(v, Thinking, Part(e, Thinking)), s.(thinking := SentAfter(s.thinking, Part(e, Thinking)));
    ChunkShowsText(v1, s1, Text, Part(e, Text));
    var v2 := Show(v1, Text, Part(e, Text));
    i := Open(v2, kind).value;
  }

  /** What the assistant has finished saying stays in view: its final texts, of both kinds, as blocks of their own
      kind, whatever comes later. */
  lemma FinishedTextStays(before: seq<Event>, e: Event, after: seq<Event>, kind: Kind)
    requires e.assistant && e.ended && Final(Latest(before, kind), e, kind) != ""
    ensures Block(kind, Final(Latest(before, kind), e, kind))
            in HandleAll(View([], None, None), EncodeAll(before + [e] + after).1).blocks
    decreases |after|
  {
    hide Handle, ShowEvent, Encode, Latest, Final;
    var i := EndedIsSealed(before, e, kind);
    EncodingUndoesItself(before + [e]);
    LaterFrames(before + [e], after);
    var early, all := EncodeAll(before + [e]).1, EncodeAll(before + [e] + after).1;
    assert all == early + all[|early|..];
    HandleSplits(View([], None, None), early, all[|early|..]);
    SealedStays(ShowAll(before + [e]), all[|early|..], i);
  }

  lemma {:induction false} LaterFrames(before: seq<Event>, after: seq<Event>)
    ensures EncodeAll(before).1 <= EncodeAll(before + after).1
    decreases |after|
  {
    hide Encode;
    if after == [] {
      assert before + after == before;
    } else {
      assert (before + after)[..|before + after| - 1] == before + after[..|after| - 1];
      LaterFrames(before, after[..|after| - 1]);
    }
  }

  // ---- cost ----

  /** Something is sent exactly when a text is there and is not what was sent last, and never an empty piece. */
  lemma OnlyNewsIsSent(sent: string, full: string)
    ensures NextChunk(sent, full).Some? <==> full != "" && full != sent
    ensures NextChunk(sent, full).Some? ==> NextChunk(sent, full).value.text != ""
    ensures sent != "" && sent < full ==> NextChunk(sent, full) == Some(Delta(full[|sent|..]))
  {
  }

  function Payload(chunk: Option<Chunk>): nat { if chunk.Some? then |chunk.value.text| else 0 }

  function SentBy(texts: seq<string>): string {
    if texts == [] then "" else SentAfter(SentBy(texts[..|texts| - 1]), texts[|texts| - 1])
  }

  /** Everything sent for one message whose text takes these values. */
  function TotalPayload(texts: seq<string>): nat {
    if texts == [] then 0
    else TotalPayload(texts[..|texts| - 1]) + Payload(NextChunk(SentBy(texts[..|texts| - 1]), texts[|texts| - 1]))
  }

  ghost predicate Growing(texts: seq<string>) { forall i, j | 0 <= i <= j < |texts| :: texts[i] <= texts[j] }

  /** A text that only grows costs its final length, however many updates it came in. */
  lemma {:induction false} PayloadIsFinalLength(texts: seq<string>)
    requires Growing(texts)
    ensures SentBy(texts) == (if texts == [] then "" else texts[|texts| - 1])
    ensures TotalPayload(texts) == |SentBy(texts)|
  {
    if texts == [] {
    } else {
      var init := texts[..|texts| - 1];
      PayloadIsFinalLength(init);
      assert init != [] ==> texts[|init| - 1] <= texts[|init|];
    }
  }
}
