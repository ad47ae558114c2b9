/** The client's reading of the upstream events the server relays: the `message` listener
    of `sendMessage` (ui/src/lib/chat.svelte.ts, and the same listener in
    web/src/lib/chat.svelte.ts) as a function from the chat's view and one parsed event to
    the next view. `JSON.parse` is not modelled: the listener receives its outcome, `None`
    when it threw. */
module StreamReducer {
  import opened Wrappers

  const USER: string := "user"
  const ASSISTANT: string := "assistant"
  const TEXT: string := "text"

  const MESSAGE_START: string := "message_start"
  const CONTENT_BLOCK_START: string := "content_block_start"
  const CONTENT_BLOCK_DELTA: string := "content_block_delta"
  const MESSAGE_STOP: string := "message_stop"

  /** One entry of the chat: who said it and what. */
  datatype ChatMessage = ChatMessage(role: string, content: string)

  /** A content block of the assistant's answer; only its type is looked at. */
  datatype ContentBlock = ContentBlock(blockType: string, text: string)

  /** A parsed upstream event: its type and the optional parts the listener tests for. The
      `message` part is only tested for presence. */
  datatype StreamEvent = StreamEvent(
    eventType: string,
    hasMessage: bool,
    contentBlock: Option<ContentBlock>,
    delta: Option<string>)

  /** What the listener can see and change: the store's messages and the content block the
      stream is in, if any. */
  datatype View = View(messages: seq<ChatMessage>, current: Option<ContentBlock>)

  /** `b` is `a` after appends and after text was added at the end of existing messages:
      no message is removed, and each keeps its role and the start of its content. */
  ghost predicate Extends(a: seq<ChatMessage>, b: seq<ChatMessage>)
  {
    && |a| <= |b|
    && forall i | 0 <= i < |a| :: b[i].role == a[i].role && a[i].content <= b[i].content
  }

  lemma ExtendsTransitive(a: seq<ChatMessage>, b: seq<ChatMessage>, c: seq<ChatMessage>)
    requires Extends(a, b) && Extends(b, c)
    ensures Extends(a, c)
  {
    forall i | 0 <= i < |a|
      ensures c[i].role == a[i].role && a[i].content <= c[i].content
    {
      assert a[i].content <= b[i].content <= c[i].content;
    }
  }

  /** A delta the listener applies: a `content_block_delta` carrying text while the stream
      is in a text block. */
  predicate AppliesDelta(v: View, e: StreamEvent)
  {
    && e.eventType == CONTENT_BLOCK_DELTA && v.current.Some? && e.delta.Some?
    && v.current.value.blockType == TEXT
  }

  /** The messages with `text` added at the end of the last one. */
  function AppendToLast(messages: seq<ChatMessage>, text: string): seq<ChatMessage>
    requires messages != []
  {
    var n := |messages| - 1;
    messages[n := messages[n].(content := messages[n].content + text)]
  }

  lemma AppendToLastTwice(messages: seq<ChatMessage>, a: string, b: string)
    requires messages != []
    ensures AppendToLast(AppendToLast(messages, a), b) == AppendToLast(messages, a + b)
  {
    var n := |messages| - 1;
    assert messages[n].content + a + b == messages[n].content + (a + b);
  }

  /** The listener's effect on the view for one event. `message_start` with a message adds
      an empty assistant message; `content_block_start` with a block makes it current; a
      text delta in a text block extends the last message (with no message at all, the
      indexing throws and the handler's `catch` leaves everything as it was);
      `message_stop` leaves the block. A parse failure, an unknown type or a missing part
      changes nothing. */
  function Step(v: View, parsed: Option<StreamEvent>): (r: View)
    ensures Extends(v.messages, r.messages)
    ensures |r.messages| <= |v.messages| + 1
    ensures forall i | 0 <= i < |v.messages| - 1 :: r.messages[i] == v.messages[i]
  {
    match parsed
    case None => v
    case Some(e) =>
      if e.eventType == MESSAGE_START && e.hasMessage then
        v.(messages := v.messages + [ChatMessage(ASSISTANT, "")])
      else if e.eventType == CONTENT_BLOCK_START && e.contentBlock.Some? then
        v.(current := e.contentBlock)
      else if e.eventType == CONTENT_BLOCK_DELTA && v.current.Some? && e.delta.Some? then
        if v.current.value.blockType == TEXT && v.messages != [] then
          v.(messages := AppendToLast(v.messages, e.delta.value))
        else v
      else if e.eventType == MESSAGE_STOP then
        v.(current := None)
      else v
  }

  /** The view after the listener has seen `events` in order. */
  function Run(v: View, events: seq<Option<StreamEvent>>): View
    decreases |events|
  {
    if events == [] then v else Run(Step(v, events[0]), events[1..])
  }

  lemma {:induction false} RunAppend(v: View, a: seq<Option<StreamEvent>>, b: seq<Option<StreamEvent>>)
    ensures Run(v, a + b) == Run(Run(v, a), b)
    decreases |a|
  {
    if a == [] {
      assert a + b == b;
    } else {
      assert (a + b)[1..] == a[1..] + b;
      RunAppend(Step(v, a[0]), a[1..], b);
    }
  }

  /** The messages only grow, whatever the events: none is removed, none changes role, and
      text is only ever added at the end of one. */
  lemma {:induction false} RunExtends(v: View, events: seq<Option<StreamEvent>>)
    ensures Extends(v.messages, Run(v, events).messages)
    decreases |events|
  {
    if events != [] {
      var v1 := Step(v, events[0]);
      RunExtends(v1, events[1..]);
      ExtendsTransitive(v.messages, v1.messages, Run(v, events).messages);
    }
  }

  /** Data that does not parse changes nothing: the listener's `catch` only logs. */
  lemma ParseFailureIgnored(v: View)
    ensures Step(v, None) == v
  {
  }

  /** `message_start` adds one empty assistant message when the event carries a message,
      and changes nothing when it does not. */
  lemma MessageStartAppends(v: View, e: StreamEvent)
    requires e.eventType == MESSAGE_START
    ensures Step(v, Some(e))
            == if e.hasMessage then v.(messages := v.messages + [ChatMessage(ASSISTANT, "")]) else v
  {
  }

  /** `content_block_start` makes its block the current one and leaves the messages alone;
      without a block it changes nothing. */
  lemma BlockStartSets(v: View, e: StreamEvent)
    requires e.eventType == CONTENT_BLOCK_START
    ensures Step(v, Some(e)) == if e.contentBlock.Some? then v.(current := e.contentBlock) else v
  {
  }

  /** `message_stop` leaves the current block and changes no message. */
  lemma MessageStopCloses(v: View, e: StreamEvent)
    requires e.eventType == MESSAGE_STOP
    ensures Step(v, Some(e)) == v.(current := None)
  {
  }

  /** A text delta in a text block extends the last message by the delta's text and leaves
      every other message, the number of messages and the current block as they were. */
  lemma DeltaAppends(v: View, e: StreamEvent)
    requires AppliesDelta(v, e) && v.messages != []
    ensures var r := Step(v, Some(e));
      && |r.messages| == |v.messages|
      && r.messages[..|v.messages| - 1] == v.messages[..|v.messages| - 1]
      && r.messages[|v.messages| - 1]
         == v.messages[|v.messages| - 1].(content := v.messages[|v.messages| - 1].content + e.delta.value)
      && r.current == v.current
  {
  }

  /** A delta outside a text block, or without text, changes nothing. */
  lemma DeltaIgnored(v: View, e: StreamEvent)
    requires e.eventType == CONTENT_BLOCK_DELTA && !AppliesDelta(v, e)
    ensures Step(v, Some(e)) == v
  {
  }

  /** Events the listener does not recognise change nothing. */
  lemma OtherIgnored(v: View, e: StreamEvent)
    requires e.eventType !in {MESSAGE_START, CONTENT_BLOCK_START, CONTENT_BLOCK_DELTA, MESSAGE_STOP}
    ensures Step(v, Some(e)) == v
  {
  }

  /** An event that opens a content block. */
  predicate OpensBlock(parsed: Option<StreamEvent>)
  {
    parsed.Some? && parsed.value.eventType == CONTENT_BLOCK_START && parsed.value.contentBlock.Some?
  }

  /** Outside a content block, until the next `content_block_start` opens one, no text
      reaches any message: the only change is new, empty assistant messages. */
  lemma {:induction false} NoBlockNoText(v: View, events: seq<Option<StreamEvent>>)
    requires v.current.None?
    requires forall k | 0 <= k < |events| :: !OpensBlock(events[k])
    ensures var r := Run(v, events);
      && r.current.None?
      && |v.messages| <= |r.messages|
      && r.messages[..|v.messages|] == v.messages
      && forall i | |v.messages| <= i < |r.messages| :: r.messages[i] == ChatMessage(ASSISTANT, "")
    decreases |events|
  {
    if events != [] {
      var v1 := Step(v, events[0]);
      assert !OpensBlock(events[0]);
      assert v1.current.None?;
      assert v1.messages[..|v.messages|] == v.messages;
      assert forall i | |v.messages| <= i < |v1.messages| :: v1.messages[i] == ChatMessage(ASSISTANT, "");
      NoBlockNoText(v1, events[1..]);
    }
  }

  /** After `message_stop`, deltas are ignored until a `content_block_start`. */
  lemma IgnoredAfterStop(v: View, stop: StreamEvent, events: seq<Option<StreamEvent>>)
    requires stop.eventType == MESSAGE_STOP
    requires forall k | 0 <= k < |events| :: !OpensBlock(events[k])
    ensures var r := Run(v, [Some(stop)] + events);
      && |v.messages| <= |r.messages|
      && r.messages[..|v.messages|] == v.messages
      && forall i | |v.messages| <= i < |r.messages| :: r.messages[i] == ChatMessage(ASSISTANT, "")
  {
    var v1 := Step(v, Some(stop));
    assert v1 == v.(current := None);
    assert ([Some(stop)] + events)[1..] == events;
    NoBlockNoText(v1, events);
  }

  // A whole assistant turn.

  /** The text of several deltas, in order. */
  function Concat(texts: seq<string>): string
  {
    if texts == [] then "" else texts[0] + Concat(texts[1..])
  }

  function DeltaEvent(text: string): Option<StreamEvent>
  {
    Some(StreamEvent(CONTENT_BLOCK_DELTA, false, None, Some(text)))
  }

  function Deltas(texts: seq<string>): (r: seq<Option<StreamEvent>>)
    ensures |r| == |texts|
  {
    if texts == [] then [] else [DeltaEvent(texts[0])] + Deltas(texts[1..])
  }

  /** Inside a text block, a run of deltas adds their texts, in order, to the last message. */
  lemma {:induction false} RunDeltas(v: View, texts: seq<string>)
    requires v.current.Some? && v.current.value.blockType == TEXT && v.messages != []
    ensures Run(v, Deltas(texts)) == v.(messages := AppendToLast(v.messages, Concat(texts)))
    decreases |texts|
  {
    if texts == [] {
      var n := |v.messages| - 1;
      assert v.messages[n].content + "" == v.messages[n].content;
      assert AppendToLast(v.messages, "") == v.messages;
    } else {
      var v1 := Step(v, DeltaEvent(texts[0]));
      assert v1 == v.(messages := AppendToLast(v.messages, texts[0]));
      assert Deltas(texts)[1..] == Deltas(texts[1..]);
      RunDeltas(v1, texts[1..]);
      AppendToLastTwice(v.messages, texts[0], Concat(texts[1..]));
    }
  }

  /** The events that open an answer: `message_start`, then a text block. */
  const TURN_OPEN: seq<Option<StreamEvent>> :=
    [Some(StreamEvent(MESSAGE_START, true, None, None)),
     Some(StreamEvent(CONTENT_BLOCK_START, false, Some(ContentBlock(TEXT, "")), None))]

  /** The events that close an answer: the end of the block, the final message delta, and
      `message_stop`. */
  const TURN_CLOSE: seq<Option<StreamEvent>> :=
    [Some(StreamEvent("content_block_stop", false, None, None)),
     Some(StreamEvent("message_delta", false, None, None)),
     Some(StreamEvent(MESSAGE_STOP, false, None, None))]

  /** The events of one assistant answer with a single text block, as the upstream API
      sends them: the opening events, the text deltas, then events the listener does not
      act on (`content_block_stop`, `message_delta`) and `message_stop`. */
  function Turn(texts: seq<string>): seq<Option<StreamEvent>>
  {
    TURN_OPEN + Deltas(texts) + TURN_CLOSE
  }

  /** A whole answer adds one assistant message holding the deltas' text, and leaves the
      stream outside any block. */
  lemma AssistantTurn(v: View, texts: seq<string>)
    ensures Run(v, Turn(texts)) == View(v.messages + [ChatMessage(ASSISTANT, Concat(texts))], None)
  {
    RunAppend(v, TURN_OPEN + Deltas(texts), TURN_CLOSE);
    RunAppend(v, TURN_OPEN, Deltas(texts));
    OpenTurn(v);
    var v2 := View(v.messages + [ChatMessage(ASSISTANT, "")], Some(ContentBlock(TEXT, "")));
    RunDeltas(v2, texts);
    assert "" + Concat(texts) == Concat(texts);
    var v3 := View(v.messages + [ChatMessage(ASSISTANT, Concat(texts))], Some(ContentBlock(TEXT, "")));
    assert Run(v2, Deltas(texts)) == v3;
    CloseTurn(v3);
  }

  lemma OpenTurn(v: View)
    ensures Run(v, TURN_OPEN)
            == View(v.messages + [ChatMessage(ASSISTANT, "")], Some(ContentBlock(TEXT, "")))
  {
    RunPair(v, TURN_OPEN[0], TURN_OPEN[1]);
  }

  lemma CloseTurn(v: View)
    ensures Run(v, TURN_CLOSE) == v.(current := None)
  {
    RunTriple(v, TURN_CLOSE[0], TURN_CLOSE[1], TURN_CLOSE[2]);
    assert Step(v, TURN_CLOSE[0]) == v;
    assert Step(v, TURN_CLOSE[1]) == v;
  }

  lemma RunPair(v: View, a: Option<StreamEvent>, b: Option<StreamEvent>)
    ensures Run(v, [a, b]) == Step(Step(v, a), b)
  {
    assert [a, b][1..] == [b];
    assert [b][1..] == [];
    assert Run(Step(v, a), [b]) == Run(Step(Step(v, a), b), []);
  }

  lemma RunTriple(v: View, a: Option<StreamEvent>, b: Option<StreamEvent>, c: Option<StreamEvent>)
    ensures Run(v, [a, b, c]) == Step(Step(Step(v, a), b), c)
  {
    assert [a, b, c][1..] == [b, c];
    RunPair(Step(v, a), b, c);
  }
}
