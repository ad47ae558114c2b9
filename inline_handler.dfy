/** The first version of the chat endpoint (`handleChat` in server/main.go). It answers a
    request that does not decode and sets the headers as the later server does, but frames
    each event itself: one formatted write per record (`data: <json>` and a blank line, or
    the error record with its `event: error` line first), flushed whatever the write's
    outcome, which is ignored.

    This module states how that framing relates to the `Event.Write` framing of the later
    server: the same bytes for a one-line payload, the same events read back for every
    payload `encoding/json` can produce, and where the two differ. */
module InlineHandler {
  import opened Bytes
  import opened Wrappers
  import opened EventStream
  import opened SseEvent
  import opened ChatHandler
  import Http

  /** The error record as written here: `event: error`, the payload line, a blank line. */
  const INLINE_ERROR_RECORD: seq<byte> :=
    EVENT_PREFIX + ERROR_TYPE + [LF] + DATA_PREFIX + ERROR_DATA + [LF] + [LF]

  /** The record written for one upstream event, given the outcome of marshalling it. */
  function InlineRecord(marshalled: Option<seq<byte>>): seq<byte>
  {
    match marshalled
    case Some(json) => DATA_PREFIX + json + [LF] + [LF]
    case None => INLINE_ERROR_RECORD
  }

  /** Every record written, in order: one per upstream event, then the error record when
      the upstream call failed. */
  function InlineResponse(marshalled: seq<Option<seq<byte>>>, upstreamFailed: bool): seq<seq<byte>>
  {
    if marshalled == [] then (if upstreamFailed then [INLINE_ERROR_RECORD] else [])
    else [InlineRecord(marshalled[0])] + InlineResponse(marshalled[1..], upstreamFailed)
  }

  /** The records of two runs of upstream events, the upstream failure reported after the
      second. */
  lemma {:induction false} InlineResponseAppend(a: seq<Option<seq<byte>>>, b: seq<Option<seq<byte>>>,
                                                upstreamFailed: bool)
    ensures InlineResponse(a + b, upstreamFailed)
         == InlineResponse(a, false) + InlineResponse(b, upstreamFailed)
  {
    if a == [] {
      assert a + b == b;
    } else {
      assert (a + b)[1..] == a[1..] + b;
      InlineResponseAppend(a[1..], b, upstreamFailed);
    }
  }

  lemma InlineResponseSnoc(marshalled: seq<Option<seq<byte>>>, i: nat)
    requires i < |marshalled|
    ensures InlineResponse(marshalled[..i + 1], false)
         == InlineResponse(marshalled[..i], false) + [InlineRecord(marshalled[i])]
  {
    assert marshalled[..i + 1] == marshalled[..i] + [marshalled[i]];
    InlineResponseAppend(marshalled[..i], [marshalled[i]], false);
    assert InlineResponse([marshalled[i]], false) == [InlineRecord(marshalled[i])] + InlineResponse([], false);
  }

  /** One formatted write and a flush: the write's error is ignored and the flush happens
      regardless. */
  method SendRecord(record: seq<byte>, w: Http.ResponseWriter)
    modifies w`body, w`budget, w`calls, w`flushes
    ensures w.body == old(w.body) + Http.Deliver(record, old(w.budget))
    ensures w.budget == Http.Remaining(record, old(w.budget))
    ensures w.calls == old(w.calls) + 1
    ensures w.flushes == old(w.flushes) + [|w.body|]
  {
    var _ := w.Write(record);
    w.Flush();
  }

  /** The streaming part of the first `handleChat`: one record per upstream event, then the
      error record when the upstream call failed; every record is one write and one flush. */
  method InlineStreamResponse(w: Http.ResponseWriter, marshalled: seq<Option<seq<byte>>>, upstreamFailed: bool)
    modifies w`body, w`budget, w`calls, w`flushes
    ensures var records := InlineResponse(marshalled, upstreamFailed);
      && w.body == old(w.body) + Http.Deliver(Flatten(records), old(w.budget))
      && w.budget == Http.Remaining(Flatten(records), old(w.budget))
      && w.calls == old(w.calls) + |records|
      && w.flushes == old(w.flushes) + Http.FlushPoints(records, |old(w.body)|, old(w.budget), true)
  {
    ghost var budget := w.budget;
    for i := 0 to |marshalled|
      invariant |InlineResponse(marshalled[..i], false)| == i
      invariant w.body == old(w.body) + Http.Deliver(Flatten(InlineResponse(marshalled[..i], false)), budget)
      invariant w.budget == Http.Remaining(Flatten(InlineResponse(marshalled[..i], false)), budget)
      invariant w.calls == old(w.calls) + i
      invariant w.flushes == old(w.flushes)
        + Http.FlushPoints(InlineResponse(marshalled[..i], false), |old(w.body)|, budget, true)
    {
      ghost var body1, left1, flushes1 := w.body, w.budget, w.flushes;
      SendRecord(InlineRecord(marshalled[i]), w);
      Http.ContinueWriting(InlineResponse(marshalled[..i], false), InlineRecord(marshalled[i]),
                           |old(w.body)|, budget, true, old(w.body), old(w.flushes),
                           body1, left1, flushes1, w.body, w.budget, w.flushes);
      InlineResponseSnoc(marshalled, i);
    }
    assert marshalled[..|marshalled|] == marshalled;
    InlineResponseAppend(marshalled, [], upstreamFailed);
    assert marshalled + [] == marshalled;
    if upstreamFailed {
      ghost var body1, left1, flushes1 := w.body, w.budget, w.flushes;
      SendRecord(INLINE_ERROR_RECORD, w);
      Http.ContinueWriting(InlineResponse(marshalled, false), INLINE_ERROR_RECORD,
                           |old(w.body)|, budget, true, old(w.body), old(w.flushes),
                           body1, left1, flushes1, w.body, w.budget, w.flushes);
    }
  }

  /** The first `handleChat`: the same answer to a body that does not decode, the same
      headers and upstream request, and the inline framing of the stream. */
  method HandleChatInline(w: Http.ResponseWriter, decoded: Option<string>,
                          marshalled: seq<Option<seq<byte>>>, upstreamFailed: bool)
    returns (sent: Option<ChatRequest>)
    modifies w
    ensures decoded.None? ==>
      && sent.None?
      && w.header == old(w.header)["Content-Type" := "text/plain; charset=utf-8"]
                                  ["X-Content-Type-Options" := "nosniff"]
      && w.status == (if old(w.status).None? then Some(STATUS_BAD_REQUEST) else old(w.status))
      && w.body == old(w.body) + Http.Deliver(BAD_REQUEST + [LF], old(w.budget))
      && w.budget == Http.Remaining(BAD_REQUEST + [LF], old(w.budget))
      && w.calls == old(w.calls) + 1
      && w.flushes == old(w.flushes)
    ensures decoded.Some? ==>
      var records := InlineResponse(marshalled, upstreamFailed);
      && sent == Some(ChatRequest(Claude3Haiku, decoded.value, MAX_TOKENS))
      && w.header == old(w.header)["Content-Type" := "text/event-stream"]
                                  ["Cache-Control" := "no-cache"]
                                  ["Connection" := "keep-alive"]
      && w.status == old(w.status)
      && w.body == old(w.body) + Http.Deliver(Flatten(records), old(w.budget))
      && w.budget == Http.Remaining(Flatten(records), old(w.budget))
      && w.calls == old(w.calls) + |records|
      && w.flushes == old(w.flushes) + Http.FlushPoints(records, |old(w.body)|, old(w.budget), true)
  {
    if decoded.None? {
      Http.Error(w, BAD_REQUEST, STATUS_BAD_REQUEST);
      return None;
    }
    w.SetHeader("Content-Type", "text/event-stream");
    w.SetHeader("Cache-Control", "no-cache");
    w.SetHeader("Connection", "keep-alive");
    sent := Some(ChatRequest(Claude3Haiku, decoded.value, MAX_TOKENS));
    InlineStreamResponse(w, marshalled, upstreamFailed);
  }

  /** Every record is flushed, also after a failed write: one flush per record. */
  lemma InlineFlushes(marshalled: seq<Option<seq<byte>>>, upstreamFailed: bool, start: nat, budget: nat)
    ensures |Http.FlushPoints(InlineResponse(marshalled, upstreamFailed), start, budget, true)|
         == |marshalled| + if upstreamFailed then 1 else 0
  {
    InlineResponseLength(marshalled, upstreamFailed);
    Http.FlushAlwaysCount(InlineResponse(marshalled, upstreamFailed), start, budget);
  }

  lemma {:induction false} InlineResponseLength(marshalled: seq<Option<seq<byte>>>, upstreamFailed: bool)
    ensures |InlineResponse(marshalled, upstreamFailed)| == |marshalled| + if upstreamFailed then 1 else 0
  {
    if marshalled != [] {
      InlineResponseLength(marshalled[1..], upstreamFailed);
    }
  }

  // Reading the inline records back.

  /** The lines of each inline record, without their line feeds. */
  function InlineLines(marshalled: Option<seq<byte>>): seq<seq<byte>>
  {
    match marshalled
    case Some(json) => [DATA_PREFIX + json, []]
    case None => [EVENT_PREFIX + ERROR_TYPE, DATA_PREFIX + ERROR_DATA, []]
  }

  lemma InlineRecordLines(marshalled: Option<seq<byte>>)
    ensures InlineRecord(marshalled) == Unlines(InlineLines(marshalled))
  {
    match marshalled
    case Some(json) =>
      UnlinesTwo(DATA_PREFIX + json, []);
    case None =>
      UnlinesThree(EVENT_PREFIX + ERROR_TYPE, DATA_PREFIX + ERROR_DATA, []);
  }

  /** A payload a reader takes as a message: not empty, and a single line. */
  ghost predicate OneLine(json: seq<byte>)
  {
    json != [] && IsLine(json)
  }

  /** The inline data record of a one-line payload is the record `Event.Write` makes. */
  lemma InlineAgrees(json: seq<byte>)
    requires json != [] && LF !in json
    ensures InlineRecord(Some(json)) == Record(Event([], json))
    ensures InlineLines(Some(json)) == Lines(Event([], json))
  {
    var e := Event([], json);
    SplitWhole(json, LF);
    assert Prefixed(DATA_PREFIX, [json]) == [DATA_PREFIX + json];
    assert Lines(e) == [DATA_PREFIX + json] + [[]];
    ChunksAreLines(e);
    InlineRecordLines(Some(json));
  }

  /** The inline error record starts with its `event` line, the record `Event.Write` makes
      starts with its `data` line; a reader takes both as the same `error` event. */
  lemma InlineErrorRecord()
    ensures INLINE_ERROR_RECORD != Record(ERROR_EVENT)
    ensures Interpret(INLINE_ERROR_RECORD) == [ERROR_NOTICE] == Interpret(Record(ERROR_EVENT))
  {
    ErrorRecord();
    assert INLINE_ERROR_RECORD[0] != Record(ERROR_EVENT)[0];
    InlineReadRecord(None);
    InlineRecordLines(None);
    SplitUnlines(InlineLines(None));
    ErrorEventReadable();
    ReadBack(ERROR_EVENT);
  }

  /** Each inline record is read from empty buffers as its notice and leaves them empty. */
  lemma InlineReadRecord(marshalled: Option<seq<byte>>)
    requires marshalled.Some? ==> OneLine(marshalled.value)
    ensures forall l | l in InlineLines(marshalled) :: IsLine(l)
    ensures ProcessLines(EMPTY, InlineLines(marshalled)) == Progress(EMPTY, Notice(marshalled))
  {
    match marshalled
    case Some(json) =>
      var e := Event([], json);
      InlineAgrees(json);
      assert Readable(e);
      LinesAreLines(e);
      ReadRecordLines(e);
    case None =>
      ReadInlineError();
  }

  /** An `event` line, a `data` line and a blank line are read as one event of that type. */
  lemma ReadTypedRecord(eventType: seq<byte>, data: seq<byte>)
    requires eventType != []
    ensures ProcessLines(EMPTY, [EVENT_PREFIX + eventType, DATA_PREFIX + data, []])
            == Progress(EMPTY, [Dispatched(eventType, data)])
  {
    var lines := [EVENT_PREFIX + eventType, DATA_PREFIX + data, []];
    assert COLON !in EVENT_FIELD && COLON !in DATA_FIELD;
    FieldLine(EVENT_FIELD, eventType);
    FieldLine(DATA_FIELD, data);
    var b1 := Buffers([], eventType);
    var b2 := Buffers(data + [LF], eventType);
    assert ProcessLine(EMPTY, lines[0]) == Progress(b1, []);
    assert ProcessLine(b1, lines[1]) == Progress(b2, []);
    assert ProcessLine(b2, lines[2]) == Progress(EMPTY, [Dispatched(eventType, data)]);
    assert lines[1..][1..][1..] == [];
    assert ProcessLines(b2, lines[1..][1..]) == Progress(EMPTY, [Dispatched(eventType, data)]);
    assert ProcessLines(b1, lines[1..]) == Progress(EMPTY, [Dispatched(eventType, data)]);
  }

  lemma ReadInlineError()
    ensures forall l | l in InlineLines(None) :: IsLine(l)
    ensures ProcessLines(EMPTY, InlineLines(None)) == Progress(EMPTY, [ERROR_NOTICE])
  {
    ErrorEventReadable();
    assert IsLine(EVENT_PREFIX) && IsLine(DATA_PREFIX);
    ReadTypedRecord(ERROR_TYPE, ERROR_DATA);
  }

  /** The lines of every inline record, record by record. */
  function InlineFrames(marshalled: seq<Option<seq<byte>>>, upstreamFailed: bool): seq<seq<seq<byte>>>
  {
    if marshalled == [] then (if upstreamFailed then [InlineLines(None)] else [])
    else [InlineLines(marshalled[0])] + InlineFrames(marshalled[1..], upstreamFailed)
  }

  lemma {:induction false} InlineStreamFrames(marshalled: seq<Option<seq<byte>>>, upstreamFailed: bool)
    ensures Flatten(InlineResponse(marshalled, upstreamFailed)) == Unlines(Frames(InlineFrames(marshalled, upstreamFailed)))
  {
    var records := InlineResponse(marshalled, upstreamFailed);
    var frames := InlineFrames(marshalled, upstreamFailed);
    if marshalled == [] {
      if upstreamFailed {
        InlineRecordLines(None);
        assert frames == [InlineLines(None)] && records == [INLINE_ERROR_RECORD];
        assert Frames(frames) == InlineLines(None) + Frames([]) == InlineLines(None);
        assert Flatten(records) == INLINE_ERROR_RECORD + Flatten([]) == INLINE_ERROR_RECORD;
      }
    } else {
      InlineRecordLines(marshalled[0]);
      InlineStreamFrames(marshalled[1..], upstreamFailed);
      UnlinesAppend(InlineLines(marshalled[0]), Frames(InlineFrames(marshalled[1..], upstreamFailed)));
    }
  }

  lemma {:induction false} InlineFramesRead(marshalled: seq<Option<seq<byte>>>, upstreamFailed: bool)
    requires forall m | m in marshalled && m.Some? :: OneLine(m.value)
    ensures var frames := InlineFrames(marshalled, upstreamFailed);
      && (forall r, l | r in frames && l in r :: IsLine(l))
      && (forall r | r in frames :: ProcessLines(EMPTY, r).buffers == EMPTY)
      && FrameEvents(frames) == Notifications(marshalled, upstreamFailed)
  {
    if marshalled == [] {
      ReadInlineError();
    } else {
      assert marshalled[0] in marshalled;
      InlineReadRecord(marshalled[0]);
      InlineFramesRead(marshalled[1..], upstreamFailed);
    }
  }

  /** A client reading the inline stream is told exactly the notifications, as with the
      later server, provided every marshalled payload is one non-empty line (as
      `encoding/json` output is). */
  lemma InlineReadResponse(marshalled: seq<Option<seq<byte>>>, upstreamFailed: bool)
    requires forall m | m in marshalled && m.Some? :: OneLine(m.value)
    ensures Interpret(Flatten(InlineResponse(marshalled, upstreamFailed))) == Notifications(marshalled, upstreamFailed)
    ensures Interpret(Flatten(InlineResponse(marshalled, upstreamFailed)))
         == Interpret(Stream(StreamEvents(marshalled, upstreamFailed)))
  {
    InlineStreamFrames(marshalled, upstreamFailed);
    InlineFramesRead(marshalled, upstreamFailed);
    InterpretFrames(InlineFrames(marshalled, upstreamFailed));
    ReadResponse(marshalled, upstreamFailed);
  }

  /** The lines of the inline record of `a`, line feed, `b`. */
  lemma NewlineRecordLines(a: byte, b: byte)
    requires a != LF && a != CR && b != LF && b != CR
    ensures var lines: seq<seq<byte>> := [DATA_PREFIX + [a], [b], []];
      && InlineRecord(Some([a, LF, b])) == Unlines(lines)
      && SplitLines(Unlines(lines)) == lines
  {
    var first := DATA_PREFIX + [a];
    var lines: seq<seq<byte>> := [first, [b], []];
    UnlinesThree(first, [b], []);
    assert DATA_PREFIX + [a, LF, b] + [LF] + [LF] == first + [LF] + [b] + [LF] + [] + [LF];
    assert IsLine(first) by {
      assert IsLine(DATA_PREFIX);
    }
    assert forall l | l in lines :: IsLine(l);
    SplitUnlines(lines);
  }

  /** The inline framing needs one-line payloads: a payload `a`, line feed, `b` loses what
      follows the line feed, where `Event.Write` keeps it. */
  lemma InlineNewline(a: byte, b: byte)
    requires a != LF && a != CR && b != LF && b != CR && b != COLON
    ensures Interpret(InlineRecord(Some([a, LF, b]))) == [Dispatched(MESSAGE_TYPE, [a])]
    ensures Interpret(Record(Event([], [a, LF, b]))) == [Dispatched(MESSAGE_TYPE, [a, LF, b])]
  {
    NewlineRecordLines(a, b);
    StrayLineRead(a, b);
    assert Readable(Event([], [a, LF, b]));
    ReadBack(Event([], [a, LF, b]));
  }

  /** A line feed in the payload can also change the event's type: when what follows it
      reads as an `event` line, the inline record is dispatched as an event of that type,
      where `Event.Write`'s record is read back as the `message` event written. */
  lemma InlineTypeChanged(a: byte, t: seq<byte>)
    requires a != LF && a != CR && t != [] && IsLine(t)
    ensures var json := [a, LF] + EVENT_PREFIX + t;
      && Interpret(InlineRecord(Some(json))) == [Dispatched(t, [a])]
      && Interpret(Record(Event([], json))) == [Dispatched(MESSAGE_TYPE, json)]
  {
    TypeChangedInline(a, t);
    TypeKeptByWrite(a, t);
  }

  lemma TypeChangedInline(a: byte, t: seq<byte>)
    requires a != LF && a != CR && t != [] && IsLine(t)
    ensures Interpret(InlineRecord(Some([a, LF] + EVENT_PREFIX + t))) == [Dispatched(t, [a])]
  {
    TypeChangedLines(a, t);
    TypeChangedRead(a, t);
  }

  lemma TypeKeptByWrite(a: byte, t: seq<byte>)
    requires a != CR && IsLine(t)
    ensures var json := [a, LF] + EVENT_PREFIX + t;
      Interpret(Record(Event([], json))) == [Dispatched(MESSAGE_TYPE, json)]
  {
    var json := [a, LF] + EVENT_PREFIX + t;
    assert IsLine(EVENT_PREFIX);
    NoCarriageReturn([a, LF], EVENT_PREFIX, t);
    assert Readable(Event([], json));
    ReadBack(Event([], json));
  }

  lemma NoCarriageReturn(x: seq<byte>, y: seq<byte>, z: seq<byte>)
    requires CR !in x && CR !in y && CR !in z
    ensures CR !in x + y + z
  {
  }

  /** The lines of the inline record of `a`, line feed, `event: t`. */
  lemma TypeChangedLines(a: byte, t: seq<byte>)
    requires a != LF && a != CR && IsLine(t)
    ensures var lines: seq<seq<byte>> := [DATA_PREFIX + [a], EVENT_PREFIX + t, []];
      && InlineRecord(Some([a, LF] + EVENT_PREFIX + t)) == Unlines(lines)
      && SplitLines(Unlines(lines)) == lines
  {
    assert IsLine(DATA_PREFIX) && IsLine(EVENT_PREFIX);
    ThreeLines(DATA_PREFIX, [a], EVENT_PREFIX, t);
    Regroup(a, EVENT_PREFIX, t);
  }

  lemma Regroup(a: byte, p: seq<byte>, t: seq<byte>)
    ensures [a, LF] + p + t == [a] + [LF] + p + t
  {
  }

  /** Two lines, each made of a prefix and a rest without line endings, then a blank line:
      their bytes split back into those three lines. */
  lemma ThreeLines(prefix1: seq<byte>, rest1: seq<byte>, prefix2: seq<byte>, rest2: seq<byte>)
    requires IsLine(prefix1) && IsLine(rest1) && IsLine(prefix2) && IsLine(rest2)
    ensures var lines: seq<seq<byte>> := [prefix1 + rest1, prefix2 + rest2, []];
      && prefix1 + (rest1 + [LF] + prefix2 + rest2) + [LF] + [LF] == Unlines(lines)
      && SplitLines(Unlines(lines)) == lines
  {
    var first := prefix1 + rest1;
    var second := prefix2 + rest2;
    var lines: seq<seq<byte>> := [first, second, []];
    UnlinesThree(first, second, []);
    ThreeLinesBytes(prefix1, rest1, prefix2, rest2);
    LineAppend(prefix1, rest1);
    LineAppend(prefix2, rest2);
    assert IsLine([]);
    assert forall l | l in lines :: IsLine(l);
    SplitUnlines(lines);
  }

  lemma ThreeLinesBytes(prefix1: seq<byte>, rest1: seq<byte>, prefix2: seq<byte>, rest2: seq<byte>)
    ensures prefix1 + (rest1 + [LF] + prefix2 + rest2) + [LF] + [LF]
            == (prefix1 + rest1) + [LF] + (prefix2 + rest2) + [LF] + [] + [LF]
  {
    assert prefix1 + (rest1 + [LF] + prefix2 + rest2) == (prefix1 + rest1) + [LF] + (prefix2 + rest2);
  }

  lemma LineAppend(x: seq<byte>, y: seq<byte>)
    requires IsLine(x) && IsLine(y)
    ensures IsLine(x + y)
  {
  }

  /** A `data` line, an `event` line and a blank line dispatch the data as an event of the
      type the `event` line names. */
  lemma TypeChangedRead(a: byte, t: seq<byte>)
    requires t != []
    ensures ProcessLines(EMPTY, [DATA_PREFIX + [a], EVENT_PREFIX + t, []]).events == [Dispatched(t, [a])]
  {
    var lines: seq<seq<byte>> := [DATA_PREFIX + [a], EVENT_PREFIX + t, []];
    assert COLON !in DATA_FIELD && COLON !in EVENT_FIELD;
    FieldLine(DATA_FIELD, [a]);
    FieldLine(EVENT_FIELD, t);
    var b1 := Buffers([a, LF], []);
    var b2 := Buffers([a, LF], t);
    assert ProcessLine(EMPTY, lines[0]) == Progress(b1, []);
    assert ProcessLine(b1, lines[1]) == Progress(b2, []);
    assert b2.data[..|b2.data| - 1] == [a];
    assert ProcessLine(b2, []) == Progress(EMPTY, [Dispatched(t, [a])]);
    assert lines[1..][1..] == [[]] && lines[1..][1..][1..] == [];
    assert ProcessLines(b2, lines[1..][1..]) == Progress(EMPTY, [Dispatched(t, [a])]);
  }

  /** An empty payload: the inline record is read as an empty `message` event, where
      `Event.Write` writes nothing at all. */
  lemma InlineEmptyPayload()
    ensures Interpret(InlineRecord(Some([]))) == [Dispatched(MESSAGE_TYPE, [])]
    ensures Record(Event([], [])) == []
  {
    var lines: seq<seq<byte>> := [DATA_PREFIX, []];
    InlineRecordLines(Some([]));
    assert DATA_PREFIX + [] == DATA_PREFIX;
    assert InlineLines(Some([])) == lines;
    assert IsLine(DATA_PREFIX);
    SplitUnlines(lines);
    ReadEmptyData();
    EmptyPayload(Event([], []));
  }

  /** A bare `data: ` line and a blank line dispatch an empty `message` event. */
  lemma ReadEmptyData()
    ensures ProcessLines(EMPTY, [DATA_PREFIX, []]).events == [Dispatched(MESSAGE_TYPE, [])]
  {
    var lines: seq<seq<byte>> := [DATA_PREFIX, []];
    assert COLON !in DATA_FIELD;
    FieldLine(DATA_FIELD, []);
    assert DATA_PREFIX + [] == DATA_PREFIX;
    var b1 := Buffers([LF], []);
    assert ProcessLine(EMPTY, lines[0]) == Progress(b1, []);
    assert lines[1..][1..] == [];
    assert ProcessLines(b1, lines[1..]) == Progress(EMPTY, [Dispatched(MESSAGE_TYPE, [])]);
  }
}
