/** The chat endpoint of the server (`handleChat` in server/server.go): decode the request,
    answer 400 when it does not decode, otherwise set the event-stream headers, relay every
    upstream event as a server-sent event (a fixed `error` event when the upstream event
    cannot be marshalled), and end with one more `error` event when the upstream call fails.

    The upstream client and the JSON encoder are not modelled: the handler receives the
    outcome of decoding the body, the outcome of marshalling each upstream event, in the
    order the client delivers them, and whether the upstream call failed. */
module ChatHandler {
  import opened Bytes
  import opened Wrappers
  import opened EventStream
  import opened SseEvent
  import Http

  /** The type of the fixed error event: `error`. */
  const ERROR_TYPE: seq<byte> := [101, 114, 114, 111, 114]
  /** The JSON key of the error payload: `message`. */
  const MESSAGE_KEY: seq<byte> := [109, 101, 115, 115, 97, 103, 101]
  /** The words of the error payload's value: `Internal`, `Server`, `Error`. */
  const INTERNAL: seq<byte> := [73, 110, 116, 101, 114, 110, 97, 108]
  const SERVER: seq<byte> := [83, 101, 114, 118, 101, 114]
  const ERROR_WORD: seq<byte> := [69, 114, 114, 111, 114]
  /** The payload of the fixed error event, `{"message": "Internal Server Error"}`. */
  const ERROR_DATA: seq<byte> :=
    [123, 34] + MESSAGE_KEY + [34, 58, 32, 34] + INTERNAL + [32] + SERVER + [32] + ERROR_WORD + [34, 125]
  const ERROR_EVENT: Event := Event(ERROR_TYPE, ERROR_DATA)

  /** The body of the answer to a request that does not decode: `Bad Request`. */
  const BAD_REQUEST: seq<byte> := [66, 97, 100, 32, 82, 101, 113, 117, 101, 115, 116]
  const STATUS_BAD_REQUEST: nat := 400
  const MAX_TOKENS: nat := 1054

  datatype Model = Claude3Haiku

  /** The request sent upstream: the Haiku model, one user message holding the text of the
      request, and the token limit. */
  datatype ChatRequest = ChatRequest(model: Model, message: string, maxTokens: nat)

  /** The event the callback writes for one upstream event, given the outcome of
      marshalling it: its JSON as the payload of an untyped event, or the fixed error event. */
  function EventFor(marshalled: Option<seq<byte>>): Event
  {
    match marshalled
    case Some(json) => Event([], json)
    case None => ERROR_EVENT
  }

  /** The events written for the upstream events, in order. */
  function Relayed(marshalled: seq<Option<seq<byte>>>): (r: seq<Event>)
    ensures |r| == |marshalled|
  {
    if marshalled == [] then []
    else Relayed(marshalled[..|marshalled| - 1]) + [EventFor(marshalled[|marshalled| - 1])]
  }

  /** Every event the handler writes: one per upstream event, then the error event when the
      upstream call failed. */
  function StreamEvents(marshalled: seq<Option<seq<byte>>>, upstreamFailed: bool): seq<Event>
  {
    Relayed(marshalled) + if upstreamFailed then [ERROR_EVENT] else []
  }

  /** The number of writes made for `events` written one after the other from a connection
      accepting `budget` bytes (the writes of each event stop at its first failure). */
  function WritesMade(events: seq<Event>, budget: nat): nat
  {
    if events == [] then 0
    else
      var earlier := events[..|events| - 1];
      WritesMade(earlier, budget)
      + Http.CallsIssued(Chunks(events[|events| - 1]), Http.Remaining(Stream(earlier), budget))
  }

  lemma RelayedSnoc(marshalled: seq<Option<seq<byte>>>, i: nat)
    requires i < |marshalled|
    ensures Relayed(marshalled[..i + 1]) == Relayed(marshalled[..i]) + [EventFor(marshalled[i])]
  {
    assert marshalled[..i + 1][..i] == marshalled[..i];
  }

  lemma StreamSnoc(events: seq<Event>, e: Event)
    ensures Records(events + [e]) == Records(events) + [Record(e)]
    ensures Stream(events + [e]) == Stream(events) + Record(e)
  {
    RecordsAppend(events, [e]);
    assert Records([e]) == [Record(e)];
    StreamAppend(events, [e]);
    assert Flatten([Record(e)]) == Record(e) + Flatten([]);
  }

  lemma WritesMadeSnoc(events: seq<Event>, e: Event, budget: nat)
    ensures WritesMade(events + [e], budget)
         == WritesMade(events, budget) + Http.CallsIssued(Chunks(e), Http.Remaining(Stream(events), budget))
  {
    assert (events + [e])[..|events|] == events;
  }

  /** The state of the writer after `events` and then `e` were sent, given its state after
      `events` and what sending `e` did. */
  lemma SendStep(events: seq<Event>, e: Event, budget: nat, body0: seq<byte>, calls0: nat, flushes0: seq<nat>,
                 body1: seq<byte>, left1: nat, calls1: nat, flushes1: seq<nat>,
                 body: seq<byte>, left: nat, calls: nat, flushes: seq<nat>)
    requires body1 == body0 + Http.Deliver(Stream(events), budget)
    requires left1 == Http.Remaining(Stream(events), budget)
    requires calls1 == calls0 + WritesMade(events, budget)
    requires flushes1 == flushes0 + Http.FlushPoints(Records(events), |body0|, budget, false)
    requires body == body1 + Http.Deliver(Record(e), left1)
    requires left == Http.Remaining(Record(e), left1)
    requires calls == calls1 + Http.CallsIssued(Chunks(e), left1)
    requires flushes == flushes1 + if |Record(e)| <= left1 then [|body|] else []
    ensures body == body0 + Http.Deliver(Stream(events + [e]), budget)
    ensures left == Http.Remaining(Stream(events + [e]), budget)
    ensures calls == calls0 + WritesMade(events + [e], budget)
    ensures flushes == flushes0 + Http.FlushPoints(Records(events + [e]), |body0|, budget, false)
  {
    StreamSnoc(events, e);
    WritesMadeSnoc(events, e, budget);
    Http.ContinueWriting(Records(events), Record(e), |body0|, budget, false, body0, flushes0,
                         body1, left1, flushes1, body, left, flushes);
  }

  /** Writing one event and flushing it, as the callback and the upstream-failure branch do:
      when the write fails the error is logged and nothing is flushed. */
  method Send(e: Event, w: Http.ResponseWriter)
    modifies w`body, w`budget, w`calls, w`flushes
    ensures w.body == old(w.body) + Http.Deliver(Record(e), old(w.budget))
    ensures w.budget == Http.Remaining(Record(e), old(w.budget))
    ensures w.calls == old(w.calls) + Http.CallsIssued(Chunks(e), old(w.budget))
    ensures w.flushes == old(w.flushes) + if |Record(e)| <= old(w.budget) then [|w.body|] else []
  {
    var ok := SseEvent.Write(e, w);
    if !ok {
      return;
    }
    w.Flush();
  }

  /** The callback run for each upstream event: the marshalled event as an untyped event, or
      the fixed error event when marshalling failed; either way the stream goes on. */
  method Relay(marshalled: Option<seq<byte>>, w: Http.ResponseWriter)
    modifies w`body, w`budget, w`calls, w`flushes
    ensures var e := EventFor(marshalled);
      && w.body == old(w.body) + Http.Deliver(Record(e), old(w.budget))
      && w.budget == Http.Remaining(Record(e), old(w.budget))
      && w.calls == old(w.calls) + Http.CallsIssued(Chunks(e), old(w.budget))
      && w.flushes == old(w.flushes) + if |Record(e)| <= old(w.budget) then [|w.body|] else []
  {
    match marshalled
    case None =>
      Send(ERROR_EVENT, w);
    case Some(json) =>
      Send(Event([], json), w);
  }

  /** The streaming part of `handleChat`: relay every upstream event, then write the error
      event when the upstream call failed. */
  method StreamResponse(w: Http.ResponseWriter, marshalled: seq<Option<seq<byte>>>, upstreamFailed: bool)
    modifies w`body, w`budget, w`calls, w`flushes
    ensures var events := StreamEvents(marshalled, upstreamFailed);
      && w.body == old(w.body) + Http.Deliver(Stream(events), old(w.budget))
      && w.budget == Http.Remaining(Stream(events), old(w.budget))
      && w.calls == old(w.calls) + WritesMade(events, old(w.budget))
      && w.flushes == old(w.flushes) + Http.FlushPoints(Records(events), |old(w.body)|, old(w.budget), false)
  {
    ghost var budget := w.budget;
    for i := 0 to |marshalled|
      invariant w.body == old(w.body) + Http.Deliver(Stream(Relayed(marshalled[..i])), budget)
      invariant w.budget == Http.Remaining(Stream(Relayed(marshalled[..i])), budget)
      invariant w.calls == old(w.calls) + WritesMade(Relayed(marshalled[..i]), budget)
      invariant w.flushes == old(w.flushes)
        + Http.FlushPoints(Records(Relayed(marshalled[..i])), |old(w.body)|, budget, false)
    {
      ghost var body1, left1, calls1, flushes1 := w.body, w.budget, w.calls, w.flushes;
      Relay(marshalled[i], w);
      SendStep(Relayed(marshalled[..i]), EventFor(marshalled[i]), budget,
               old(w.body), old(w.calls), old(w.flushes), body1, left1, calls1, flushes1,
               w.body, w.budget, w.calls, w.flushes);
      RelayedSnoc(marshalled, i);
    }
    assert marshalled[..|marshalled|] == marshalled;
    if upstreamFailed {
      ghost var body1, left1, calls1, flushes1 := w.body, w.budget, w.calls, w.flushes;
      Send(ERROR_EVENT, w);
      SendStep(Relayed(marshalled), ERROR_EVENT, budget,
               old(w.body), old(w.calls), old(w.flushes), body1, left1, calls1, flushes1,
               w.body, w.budget, w.calls, w.flushes);
    } else {
      assert StreamEvents(marshalled, upstreamFailed) == Relayed(marshalled);
    }
  }

  /** `handleChat`: a body that does not decode gets `400 Bad Request` and nothing else; a
      body that decodes gets the event-stream headers, then every event of the stream, each
      flushed when its write succeeded. Returns the request sent upstream, if any. */
  method HandleChat(w: Http.ResponseWriter, decoded: Option<string>,
                    marshalled: seq<Option<seq<byte>>>, upstreamFailed: bool)
    returns (sent: Option<ChatRequest>)
    modifies w
    ensures decoded.None? ==>
      && sent.None?
      && w.header == old(w.header)["Content-Type" := "text/plain; charset=utf-8"]
                                  ["X-Content-Type-Options" := "nosniff"]
      && w.status == (if old(w.status).None? then Some(STATUS_BAD_REQUEST) else old(w.status))
      && w.body == old(w.body) + Http.Deliver(BAD_REQUEST + [LF], old(w.budget))
      && w.budget == Http.Remaining(BAD_REQUEST + [LF], old(w.budget))
      && w.calls == old(w.calls) + 1
      && w.flushes == old(w.flushes)
    ensures decoded.Some? ==>
      var events := StreamEvents(marshalled, upstreamFailed);
      && sent == Some(ChatRequest(Claude3Haiku, decoded.value, MAX_TOKENS))
      && w.header == old(w.header)["Content-Type" := "text/event-stream"]
                                  ["Cache-Control" := "no-cache"]
                                  ["Connection" := "keep-alive"]
      && w.status == old(w.status)
      && w.body == old(w.body) + Http.Deliver(Stream(events), old(w.budget))
      && w.budget == Http.Remaining(Stream(events), old(w.budget))
      && w.calls == old(w.calls) + WritesMade(events, old(w.budget))
      && w.flushes == old(w.flushes) + Http.FlushPoints(Records(events), |old(w.body)|, old(w.budget), false)
  {
    if decoded.None? {
      Http.Error(w, BAD_REQUEST, STATUS_BAD_REQUEST);
      return None;
    }
    w.SetHeader("Content-Type", "text/event-stream");
    w.SetHeader("Cache-Control", "no-cache");
    w.SetHeader("Connection", "keep-alive");
    sent := Some(ChatRequest(Claude3Haiku, decoded.value, MAX_TOKENS));
    StreamResponse(w, marshalled, upstreamFailed);
  }

  /** What a client reading the stream is told about one upstream event: its JSON as a
      `message` event (nothing when the JSON is empty), or the fixed `error` event when it
      could not be marshalled. */
  const ERROR_NOTICE: Dispatched := Dispatched(ERROR_TYPE, ERROR_DATA)

  function Notice(marshalled: Option<seq<byte>>): seq<Dispatched>
  {
    match marshalled
    case None => [ERROR_NOTICE]
    case Some(json) => if json == [] then [] else [Dispatched(MESSAGE_TYPE, json)]
  }

  /** What the client is told about the whole exchange: a notice per upstream event, in
      order, and a final `error` event when the upstream call failed. */
  function Notifications(marshalled: seq<Option<seq<byte>>>, upstreamFailed: bool): seq<Dispatched>
  {
    if marshalled == [] then (if upstreamFailed then [ERROR_NOTICE] else [])
    else Notice(marshalled[0]) + Notifications(marshalled[1..], upstreamFailed)
  }

  lemma {:induction false} RelayedAt(marshalled: seq<Option<seq<byte>>>, i: nat)
    requires i < |marshalled|
    ensures Relayed(marshalled)[i] == EventFor(marshalled[i])
    decreases |marshalled|
  {
    var n := |marshalled| - 1;
    if i < n {
      RelayedAt(marshalled[..n], i);
    }
  }

  lemma RelayedCons(marshalled: seq<Option<seq<byte>>>)
    requires marshalled != []
    ensures Relayed(marshalled) == [EventFor(marshalled[0])] + Relayed(marshalled[1..])
  {
    var r := [EventFor(marshalled[0])] + Relayed(marshalled[1..]);
    forall i | 0 <= i < |marshalled|
      ensures Relayed(marshalled)[i] == r[i]
    {
      RelayedAt(marshalled, i);
      if i > 0 {
        RelayedAt(marshalled[1..], i - 1);
      }
    }
  }

  /** The events the handler writes each read back as their notice, in order. */
  lemma {:induction false} DispatchedNotifications(marshalled: seq<Option<seq<byte>>>, upstreamFailed: bool)
    ensures AllDispatched(StreamEvents(marshalled, upstreamFailed)) == Notifications(marshalled, upstreamFailed)
  {
    var events := StreamEvents(marshalled, upstreamFailed);
    if marshalled == [] {
      if upstreamFailed {
        assert events == [ERROR_EVENT];
        assert AllDispatched(events) == DispatchedAs(ERROR_EVENT) + AllDispatched([]);
      } else {
        assert events == [];
      }
    } else {
      RelayedCons(marshalled);
      var rest := StreamEvents(marshalled[1..], upstreamFailed);
      assert events == [EventFor(marshalled[0])] + rest;
      assert events[1..] == rest;
      DispatchedNotifications(marshalled[1..], upstreamFailed);
    }
  }

  /** Every event the handler writes can be read back, provided no marshalled JSON holds a
      carriage return (encoding/json escapes control characters, so none does). */
  lemma StreamReadable(marshalled: seq<Option<seq<byte>>>, upstreamFailed: bool)
    requires forall m | m in marshalled && m.Some? :: CR !in m.value
    ensures forall e | e in StreamEvents(marshalled, upstreamFailed) :: Readable(e)
  {
    ErrorEventReadable();
    forall e | e in StreamEvents(marshalled, upstreamFailed)
      ensures Readable(e)
    {
      if e in Relayed(marshalled) {
        var i :| 0 <= i < |Relayed(marshalled)| && Relayed(marshalled)[i] == e;
        RelayedAt(marshalled, i);
        assert marshalled[i] in marshalled;
      }
    }
  }

  /** A client reading the whole response is told exactly the notifications: every upstream
      event in order, an `error` event for each one that could not be marshalled (the
      stream goes on after it), and one `error` event at the end when the upstream call
      failed. */
  lemma ReadResponse(marshalled: seq<Option<seq<byte>>>, upstreamFailed: bool)
    requires forall m | m in marshalled && m.Some? :: CR !in m.value
    ensures Interpret(Stream(StreamEvents(marshalled, upstreamFailed))) == Notifications(marshalled, upstreamFailed)
  {
    StreamReadable(marshalled, upstreamFailed);
    StreamReadBack(StreamEvents(marshalled, upstreamFailed));
    DispatchedNotifications(marshalled, upstreamFailed);
  }

  /** A failed upstream call adds exactly one record, the error record, after everything
      relayed before the failure. */
  lemma UpstreamFailure(marshalled: seq<Option<seq<byte>>>)
    ensures Stream(StreamEvents(marshalled, true)) == Stream(StreamEvents(marshalled, false)) + Record(ERROR_EVENT)
    ensures Notifications(marshalled, true) == Notifications(marshalled, false) + [ERROR_NOTICE]
  {
    StreamSnoc(Relayed(marshalled), ERROR_EVENT);
    assert StreamEvents(marshalled, false) == Relayed(marshalled);
    NotificationsFailure(marshalled);
  }

  lemma {:induction false} NotificationsFailure(marshalled: seq<Option<seq<byte>>>)
    ensures Notifications(marshalled, true) == Notifications(marshalled, false) + [ERROR_NOTICE]
  {
    if marshalled != [] {
      NotificationsFailure(marshalled[1..]);
    }
  }

  /** The error record on the wire: `data: {"message": "Internal Server Error"}`, then
      `event: error`, then the blank line. */
  lemma ErrorRecord()
    ensures Record(ERROR_EVENT) == DATA_PREFIX + ERROR_DATA + [LF] + EVENT_PREFIX + ERROR_TYPE + [LF] + [LF]
  {
    ErrorEventReadable();
    SingleLineRecord(ERROR_EVENT);
  }

  /** The error event's payload and type are single lines. */
  lemma ErrorEventReadable()
    ensures LF !in ERROR_DATA && Readable(ERROR_EVENT)
  {
    assert LF !in MESSAGE_KEY && CR !in MESSAGE_KEY;
    assert LF !in INTERNAL && CR !in INTERNAL;
    assert LF !in SERVER && CR !in SERVER;
    assert LF !in ERROR_WORD && CR !in ERROR_WORD;
  }

  /** A marshalling failure in the middle of the stream is reported where it happened, and
      the events after it still reach the client. */
  lemma MarshalFailureContinues(before: seq<byte>, after: seq<byte>)
    requires before != [] && after != [] && CR !in before && CR !in after
    ensures Interpret(Stream(StreamEvents([Some(before), None, Some(after)], false)))
         == [Dispatched(MESSAGE_TYPE, before), ERROR_NOTICE, Dispatched(MESSAGE_TYPE, after)]
  {
    var ms := [Some(before), None, Some(after)];
    ReadResponse(ms, false);
    assert ms[1..] == [None, Some(after)] && ms[1..][1..] == [Some(after)] && ms[1..][1..][1..] == [];
    calc {
      Notifications(ms, false);
      Notice(Some(before)) + Notifications(ms[1..], false);
      Notice(Some(before)) + (Notice(None) + Notifications(ms[1..][1..], false));
      Notice(Some(before)) + (Notice(None) + (Notice(Some(after)) + Notifications([], false)));
    }
  }

  /** On a connection that accepts the whole stream, the client receives every record, each
      flushed as soon as it is written. */
  lemma HealthyResponse(marshalled: seq<Option<seq<byte>>>, upstreamFailed: bool, start: nat, budget: nat)
    requires |Stream(StreamEvents(marshalled, upstreamFailed))| <= budget
    ensures var events := StreamEvents(marshalled, upstreamFailed);
      && Http.Deliver(Stream(events), budget) == Stream(events)
      && Http.FlushPoints(Records(events), start, budget, false) == Http.Boundaries(Records(events), start)
  {
    Http.FlushHealthy(Records(StreamEvents(marshalled, upstreamFailed)), start, budget);
  }

  /** Once a record does not fit, nothing written after it reaches the client. */
  lemma NothingAfterFailure(events: seq<Event>, k: nat, budget: nat)
    requires k <= |events| && |Stream(events[..k])| > budget
    ensures Http.Deliver(Stream(events), budget) == Http.Deliver(Stream(events[..k]), budget)
    ensures Http.Remaining(Stream(events), budget) == 0
  {
    assert events == events[..k] + events[k..];
    StreamAppend(events[..k], events[k..]);
    Http.DeliverAppend(Stream(events[..k]), Stream(events[k..]), budget);
  }

  /** A failed write ends only the event being written: the next event with a payload still
      makes its first write (which delivers nothing). */
  lemma KeepsWriting(events: seq<Event>, e: Event, budget: nat)
    requires |Stream(events)| > budget && e.data != []
    ensures WritesMade(events + [e], budget) == WritesMade(events, budget) + 1
  {
    WritesMadeSnoc(events, e, budget);
    var pieces := Split(e.data, LF);
    DataChunkAt(pieces, 0);
    assert Chunks(e)[0] == DataChunks(pieces)[0];
  }
}
