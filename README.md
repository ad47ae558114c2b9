# ai-chat: a verified model of the streaming bridge

The repository is a chat gateway. A client posts one message. The Go server forwards it to the
language-model provider and relays the provider's streamed events to the client as
server-sent events (SSE). Two browser clients turn those events into a list of chat
messages.

This project models three parts of it in Dafny:

- The SSE framing of the server. `Event.Write` in server/server.go writes one `data:` line
  per line of the payload, an optional `event:` line, then a blank line. It stops at the
  first failed write.
- The chat handler and its error policy, in two versions:
  - `handleChat` in server/server.go frames records with `Event.Write`.
  - The older `handleChat` in server/main.go formats each record itself.
  - Both answer 400 to a body that does not decode. Both relay every upstream event. Both
    send a fixed `error` event when an event cannot be marshalled, and then continue. Both
    send one `error` event when the upstream call fails.
- The `message` and `error` listeners of the two clients (ui/ and web/). They update a
  store of messages and, in web/, a list of errors.

The framing is checked against an independent reader. Module `EventStream` follows the
event-stream parsing algorithm of section 9.2.6, "Interpreting an event stream", of the
WHATWG HTML Living Standard, on bytes rather than decoded text:

- Lines end at CR, LF or CRLF.
- `data` values are joined with LF.
- A blank line dispatches the buffered event.
- Only the `data` and `event` fields are read. It covers the parts of the algorithm that
  the server's records exercise (see "## Left out").

The main results:

- `SseEvent.ReadBack`: for a payload without CR and a type without CR or LF, a conforming
  reader dispatches exactly the event `Event.Write` wrote.
  - The condition is needed. `Event.Write` splits the payload at LF only, but a reader also
    ends a line at a lone CR.
  - `SseEvent.CarriageReturnLost` shows a payload `a` CR `b` is read back as `a` alone.
  - `encoding/json` never writes a raw CR, so the server's own payloads meet the condition.
- `ChatHandler.ReadResponse`: for CR-free payloads, a client reading the whole response
  gets one notice per upstream event with a non-empty payload, in order, plus the final
  `error` when the upstream call failed.
- `InlineHandler.InlineReadResponse`: the older handler's stream reads the same, for
  one-line payloads (such as `encoding/json` output).
  - With a line feed in a payload it does not. `InlineHandler.InlineNewline` shows the text
    after the line feed can be lost.
  - `InlineHandler.InlineTypeChanged` shows the event can be dispatched with another type.

**The connection.** The response writer (`Http.ResponseWriter`) is a class. Its fields are:

- the status;
- the header map;
- the bytes the client received;
- the number of bytes the connection still accepts (its budget);
- the number of `Write` calls;
- the body length at each flush.

A write that does not fit delivers what fits and fails. The budget is then 0, so every later
non-empty write fails and delivers nothing.

**Inputs.** The provider, `json.Marshal`, the request decoder and `JSON.parse` become inputs:

- the outcome of decoding the request body;
- for each upstream event, the outcome of marshalling it;
- whether the upstream call failed;
- the outcome of parsing each event's data in the clients.

**Where the model follows the code.** Two behaviours in the code may be unexpected:

- `Event.Write` does not flush. The handler flushes after a write that succeeded and skips
  the flush after one that failed (server/server.go:79-83, 87-91, 100-104).
- A failed write ends only the current callback (server/server.go:87-90). The next upstream
  event is still written.
  - `ChatHandler.KeepsWriting` shows that each later event with a payload still makes a
    write.
  - `ChatHandler.NothingAfterFailure` shows that none of those writes delivers anything.

## Model

| member | source | states |
|---|---|---|
| Bytes.JoinSplit | server/server.go:122 | joining the pieces `bytes.Split` produced, with the separator between them, gives back the payload |
| Bytes.SplitCount | server/server.go:122 | a payload with k separators splits into k + 1 pieces |
| Bytes.SplitPieces | server/server.go:122 | no piece contains the separator, and every byte of a piece is a byte of the payload |
| Bytes.SplitTrailing | server/server.go:122 | a payload ending in the separator has an empty last piece |
| Http.ResponseWriter.Write | server/server.go:124-126 | the write succeeds exactly when the chunk fits; the client receives the chunk, or only what fits; the budget and call count change accordingly |
| Http.ResponseWriter.Flush | server/server.go:83 | a flush records the body length at which it happened |
| Http.ResponseWriter.SetHeader | server/server.go:59-61 | setting a header replaces that key only |
| Http.ResponseWriter.WriteHeader | server/server.go:55 | only the first status set sticks |
| Http.Error | server/server.go:55 | `http.Error` sets the plain-text headers, sets the status unless one is set, and writes the message and a line feed in one write |
| Http.DeliverPrefix | server/server.go:124-126 | what the connection delivers is a prefix of what was written, and a strict prefix when it did not fit |
| Http.DeliverAppend | server/server.go:123-136 | writing a and then b delivers what writing a + b at once would, and leaves the same budget |
| Http.CallsIssuedStop | server/server.go:123-136 | writes that stop at the first failure make one write per chunk when all fit; otherwise they stop at the first chunk that overflows, and every earlier chunk fit |
| Http.FlushHealthy | server/server.go:83-91 | when every record fits, the flushes fall exactly at the end of each record |
| Http.FlushOnSuccessCount | server/server.go:87-91 | flushing only after successful writes gives at most one flush per record |
| Http.FlushAlwaysCount | server/main.go:73-74 | flushing after every write gives exactly one flush per record |
| SseEvent.Write | server/server.go:117-138 | `Event.Write` succeeds exactly when the whole record fits; the client receives the record, or its prefix up to the failure; it makes the writes up to and including the first that fails |
| SseEvent.WriteData | server/server.go:122-127 | the data loop writes `data: <piece>\n` for each piece of the payload split on LF, and stops at the first failed write |
| SseEvent.WriteEnd | server/server.go:128-136 | writes the `event:` line when the type is non-empty, then the blank line, stopping at the first failed write |
| SseEvent.ChunksAreLines | server/server.go:124-136 | every write is one line of the record followed by a line feed |
| SseEvent.EmptyPayload | server/server.go:118-120 | an event with an empty payload writes nothing, whatever its type; any other record ends with a line feed |
| SseEvent.FailedWrite | server/server.go:124-136 | after a failed write the client holds a strict prefix of the record, and the failing write was the last one made |
| SseEvent.DataRoundTrip | server/server.go:122-127 | removing `data: ` from the data lines and joining them with LF gives back the payload, the empty payload included |
| SseEvent.DataLines | server/server.go:122-127 | the record has one data line per piece, in order, so k line feeds give k + 1 lines; a trailing line feed gives a last line `data: ` |
| SseEvent.EventLinePlacement | server/server.go:128-132 | an `event:` line appears exactly when the type is non-empty, after all data lines and just before the blank line |
| SseEvent.SingleBlankLine | server/server.go:134-136 | for a type without line feeds (as every type the server writes), the record ends with exactly one blank line, and no earlier line is blank |
| SseEvent.SingleLineRecord | server/server.go:122-136 | for a typed one-line payload, the record is `data: <payload>\n`, then `event: <type>\n`, then `\n` |
| SseEvent.ReadBack | server/server.go:117-138 | for a payload without CR and a type without CR or LF, a WHATWG event-stream reader dispatches exactly one event for the record, with the payload and type written (the type defaults to `message`); it dispatches none for an empty payload |
| SseEvent.CarriageReturnLost | server/server.go:122-124 | the payload is split at LF only, so a lone CR in it ends the line for a reader: the payload `a` CR `b` is read back as `a`, not as the event written |
| SseEvent.StreamReadBack | server/server.go:117-138 | under the same conditions as `ReadBack`, records written one after another are read back as their events, in order; no record runs into the next |
| ChatHandler.Send | server/server.go:86-91 | one event is written, then flushed only when the write succeeded |
| ChatHandler.Relay | server/server.go:71-92 | a marshalled upstream event becomes an untyped event; a marshalling failure becomes the fixed `error` event; either way the callback returns and the stream goes on |
| ChatHandler.StreamResponse | server/server.go:71-106 | the client receives the stream of all relayed events, followed by the error event when the upstream call failed, up to the first failure; the writes made and the flushes are as stated |
| ChatHandler.HandleChat | server/server.go:47-108 | a body that does not decode gets 400 `Bad Request`, no SSE headers and no events; otherwise the three SSE headers are set, the Haiku request with the user's message and a 1054-token limit goes upstream, and the stream follows |
| ChatHandler.ReadResponse | server/server.go:71-106 | when no marshalled payload holds a CR, a client reading the response gets exactly the notifications: each upstream event's non-empty JSON as a `message` event (an empty payload gives none), an `error` event for each marshalling failure, and one final `error` event when the upstream call failed |
| ChatHandler.MarshalFailureContinues | server/server.go:72-85 | for three upstream events of which the second cannot be marshalled, the client reads the first event, an error, then the third |
| ChatHandler.UpstreamFailure | server/server.go:94-106 | an upstream failure adds exactly one error record after everything relayed, and exactly one `error` notice |
| ChatHandler.ErrorRecord | server/server.go:75-78 | the error record on the wire is `data: {"message": "Internal Server Error"}`, then `event: error`, then a blank line |
| ChatHandler.HealthyResponse | server/server.go:83-91 | when the connection accepts the whole stream, the client receives all of it with a flush at the end of every record |
| ChatHandler.NothingAfterFailure | server/server.go:87-90 | once a record does not fit, nothing written after it reaches the client |
| ChatHandler.KeepsWriting | server/server.go:87-90 | after a failed write, the next event with a payload still makes exactly one write |
| InlineHandler.SendRecord | server/main.go:73-74 | one formatted write, its error ignored, then a flush regardless |
| InlineHandler.InlineStreamResponse | server/main.go:65-82 | one write and one flush per record: `data: <json>` and a blank line per relayed event, the error record per marshalling failure, and the error record after an upstream failure |
| InlineHandler.HandleChatInline | server/main.go:44-84 | the same decode gate, headers and upstream request as the later handler, with the inline framing of the stream |
| InlineHandler.InlineFlushes | server/main.go:69-80 | every record is flushed, after failed writes too: one flush per upstream event, plus one after an upstream failure |
| InlineHandler.InlineAgrees | server/main.go:73 | for a non-empty payload without line feeds, the inline record equals what `Event.Write` writes for an untyped event |
| InlineHandler.InlineErrorRecord | server/main.go:69 | the inline error record puts `event: error` first, so its bytes differ from the later server's; a reader dispatches the same `error` event for both |
| InlineHandler.InlineReadResponse | server/main.go:65-82 | for one-line payloads, a client reads exactly the notifications, the same as from the later server |
| InlineHandler.InlineNewline | server/main.go:73 | for any bytes `a` and `b` (neither a line ending, `b` not a colon), the payload `a` LF `b` is read back from the inline record as `a` alone, and from `Event.Write`'s record as itself |
| InlineHandler.InlineTypeChanged | server/main.go:73 | a line feed in the payload can also change the event's type: the payload `a` LF `event: t` is read back from the inline record as an event of type `t` holding `a`, and from `Event.Write`'s record as the `message` event written |
| InlineHandler.InlineEmptyPayload | server/main.go:73 | an empty payload is read as an empty `message` event, while `Event.Write` writes nothing |
| StreamReducer.Step | ui/src/lib/chat.svelte.ts:32-50 | one event never removes a message or changes a role, adds at most one message, and changes no message other than the last; the text of a message only grows |
| StreamReducer.RunExtends | ui/src/lib/chat.svelte.ts:32-50 | over any sequence of events, messages are only appended and text is only added at the end of a message, so the count never decreases |
| StreamReducer.ParseFailureIgnored | ui/src/lib/chat.svelte.ts:33-49 | data that does not parse changes neither the messages nor the current block |
| StreamReducer.MessageStartAppends | ui/src/lib/chat.svelte.ts:36-37 | `message_start` with a message appends exactly one empty assistant message and changes nothing else; without a message it changes nothing |
| StreamReducer.BlockStartSets | ui/src/lib/chat.svelte.ts:38-39 | `content_block_start` with a block makes it the current block and leaves the messages unchanged; without a block it changes nothing |
| StreamReducer.MessageStopCloses | ui/src/lib/chat.svelte.ts:44-45 | `message_stop` clears the current block and leaves the messages unchanged |
| StreamReducer.DeltaAppends | ui/src/lib/chat.svelte.ts:40-43 | a text delta in a text block appends the delta's text to the last message; the count, the other messages and the current block stay as they were |
| StreamReducer.DeltaIgnored | ui/src/lib/chat.svelte.ts:40-41 | a delta with no current block, a non-text block, or no delta changes nothing |
| StreamReducer.OtherIgnored | ui/src/lib/chat.svelte.ts:36-46 | an event of any other type changes nothing |
| StreamReducer.NoBlockNoText | ui/src/lib/chat.svelte.ts:38-45 | outside a content block, until one is opened, no text reaches any message; the only change is new empty assistant messages |
| StreamReducer.IgnoredAfterStop | ui/src/lib/chat.svelte.ts:44-45 | after `message_stop`, deltas are ignored until the next `content_block_start` |
| StreamReducer.RunDeltas | ui/src/lib/chat.svelte.ts:40-43 | in a text block, a run of deltas appends their texts, in order, to the last message |
| StreamReducer.AssistantTurn | ui/src/lib/chat.svelte.ts:32-50 | a whole answer (start, text block, deltas, stop) adds one assistant message holding the deltas' text and leaves no block open |
| UiChat.ChatStore.constructor | ui/src/lib/chat.svelte.ts:4-6 | the store starts with no messages |
| UiChat.SendMessage | ui/src/lib/chat.svelte.ts:16-30 | the user's message is appended first, and the listeners start outside any content block |
| UiChat.Exchange.OnMessage | ui/src/lib/chat.svelte.ts:32-50 | the `message` listener moves the messages and the current block exactly as `StreamReducer.Step` says, including when parsing fails |
| UiChat.Exchange.OnError | ui/src/lib/chat.svelte.ts:26-28 | the `error` listener leaves the messages and the current block unchanged |
| WebChat.ChatStore.constructor | web/src/lib/chat.svelte.ts:4-7 | the store starts with no messages and no errors |
| WebChat.SendMessage | web/src/lib/chat.svelte.ts:12-27 | the user's message is appended first, the errors are untouched, and the listeners start outside any content block |
| WebChat.Exchange.OnMessage | web/src/lib/chat.svelte.ts:29-47 | the `message` listener moves the messages and the current block as `StreamReducer.Step` says, and never touches the errors |
| WebChat.Exchange.OnError | web/src/lib/chat.svelte.ts:22-25 | a parsed error appends its message to the errors; a parse failure ends the listener with nothing changed; the messages are never touched |

## Left out

- Routing, middleware, CORS and start-up (server/server.go:27-45, and `main` in
  server/main.go). They are glue.
- ui/embed.go (static file serving). It has no logic beyond a path rewrite.
- The provider client (`ChatStream`). It is replaced by its observable outcome: one
  marshalling outcome per event, in delivery order, and whether the call failed. The
  request sent upstream is returned as a value, not sent anywhere.
- `json.Marshal`, `json.NewDecoder`, `JSON.parse` and `JSON.stringify` are not modelled.
  Their outcomes are inputs.
  - `encoding/json` output holds no raw CR or LF and is never empty. The read-back lemmas
    take this as a precondition (`InlineHandler.OneLine`, and the CR-free payloads of
    `ChatHandler.ReadResponse`); it is not proved.
  - Go's decoder accepts any JSON object as a request, including one with no `message`
    field. The model only distinguishes decoded from not decoded.
- Logging, `toast`, `console.error`: output with no state. They are omitted.
- `net/http` itself is only partly modelled:
  - The implicit 200 status on the first write is not set.
  - Headers set after the first write still change the map.
  - Header deletion in `http.Error` is not modelled.
  - Flushing cannot fail.
  - The only failure is a connection that stops accepting bytes. A write that fails
    without delivering what fits is not modelled.
- The reader in `EventStream` works on bytes. It does no UTF-8 decoding and does not strip
  a leading byte order mark. It ignores the `id` and `retry` fields, the last event ID and
  reconnection. The server never writes those fields, and its payloads are JSON, which is
  UTF-8. The read-back results therefore hold byte for byte only for such payloads.
- The `sse.js` library, Svelte `$state` reactivity, and the API address
  `env.PUBLIC_CHAT_API`. The listeners are methods called with the parsed data. The
  request the clients post (`max_tokens` included) is not modelled.
- Identity and aliasing. Messages are values in a sequence, and the in-place `+=` on the
  last message object is an update of that sequence. Nothing else holds those objects.
- StreamReducer.StreamEvent: `delta.text` is always a string. A delta object without
  `text` would append the text `undefined`, and that is not modelled. The `message` part is
  only tested for presence.
- WebChat.Exchange.OnError: the parsed error's `message` is always a string. An error
  object without it would push `undefined`. A client-side connection error whose data does
  not parse is modelled as a parse failure.
- Concurrency and request cancellation. The callback is called sequentially, one event at
  a time, so the model is a sequential loop.
