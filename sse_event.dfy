/** The server-sent event record and its writer (`Event` and `Event.Write` in
    server/server.go): one `data: ` line per line of the payload, an optional `event: `
    line after them, and a blank line that ends the record; nothing at all for an empty
    payload. */
module SseEvent {
  import opened Bytes
  import opened EventStream
  import Http

  /** An event: its type (empty for the default type) and its payload. */
  datatype Event = Event(eventType: seq<byte>, data: seq<byte>)

  const DATA_PREFIX: seq<byte> := DATA_FIELD + [COLON, SPACE]
  const EVENT_PREFIX: seq<byte> := EVENT_FIELD + [COLON, SPACE]

  /** The lines of the record after its data lines: the `event: ` line when there is a type,
      then the blank line that ends the record. */
  function EndLines(e: Event): seq<seq<byte>>
  {
    (if e.eventType == [] then [] else [EVENT_PREFIX + e.eventType]) + [[]]
  }

  /** The lines of the record for `e`, without their line feeds. */
  function Lines(e: Event): seq<seq<byte>>
  {
    if e.data == [] then [] else Prefixed(DATA_PREFIX, Split(e.data, LF)) + EndLines(e)
  }

  /** The chunks of the data lines: one `data: ` line per piece of the payload. */
  function DataChunks(pieces: seq<seq<byte>>): seq<seq<byte>>
  {
    Terminated(Prefixed(DATA_PREFIX, pieces))
  }

  /** The chunks after the data lines. */
  function EndChunks(e: Event): seq<seq<byte>>
  {
    (if e.eventType == [] then [] else [EVENT_PREFIX + e.eventType + [LF]]) + [[LF]]
  }

  /** The output of each `Fprintf` that `Write` makes, in order. */
  function Chunks(e: Event): seq<seq<byte>>
  {
    if e.data == [] then [] else DataChunks(Split(e.data, LF)) + EndChunks(e)
  }

  /** The bytes `Write` puts on a writer that accepts them all. */
  function Record(e: Event): seq<byte>
  {
    Flatten(Chunks(e))
  }

  /** The events a conforming reader dispatches for the record of `e`: none for an empty
      payload, otherwise one, with the default type `message` when `e` names none. */
  function DispatchedAs(e: Event): seq<Dispatched>
  {
    if e.data == [] then []
    else [Dispatched(if e.eventType == [] then MESSAGE_TYPE else e.eventType, e.data)]
  }

  /** An event a reader can read back: no line ending in the payload other than LF, none at
      all in the type. */
  ghost predicate Readable(e: Event)
  {
    CR !in e.data && IsLine(e.eventType)
  }

  /** Each chunk is one line of the record followed by a line feed. */
  lemma ChunksAreLines(e: Event)
    ensures Chunks(e) == Terminated(Lines(e))
    ensures Record(e) == Unlines(Lines(e))
  {
    if e.data != [] {
      var dataLines := Prefixed(DATA_PREFIX, Split(e.data, LF));
      TerminatedAppend(dataLines, EndLines(e));
      var blank: seq<seq<byte>> := [[]];
      assert blank[1..] == [] && [] + [LF] == [LF];
      assert Terminated(blank) == [[LF]];
      if e.eventType != [] {
        var line := EVENT_PREFIX + e.eventType;
        assert EndLines(e) == [line] + blank;
        TerminatedAppend([line], blank);
      }
    }
  }

  /** Writing the data lines and then, when all of them went through, the lines after
      them, is writing the whole record: what the writer received, the budget it has left and
      the writes made are those of the record's chunks. */
  lemma WriteOutcome(e: Event, body0: seq<byte>, budget: nat, calls0: nat,
                     dataOk: bool, body1: seq<byte>, left1: nat, calls1: nat,
                     ok: bool, body: seq<byte>, left: nat, calls: nat)
    requires e.data != []
    requires var d := DataChunks(Split(e.data, LF));
      && (dataOk <==> |Flatten(d)| <= budget)
      && body1 == body0 + Http.Deliver(Flatten(d), budget)
      && left1 == Http.Remaining(Flatten(d), budget)
      && calls1 == calls0 + Http.CallsIssued(d, budget)
    requires !dataOk ==> !ok && body == body1 && left == left1 && calls == calls1
    requires dataOk ==> var t := EndChunks(e);
      && (ok <==> |Flatten(t)| <= left1)
      && body == body1 + Http.Deliver(Flatten(t), left1)
      && left == Http.Remaining(Flatten(t), left1)
      && calls == calls1 + Http.CallsIssued(t, left1)
    ensures ok <==> |Record(e)| <= budget
    ensures body == body0 + Http.Deliver(Record(e), budget)
    ensures left == Http.Remaining(Record(e), budget)
    ensures calls == calls0 + Http.CallsIssued(Chunks(e), budget)
  {
    var d := DataChunks(Split(e.data, LF));
    var t := EndChunks(e);
    Http.WriteSequence(d, t, budget);
    if dataOk {
      Http.WritesDone(d, budget);
    }
  }

  /** The writes of the chunks after the data lines, from a writer with `budget` bytes left:
      the blank line alone, or the event line and then the blank line. */
  lemma EndWrites(e: Event, budget: nat)
    ensures e.eventType == [] ==>
      Flatten(EndChunks(e)) == [LF] && Http.CallsIssued(EndChunks(e), budget) == 1
    ensures e.eventType != [] ==>
      var line := EVENT_PREFIX + e.eventType + [LF];
      var left := Http.Remaining(line, budget);
      && Flatten(EndChunks(e)) == line + [LF]
      && Http.Deliver(Flatten(EndChunks(e)), budget) == Http.Deliver(line, budget) + Http.Deliver([LF], left)
      && Http.Remaining(Flatten(EndChunks(e)), budget) == Http.Remaining([LF], left)
      && Http.CallsIssued(EndChunks(e), budget) == if |line| <= budget then 2 else 1
  {
    var blank: seq<seq<byte>> := [[LF]];
    assert Flatten(blank) == [LF] + Flatten([]);
    assert Http.CallsIssued(blank, budget) == 1;
    if e.eventType != [] {
      var line := EVENT_PREFIX + e.eventType + [LF];
      assert Flatten([line]) == line + Flatten([]);
      Http.WriteSequence([line], blank, budget);
      assert [line] + blank == EndChunks(e);
    }
  }

  lemma DataChunkAt(pieces: seq<seq<byte>>, i: nat)
    requires i < |pieces|
    ensures DataChunks(pieces)[i] == DATA_PREFIX + pieces[i] + [LF]
  {
    TerminatedAt(Prefixed(DATA_PREFIX, pieces), i);
    PrefixedAt(DATA_PREFIX, pieces, i);
  }

  /** The loop over the payload's pieces in `Event.Write`: one `data: ` line per piece,
      stopping at the first write that fails. */
  method WriteData(pieces: seq<seq<byte>>, w: Http.ResponseWriter) returns (ok: bool)
    modifies w`body, w`budget, w`calls
    ensures ok <==> |Flatten(DataChunks(pieces))| <= old(w.budget)
    ensures w.body == old(w.body) + Http.Deliver(Flatten(DataChunks(pieces)), old(w.budget))
    ensures w.budget == Http.Remaining(Flatten(DataChunks(pieces)), old(w.budget))
    ensures w.calls == old(w.calls) + Http.CallsIssued(DataChunks(pieces), old(w.budget))
  {
    ghost var chunks := DataChunks(pieces);
    ghost var budget := w.budget;
    for i := 0 to |pieces|
      invariant |Flatten(chunks[..i])| <= budget
      invariant w.body == old(w.body) + Flatten(chunks[..i])
      invariant w.budget == budget - |Flatten(chunks[..i])|
      invariant w.calls == old(w.calls) + i
    {
      DataChunkAt(pieces, i);
      ok := w.Write(DATA_PREFIX + pieces[i] + [LF]);
      Http.WriteStepOutcome(chunks, i, budget, old(w.body), old(w.calls), w.body, w.budget, w.calls);
      if !ok {
        return;
      }
    }
    Http.WritesDoneOutcome(chunks, budget, old(w.body), old(w.calls), w.body, w.budget, w.calls);
    ok := true;
  }

  /** The writes after the data lines in `Event.Write`: the `event: ` line when there is a
      type, then the blank line, stopping at the first write that fails. */
  method WriteEnd(e: Event, w: Http.ResponseWriter) returns (ok: bool)
    modifies w`body, w`budget, w`calls
    ensures ok <==> |Flatten(EndChunks(e))| <= old(w.budget)
    ensures w.body == old(w.body) + Http.Deliver(Flatten(EndChunks(e)), old(w.budget))
    ensures w.budget == Http.Remaining(Flatten(EndChunks(e)), old(w.budget))
    ensures w.calls == old(w.calls) + Http.CallsIssued(EndChunks(e), old(w.budget))
  {
    EndWrites(e, w.budget);
    ghost var eventLine := EVENT_PREFIX + e.eventType + [LF];
    if |e.eventType| > 0 {
      var line := EVENT_PREFIX + e.eventType + [LF];
      ok := w.Write(line);
      if !ok {
        assert Http.Deliver([LF], 0) == [];
        assert w.body == old(w.body) + (Http.Deliver(line, old(w.budget)) + Http.Deliver([LF], 0));
        return;
      }
    }
    ok := w.Write([LF]);
    if |e.eventType| > 0 {
      assert w.body == old(w.body) + (Http.Deliver(eventLine, old(w.budget))
                                      + Http.Deliver([LF], Http.Remaining(eventLine, old(w.budget))));
    }
  }

  /** `Event.Write`: writes the record chunk by chunk and stops at the first write that
      fails, returning its error. The writer receives the part of the record its budget
      allows, and it is the whole record exactly when no write failed. */
  method Write(e: Event, w: Http.ResponseWriter) returns (ok: bool)
    modifies w`body, w`budget, w`calls
    ensures ok <==> |Record(e)| <= old(w.budget)
    ensures w.body == old(w.body) + Http.Deliver(Record(e), old(w.budget))
    ensures w.budget == Http.Remaining(Record(e), old(w.budget))
    ensures w.calls == old(w.calls) + Http.CallsIssued(Chunks(e), old(w.budget))
  {
    if |e.data| == 0 {
      return true;
    }
    var sd := Split(e.data, LF);
    ghost var budget := w.budget;
    ok := WriteData(sd, w);
    ghost var body1, left1, calls1 := w.body, w.budget, w.calls;
    if !ok {
      WriteOutcome(e, old(w.body), budget, old(w.calls), false, body1, left1, calls1,
                   ok, w.body, w.budget, w.calls);
      return;
    }
    ok := WriteEnd(e, w);
    WriteOutcome(e, old(w.body), budget, old(w.calls), true, body1, left1, calls1,
                 ok, w.body, w.budget, w.calls);
  }

  /** A write that fails leaves the writer holding a strict prefix of the record, and the
      write that failed is the last one made: every write before it went through. */
  lemma FailedWrite(e: Event, budget: nat)
    requires !(|Record(e)| <= budget)
    ensures Http.Deliver(Record(e), budget) < Record(e)
    ensures var n := Http.CallsIssued(Chunks(e), budget);
      && 0 < n <= |Chunks(e)|
      && |Flatten(Chunks(e)[..n - 1])| <= budget < |Flatten(Chunks(e)[..n])|
  {
    Http.DeliverPrefix(Record(e), budget);
    Http.CallsIssuedStop(Chunks(e), budget);
  }

  /** Writing an event with an empty payload emits nothing, whatever its type, and an event
      with a payload emits a record that ends with a line feed. */
  lemma EmptyPayload(e: Event)
    ensures e.data == [] <==> Record(e) == []
    ensures e.data != [] ==> Record(e)[|Record(e)| - 1] == LF
  {
    if e.data != [] {
      ChunksAreLines(e);
      var lines := Lines(e);
      var n := |lines|;
      assert lines == lines[..n - 1] + [[]];
      UnlinesAppend(lines[..n - 1], [[]]);
      UnlinesCons([], []);
    }
  }

  /** Removing a prefix from lines that carry it, followed by lines that do not, gives back
      the lines as they were. */
  lemma {:induction false} StripPrefixed(prefix: seq<byte>, pieces: seq<seq<byte>>, others: seq<seq<byte>>)
    requires forall l | l in others :: !(|prefix| <= |l| && l[..|prefix|] == prefix)
    ensures StripPrefix(prefix, Prefixed(prefix, pieces) + others) == pieces
    decreases |pieces|
  {
    var ls := Prefixed(prefix, pieces) + others;
    if pieces == [] {
      assert ls == others;
      StripOthers(prefix, others);
    } else {
      assert ls[0] == prefix + pieces[0];
      assert ls[0][..|prefix|] == prefix && ls[0][|prefix|..] == pieces[0];
      assert ls[1..] == Prefixed(prefix, pieces[1..]) + others;
      StripPrefixed(prefix, pieces[1..], others);
    }
  }

  lemma {:induction false} StripOthers(prefix: seq<byte>, others: seq<seq<byte>>)
    requires forall l | l in others :: !(|prefix| <= |l| && l[..|prefix|] == prefix)
    ensures StripPrefix(prefix, others) == []
  {
    if others != [] {
      assert others[0] in others;
      StripOthers(prefix, others[1..]);
    }
  }

  /** A byte in none of the lines nor in the prefix is in none of the prefixed lines. */
  lemma {:induction false} PrefixedAvoids(prefix: seq<byte>, lines: seq<seq<byte>>, x: byte)
    requires x !in prefix
    requires forall l | l in lines :: x !in l
    ensures forall l | l in Prefixed(prefix, lines) :: x !in l
  {
    if lines != [] {
      assert lines[0] in lines;
      PrefixedAvoids(prefix, lines[1..], x);
    }
  }

  /** No line after the data lines starts with `data: `. */
  lemma EndLinesNotData(e: Event)
    ensures forall l | l in EndLines(e) :: !(|DATA_PREFIX| <= |l| && l[..|DATA_PREFIX|] == DATA_PREFIX)
  {
    forall l | l in EndLines(e)
      ensures !(|DATA_PREFIX| <= |l| && l[..|DATA_PREFIX|] == DATA_PREFIX)
    {
      if l != [] {
        assert l == EVENT_PREFIX + e.eventType;
        assert l[0] != DATA_PREFIX[0];
      }
    }
  }

  /** Round trip: removing the `data: ` prefix from the data lines and joining what remains
      with line feeds gives back the payload exactly. */
  lemma DataRoundTrip(e: Event)
    ensures Join(StripPrefix(DATA_PREFIX, Lines(e)), LF) == e.data
  {
    if e.data != [] {
      EndLinesNotData(e);
      StripPrefixed(DATA_PREFIX, Split(e.data, LF), EndLines(e));
      JoinSplit(e.data, LF);
    }
  }

  /** k line feeds in the payload give k + 1 data lines, the first k + 1 lines of the record,
      in the payload's order; a payload that ends with a line feed gives a last data line
      that is just `data: `. */
  lemma DataLines(e: Event)
    requires e.data != []
    ensures |StripPrefix(DATA_PREFIX, Lines(e))| == |Split(e.data, LF)| == Count(e.data, LF) + 1
    ensures forall i :: 0 <= i < |Split(e.data, LF)| ==>
      Lines(e)[i] == DATA_PREFIX + Split(e.data, LF)[i]
    ensures e.data[|e.data| - 1] == LF ==> Lines(e)[|Split(e.data, LF)| - 1] == DATA_PREFIX
  {
    var pieces := Split(e.data, LF);
    EndLinesNotData(e);
    StripPrefixed(DATA_PREFIX, pieces, EndLines(e));
    SplitCount(e.data, LF);
    forall i | 0 <= i < |pieces| ensures Lines(e)[i] == DATA_PREFIX + pieces[i] {
      PrefixedAt(DATA_PREFIX, pieces, i);
    }
    if e.data[|e.data| - 1] == LF {
      SplitTrailing(e.data, LF);
      PrefixedAt(DATA_PREFIX, pieces, |pieces| - 1);
      assert DATA_PREFIX + [] == DATA_PREFIX;
    }
  }

  /** The `event: ` line is there exactly when the type is not empty, and then it is the
      line after all the data lines and just before the blank line. */
  lemma EventLinePlacement(e: Event)
    ensures var lines := Lines(e);
      forall i | 0 <= i < |lines| ::
        (|EVENT_PREFIX| <= |lines[i]| && lines[i][..|EVENT_PREFIX|] == EVENT_PREFIX)
        <==> (e.eventType != [] && i == |lines| - 2)
  {
    var lines := Lines(e);
    var pieces := Split(e.data, LF);
    forall i | 0 <= i < |lines|
      ensures (|EVENT_PREFIX| <= |lines[i]| && lines[i][..|EVENT_PREFIX|] == EVENT_PREFIX)
              <==> (e.eventType != [] && i == |lines| - 2)
    {
      if i < |pieces| {
        PrefixedAt(DATA_PREFIX, pieces, i);
        assert lines[i] == DATA_PREFIX + pieces[i];
        assert lines[i][0] != EVENT_PREFIX[0];
      }
    }
  }

  /** Lines without line feeds, each followed by one, split at line feeds into those lines
      and an empty piece after the last line feed. */
  lemma {:induction false} SplitUnlinesLF(lines: seq<seq<byte>>)
    requires forall l | l in lines :: LF !in l
    ensures Split(Unlines(lines), LF) == lines + [[]]
  {
    var s := Unlines(lines);
    if lines == [] {
      assert Split(s, LF) == [[]];
    } else {
      UnlinesCons(lines[0], lines[1..]);
      assert lines == [lines[0]] + lines[1..];
      var rest := Unlines(lines[1..]);
      assert s == lines[0] + [LF] + rest;
      var n := |lines[0]|;
      assert lines[0] in lines;
      assert s[n] == LF;
      assert IndexOf(s, LF) == n;
      assert s[..n] == lines[0] && s[n + 1..] == rest;
      SplitUnlinesLF(lines[1..]);
    }
  }

  /** Every record ends with exactly one blank line: cut at its line feeds, the record is
      its lines followed by nothing, and only the last of its lines is empty (every data line
      carries the `data: ` prefix, even an empty one). */
  lemma SingleBlankLine(e: Event)
    requires e.data != [] && LF !in e.eventType
    ensures Split(Record(e), LF) == Lines(e) + [[]]
    ensures forall i | 0 <= i < |Lines(e)| :: Lines(e)[i] == [] <==> i == |Lines(e)| - 1
  {
    var lines := Lines(e);
    var pieces := Split(e.data, LF);
    SplitPieces(e.data, LF);
    PrefixedAvoids(DATA_PREFIX, pieces, LF);
    ChunksAreLines(e);
    SplitUnlinesLF(lines);
    forall i | 0 <= i < |lines| ensures lines[i] == [] <==> i == |lines| - 1 {
      if i < |pieces| {
        PrefixedAt(DATA_PREFIX, pieces, i);
      }
    }
  }

  /** A reader reads the data lines of `pieces` into its data buffer, each followed by a line
      feed, and dispatches nothing. */
  lemma {:induction false} ReadDataLines(b: Buffers, pieces: seq<seq<byte>>)
    ensures ProcessLines(b, Prefixed(DATA_PREFIX, pieces))
         == Progress(b.(data := b.data + Unlines(pieces)), [])
    decreases |pieces|
  {
    if pieces != [] {
      var lines := Prefixed(DATA_PREFIX, pieces);
      FieldLine(DATA_FIELD, pieces[0]);
      var b1 := b.(data := b.data + pieces[0] + [LF]);
      assert ProcessLine(b, lines[0]) == Progress(b1, []);
      ReadDataLines(b1, pieces[1..]);
      UnlinesCons(pieces[0], pieces[1..]);
      assert pieces == [pieces[0]] + pieces[1..];
    }
  }

  /** The lines of a readable event's record hold no line ending, so a reader sees them as
      written. */
  lemma LinesAreLines(e: Event)
    requires Readable(e)
    ensures forall l | l in Lines(e) :: IsLine(l)
  {
    if e.data != [] {
      var pieces := Split(e.data, LF);
      SplitPieces(e.data, LF);
      PrefixedAvoids(DATA_PREFIX, pieces, LF);
      PrefixedAvoids(DATA_PREFIX, pieces, CR);
      forall l | l in EndLines(e) ensures IsLine(l) {
        if l != [] {
          assert l == EVENT_PREFIX + e.eventType;
        }
      }
    }
  }

  /** The lines after the data lines, read with `data` (ending in a line feed) in the data
      buffer and no type: the event is dispatched with the type of the record or `message`,
      and the buffers are emptied. */
  lemma ReadEndLines(e: Event, data: seq<byte>)
    requires data != []
    ensures ProcessLines(Buffers(data, []), EndLines(e))
         == Progress(EMPTY, [Dispatched(if e.eventType == [] then MESSAGE_TYPE else e.eventType,
                                        data[..|data| - 1])])
  {
    var b1 := Buffers(data, []);
    var blank: seq<seq<byte>> := [[]];
    if e.eventType == [] {
      assert EndLines(e) == blank;
      assert blank[1..] == [];
    } else {
      var line := EVENT_PREFIX + e.eventType;
      assert EndLines(e) == [line] + blank;
      FieldLine(EVENT_FIELD, e.eventType);
      assert ProcessLine(b1, line) == Progress(Buffers(data, e.eventType), []);
      assert ([line] + blank)[1..] == blank;
      assert blank[1..] == [];
    }
  }

  /** Read from empty buffers, the lines of a record dispatch exactly the written event and
      leave the buffers empty again. */
  lemma ReadRecordLines(e: Event)
    ensures ProcessLines(EMPTY, Lines(e)) == Progress(EMPTY, DispatchedAs(e))
  {
    if e.data != [] {
      var pieces := Split(e.data, LF);
      ReadDataLines(EMPTY, pieces);
      assert EMPTY.(data := EMPTY.data + Unlines(pieces)) == Buffers(Unlines(pieces), []);
      ProcessLinesAppend(EMPTY, Prefixed(DATA_PREFIX, pieces), EndLines(e));
      UnlinesJoin(pieces);
      JoinSplit(e.data, LF);
      var data := Unlines(pieces);
      assert data == e.data + [LF];
      assert data[..|data| - 1] == e.data;
      ReadEndLines(e, data);
    }
  }

  /** Round trip through a conforming reader: the record of a readable event is read back as
      exactly that event (its payload byte for byte, its type or `message`), and the record of
      an event with an empty payload as nothing. */
  lemma ReadBack(e: Event)
    requires Readable(e)
    ensures Interpret(Record(e)) == DispatchedAs(e)
  {
    ChunksAreLines(e);
    LinesAreLines(e);
    SplitUnlines(Lines(e));
    ReadRecordLines(e);
  }

  /** The record of a one-line payload with a type: its data line, its event line, and the
      blank line. */
  lemma SingleLineRecord(e: Event)
    requires e.data != [] && e.eventType != [] && LF !in e.data
    ensures Record(e) == DATA_PREFIX + e.data + [LF] + EVENT_PREFIX + e.eventType + [LF] + [LF]
  {
    SplitWhole(e.data, LF);
    var line := DATA_PREFIX + e.data;
    assert Prefixed(DATA_PREFIX, [e.data]) == [line];
    assert Terminated([line]) == [line + [LF]];
    var chunks := [line + [LF], EVENT_PREFIX + e.eventType + [LF], [LF]];
    assert Chunks(e) == chunks;
    assert chunks[1..][1..] == [chunks[2]] && chunks[1..][1..][1..] == [];
    assert Flatten([chunks[2]]) == chunks[2];
    assert Flatten(chunks[1..]) == chunks[1] + chunks[2];
    assert Flatten(chunks) == chunks[0] + (chunks[1] + chunks[2]);
  }

  /** A reader takes the line after a line ending inside a `data` line as a field of its
      own: `b` names no field it knows, so only `a` is dispatched. */
  lemma StrayLineRead(a: byte, b: byte)
    requires b != COLON
    ensures ProcessLines(EMPTY, [DATA_PREFIX + [a], [b], []]).events == [Dispatched(MESSAGE_TYPE, [a])]
  {
    var lines: seq<seq<byte>> := [DATA_PREFIX + [a], [b], []];
    assert COLON !in DATA_FIELD;
    FieldLine(DATA_FIELD, [a]);
    var b1 := Buffers([a, LF], []);
    assert ProcessLine(EMPTY, lines[0]) == Progress(b1, []);
    assert FieldName([b]) == [b];
    assert ProcessLine(b1, lines[1]) == Progress(b1, []);
    assert b1.data[..|b1.data| - 1] == [a];
    assert ProcessLine(b1, []) == Progress(EMPTY, [Dispatched(MESSAGE_TYPE, [a])]);
    assert lines[1..][1..] == [[]] && lines[1..][1..][1..] == [];
    assert ProcessLines(b1, lines[1..][1..]) == Progress(EMPTY, [Dispatched(MESSAGE_TYPE, [a])]);
  }

  /** `Write` splits the payload at LF only, but a reader also ends a line at a lone CR:
      what follows a CR in the payload is read as a line of its own and lost, so the
      reader dispatches something other than the event written. */
  lemma CarriageReturnLost(a: byte, b: byte)
    requires a != LF && a != CR && b != LF && b != CR && b != COLON
    ensures Interpret(Record(Event([], [a, CR, b]))) == [Dispatched(MESSAGE_TYPE, [a])]
    ensures Interpret(Record(Event([], [a, CR, b]))) != DispatchedAs(Event([], [a, CR, b]))
  {
    CarriageReturnLines(a, b);
    StrayLineRead(a, b);
  }

  /** The lines a reader sees in the record of the payload `a` CR `b`. */
  lemma CarriageReturnLines(a: byte, b: byte)
    requires a != LF && a != CR && b != LF && b != CR
    ensures SplitLines(Record(Event([], [a, CR, b]))) == [DATA_PREFIX + [a], [b], []]
  {
    var first := DATA_PREFIX + [a];
    UntypedLineRecord([a, CR, b]);
    CarriageReturnSplit(DATA_PREFIX, a, b);
    assert IsLine(first) by {
      assert IsLine(DATA_PREFIX);
    }
    var rest: seq<byte> := [b, LF, LF];
    assert Record(Event([], [a, CR, b])) == first + [CR] + rest;
    SplitLinesCR(first, rest);
    UnlinesTwo([b], []);
    assert Unlines([[b], []]) == rest;
    SplitUnlines([[b], []]);
    assert SplitLines(rest) == [[b], []];
  }

  lemma CarriageReturnSplit(prefix: seq<byte>, a: byte, b: byte)
    ensures prefix + [a, CR, b] + [LF] + [LF] == (prefix + [a]) + [CR] + [b, LF, LF]
  {
  }

  /** The record of an untyped one-line payload: its `data` line and the blank line. */
  lemma UntypedLineRecord(data: seq<byte>)
    requires data != [] && LF !in data
    ensures Record(Event([], data)) == DATA_PREFIX + data + [LF] + [LF]
  {
    var e := Event([], data);
    SplitWhole(data, LF);
    assert Prefixed(DATA_PREFIX, [data]) == [DATA_PREFIX + data];
    assert Lines(e) == [DATA_PREFIX + data, []];
    ChunksAreLines(e);
    UnlinesTwo(DATA_PREFIX + data, []);
  }

  /** The record of each event, in order. */
  function Records(events: seq<Event>): (r: seq<seq<byte>>)
    ensures |r| == |events|
  {
    if events == [] then [] else [Record(events[0])] + Records(events[1..])
  }

  lemma {:induction false} RecordsAppend(a: seq<Event>, b: seq<Event>)
    ensures Records(a + b) == Records(a) + Records(b)
  {
    if a == [] {
      assert a + b == b;
    } else {
      assert (a + b)[1..] == a[1..] + b;
      RecordsAppend(a[1..], b);
    }
  }

  /** The bytes of several records written one after the other. */
  function Stream(events: seq<Event>): seq<byte>
  {
    Flatten(Records(events))
  }

  /** The stream of two runs of events is the stream of the first, then of the second. */
  lemma StreamAppend(a: seq<Event>, b: seq<Event>)
    ensures Stream(a + b) == Stream(a) + Stream(b)
  {
    RecordsAppend(a, b);
    FlattenAppend(Records(a), Records(b));
  }

  /** What the reader dispatches for each event, one after the other. */
  function AllDispatched(events: seq<Event>): seq<Dispatched>
  {
    if events == [] then [] else DispatchedAs(events[0]) + AllDispatched(events[1..])
  }

  /** The lines of each event's record. */
  function RecordsLines(events: seq<Event>): seq<seq<seq<byte>>>
  {
    if events == [] then [] else [Lines(events[0])] + RecordsLines(events[1..])
  }

  lemma {:induction false} StreamFrames(events: seq<Event>)
    ensures Stream(events) == Unlines(Frames(RecordsLines(events)))
  {
    if events != [] {
      ChunksAreLines(events[0]);
      StreamFrames(events[1..]);
      UnlinesAppend(Lines(events[0]), Frames(RecordsLines(events[1..])));
    }
  }

  lemma {:induction false} RecordsRead(events: seq<Event>)
    requires forall e | e in events :: Readable(e)
    ensures forall r, l | r in RecordsLines(events) && l in r :: IsLine(l)
    ensures forall r | r in RecordsLines(events) :: ProcessLines(EMPTY, r).buffers == EMPTY
    ensures FrameEvents(RecordsLines(events)) == AllDispatched(events)
  {
    if events != [] {
      assert events[0] in events;
      LinesAreLines(events[0]);
      ReadRecordLines(events[0]);
      RecordsRead(events[1..]);
    }
  }

  /** A stream of records is read back as their events, in order: records never run into
      each other, because each leaves the reader's buffers empty. */
  lemma StreamReadBack(events: seq<Event>)
    requires forall e | e in events :: Readable(e)
    ensures Interpret(Stream(events)) == AllDispatched(events)
  {
    StreamFrames(events);
    RecordsRead(events);
    InterpretFrames(RecordsLines(events));
  }
}
