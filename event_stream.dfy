/** How a client reads an event stream: the algorithm of section 9.2.6, "Interpreting an
    event stream", of the WHATWG HTML Living Standard, over bytes. This is the reference
    the server's framing is checked against: a record is right when a conforming reader
    dispatches exactly the event that was written. */
module EventStream {
  import opened Bytes

  const COLON: byte := 58
  const SPACE: byte := 32

  /** The field names `data` and `event`, as ASCII bytes. */
  const DATA_FIELD: seq<byte> := [100, 97, 116, 97]
  const EVENT_FIELD: seq<byte> := [101, 118, 101, 110, 116]
  /** The type a dispatched event gets when the record names none: `message`. */
  const MESSAGE_TYPE: seq<byte> := [109, 101, 115, 115, 97, 103, 101]

  /** An event as the reader dispatches it to the listeners of its type. */
  datatype Dispatched = Dispatched(eventType: seq<byte>, data: seq<byte>)

  /** The reader's data buffer and event type buffer. */
  datatype Buffers = Buffers(data: seq<byte>, eventType: seq<byte>)

  const EMPTY: Buffers := Buffers([], [])

  /** The buffers after some lines, and the events those lines dispatched. */
  datatype Progress = Progress(buffers: Buffers, events: seq<Dispatched>)

  /** The length of the first line of `s`: the index of its first CR or LF, or `|s|`. */
  function EndOfLine(s: seq<byte>): (i: nat)
    ensures i <= |s|
    ensures forall k :: 0 <= k < i ==> s[k] != LF && s[k] != CR
    ensures i < |s| ==> s[i] == LF || s[i] == CR
  {
    if s == [] || s[0] == LF || s[0] == CR then 0
    else
      var j := EndOfLine(s[1..]);
      assert forall k :: 1 <= k < j + 1 ==> s[k] == s[1..][k - 1];
      1 + j
  }

  /** The complete lines of a stream. A line ends at CRLF, at LF or at CR; bytes after the
      last line ending form no line (the standard discards an unterminated last line). */
  function SplitLines(s: seq<byte>): seq<seq<byte>>
    decreases |s|
  {
    var i := EndOfLine(s);
    if i == |s| then []
    else if s[i] == CR && i + 1 < |s| && s[i + 1] == LF then [s[..i]] + SplitLines(s[i + 2..])
    else [s[..i]] + SplitLines(s[i + 1..])
  }

  /** The field name of a line: everything before its first colon, or the whole line. */
  function FieldName(line: seq<byte>): seq<byte>
  {
    line[..IndexOf(line, COLON)]
  }

  /** The field value of a line: everything after its first colon, less one leading space;
      empty when the line has no colon. */
  function FieldValue(line: seq<byte>): seq<byte>
  {
    var i := IndexOf(line, COLON);
    if i == |line| then []
    else
      var v := line[i + 1..];
      if v != [] && v[0] == SPACE then v[1..] else v
  }

  /** One line of the stream: a blank line dispatches the buffered event (when there is
      data) and empties the buffers; a line that starts with a colon is a comment; a `data`
      field appends its value and a line feed to the data buffer; an `event` field sets the
      event type buffer; any other field is ignored. */
  function ProcessLine(b: Buffers, line: seq<byte>): Progress
  {
    if line == [] then
      if b.data == [] then Progress(EMPTY, [])
      else
        var eventType := if b.eventType == [] then MESSAGE_TYPE else b.eventType;
        Progress(EMPTY, [Dispatched(eventType, b.data[..|b.data| - 1])])
    else if line[0] == COLON then Progress(b, [])
    else if FieldName(line) == DATA_FIELD then
      Progress(b.(data := b.data + FieldValue(line) + [LF]), [])
    else if FieldName(line) == EVENT_FIELD then
      Progress(b.(eventType := FieldValue(line)), [])
    else Progress(b, [])
  }

  function ProcessLines(b: Buffers, lines: seq<seq<byte>>): Progress
    decreases |lines|
  {
    if lines == [] then Progress(b, [])
    else
      var p := ProcessLine(b, lines[0]);
      var q := ProcessLines(p.buffers, lines[1..]);
      Progress(q.buffers, p.events + q.events)
  }

  /** The events a reader dispatches from a whole stream. What is still buffered when the
      stream ends is discarded, as the standard requires. */
  function Interpret(stream: seq<byte>): seq<Dispatched>
  {
    ProcessLines(EMPTY, SplitLines(stream)).events
  }

  /** A line the reader sees as one line: it holds no line ending. */
  ghost predicate IsLine(line: seq<byte>)
  {
    LF !in line && CR !in line
  }

  /** Lines written out with LF endings are read back as the same lines. */
  lemma {:induction false} SplitUnlines(lines: seq<seq<byte>>)
    requires forall l | l in lines :: IsLine(l)
    ensures SplitLines(Unlines(lines)) == lines
  {
    if lines != [] {
      var s := Unlines(lines);
      var rest := Unlines(lines[1..]);
      UnlinesCons(lines[0], lines[1..]);
      assert lines == [lines[0]] + lines[1..];
      assert s == lines[0] + [LF] + rest;
      var i := EndOfLine(s);
      var n := |lines[0]|;
      assert s[n] == LF;
      assert lines[0] in lines;
      assert i == n;
      assert s[..i] == lines[0];
      assert s[i + 1..] == rest;
      SplitUnlines(lines[1..]);
    }
  }

  /** A lone CR ends a line just as LF does: a line followed by a CR that is not part of a
      CRLF pair is read as that line, and reading goes on after the CR. */
  lemma SplitLinesCR(line: seq<byte>, rest: seq<byte>)
    requires IsLine(line)
    requires rest == [] || rest[0] != LF
    ensures SplitLines(line + [CR] + rest) == [line] + SplitLines(rest)
  {
    var s := line + [CR] + rest;
    var n := |line|;
    assert s[n] == CR;
    assert forall k | 0 <= k < n :: s[k] == line[k];
    assert EndOfLine(s) == n;
    assert s[..n] == line;
    assert s[n + 1..] == rest;
  }

  /** Reading two runs of lines one after the other. */
  lemma {:induction false} ProcessLinesAppend(b: Buffers, xs: seq<seq<byte>>, ys: seq<seq<byte>>)
    ensures var p := ProcessLines(b, xs);
            var q := ProcessLines(p.buffers, ys);
            ProcessLines(b, xs + ys) == Progress(q.buffers, p.events + q.events)
    decreases |xs|
  {
    if xs == [] {
      assert xs + ys == ys;
    } else {
      assert (xs + ys)[1..] == xs[1..] + ys;
      ProcessLinesAppend(ProcessLine(b, xs[0]).buffers, xs[1..], ys);
    }
  }

  /** A line that starts with a field name without colons, then a colon and a space, is read
      as that field with the rest of the line as its value. */
  lemma {:induction false} FieldLine(name: seq<byte>, value: seq<byte>)
    requires COLON !in name
    ensures FieldName(name + [COLON, SPACE] + value) == name
    ensures FieldValue(name + [COLON, SPACE] + value) == value
  {
    var line := name + [COLON, SPACE] + value;
    var i := IndexOf(line, COLON);
    var n := |name|;
    assert line[n] == COLON;
    assert i == n;
    assert line[..n] == name;
    assert line[n + 1..] == [SPACE] + value;
  }

  /** A sequence of stream records, each given as its lines, read one after the other; each
      record leaves the reader with empty buffers. */
  function Frames(records: seq<seq<seq<byte>>>): seq<seq<byte>>
  {
    if records == [] then [] else records[0] + Frames(records[1..])
  }

  /** The events the records dispatch when each is read from empty buffers. */
  function FrameEvents(records: seq<seq<seq<byte>>>): seq<Dispatched>
  {
    if records == [] then []
    else ProcessLines(EMPTY, records[0]).events + FrameEvents(records[1..])
  }

  /** Records that each end with the reader's buffers empty are read independently: the
      stream of all of them dispatches each record's events in order. */
  lemma {:induction false} ProcessFrames(records: seq<seq<seq<byte>>>)
    requires forall r | r in records :: ProcessLines(EMPTY, r).buffers == EMPTY
    ensures ProcessLines(EMPTY, Frames(records)) == Progress(EMPTY, FrameEvents(records))
  {
    if records != [] {
      ProcessLinesAppend(EMPTY, records[0], Frames(records[1..]));
      assert records[0] in records;
      ProcessFrames(records[1..]);
    }
  }

  lemma {:induction false} FramesAreLines(records: seq<seq<seq<byte>>>)
    requires forall r, l | r in records && l in r :: IsLine(l)
    ensures forall l | l in Frames(records) :: IsLine(l)
  {
    if records != [] {
      assert records[0] in records;
      FramesAreLines(records[1..]);
    }
  }

  /** Reading written records back: records whose lines hold no line ending, each of which
      leaves the reader's buffers empty, written one after the other with LF line endings,
      make a stream that dispatches every record's events in order. */
  lemma InterpretFrames(records: seq<seq<seq<byte>>>)
    requires forall r, l | r in records && l in r :: IsLine(l)
    requires forall r | r in records :: ProcessLines(EMPTY, r).buffers == EMPTY
    ensures Interpret(Unlines(Frames(records))) == FrameEvents(records)
  {
    FramesAreLines(records);
    SplitUnlines(Frames(records));
    ProcessFrames(records);
  }
}
