/** The part of Go's `net/http` response writer the handlers use: a header map, an
    explicit status, a body written by successive writes, and flushes. The connection to
    the client is modelled by a byte budget: it accepts that many more bytes, and a write
    that does not fit delivers what fits and fails, after which the connection is broken and
    every later non-empty write fails without delivering anything. */
module Http {
  import opened Bytes
  import opened Wrappers

  /** The bytes of `s` that a connection accepting `budget` more bytes delivers. */
  function Deliver(s: seq<byte>, budget: nat): (r: seq<byte>)
    ensures |r| <= budget
    ensures |s| <= budget ==> r == s
    ensures |s| > budget ==> |r| == budget
  {
    if |s| <= budget then s else s[..budget]
  }

  /** What a connection delivers is the start of what was written, and strictly less than
      all of it when it did not fit. */
  lemma DeliverPrefix(s: seq<byte>, budget: nat)
    ensures Deliver(s, budget) <= s
    ensures |s| > budget ==> Deliver(s, budget) < s
  {
  }

  /** The budget left after writing `s`: none once a write has not fit. */
  function Remaining(s: seq<byte>, budget: nat): nat
  {
    if |s| <= budget then budget - |s| else 0
  }

  /** Writing `a` and then `b` delivers what writing `a + b` at once would. */
  lemma DeliverAppend(a: seq<byte>, b: seq<byte>, budget: nat)
    ensures Deliver(a + b, budget) == Deliver(a, budget) + Deliver(b, Remaining(a, budget))
    ensures Remaining(a + b, budget) == Remaining(b, Remaining(a, budget))
  {
    if |a| <= budget && |a + b| > budget {
      assert (a + b)[..budget] == a + b[..budget - |a|];
    }
  }

  /** The number of writes a sequence of writes makes when it stops at the first one that
      fails: all of them when every chunk fits, otherwise up to and including the first
      chunk that does not. */
  function CallsIssued(chunks: seq<seq<byte>>, budget: nat): nat
  {
    if chunks == [] then 0
    else if |chunks[0]| <= budget then 1 + CallsIssued(chunks[1..], budget - |chunks[0]|)
    else 1
  }

  /** The first `k` chunks fit; the writes issued are those `k` and the ones the rest issue. */
  lemma {:induction false} CallsIssuedAfter(chunks: seq<seq<byte>>, k: nat, budget: nat)
    requires k <= |chunks| && |Flatten(chunks[..k])| <= budget
    ensures CallsIssued(chunks, budget) == k + CallsIssued(chunks[k..], budget - |Flatten(chunks[..k])|)
  {
    if k > 0 {
      assert chunks[..k] == [chunks[0]] + chunks[1..][..k - 1];
      assert chunks[1..][k - 1..] == chunks[k..];
      CallsIssuedAfter(chunks[1..], k - 1, budget - |chunks[0]|);
    } else {
      assert chunks[0..] == chunks;
    }
  }

  /** A sequence of writes that stopped at the first failure made exactly the writes up to
      the failing one: every chunk before it fit, and it did not. When nothing failed it made
      one write per chunk. */
  lemma {:induction false} CallsIssuedStop(chunks: seq<seq<byte>>, budget: nat)
    ensures |Flatten(chunks)| <= budget ==> CallsIssued(chunks, budget) == |chunks|
    ensures |Flatten(chunks)| > budget ==>
      var n := CallsIssued(chunks, budget);
      0 < n <= |chunks| && |Flatten(chunks[..n - 1])| <= budget < |Flatten(chunks[..n])|
  {
    if chunks != [] {
      var rest := chunks[1..];
      assert Flatten(chunks) == chunks[0] + Flatten(rest);
      if |chunks[0]| <= budget {
        CallsIssuedStop(rest, budget - |chunks[0]|);
        var n := CallsIssued(chunks, budget);
        if |Flatten(chunks)| > budget {
          assert chunks[..n - 1] == [chunks[0]] + rest[..n - 2];
          assert chunks[..n] == [chunks[0]] + rest[..n - 1];
          assert Flatten(chunks[..n - 1]) == chunks[0] + Flatten(rest[..n - 2]);
          assert Flatten(chunks[..n]) == chunks[0] + Flatten(rest[..n - 1]);
        }
      } else {
        assert chunks[..1] == [chunks[0]];
        assert Flatten(chunks[..1]) == chunks[0] + Flatten([]);
      }
    }
  }

  /** One more write in a sequence that has not failed yet: after `k` chunks, the next one
      either fits, or delivers what fits of it and ends the sequence. */
  lemma WriteStep(chunks: seq<seq<byte>>, k: nat, budget: nat)
    requires k < |chunks| && |Flatten(chunks[..k])| <= budget
    ensures Flatten(chunks[..k + 1]) == Flatten(chunks[..k]) + chunks[k]
    ensures |Flatten(chunks[..k + 1])| > budget ==>
      Flatten(chunks[..k]) + Deliver(chunks[k], budget - |Flatten(chunks[..k])|) == Deliver(Flatten(chunks), budget)
      && |Flatten(chunks)| > budget
      && CallsIssued(chunks, budget) == k + 1
  {
    assert chunks[..k + 1] == chunks[..k] + [chunks[k]];
    FlattenAppend(chunks[..k], [chunks[k]]);
    assert chunks == chunks[..k + 1] + chunks[k + 1..];
    FlattenAppend(chunks[..k + 1], chunks[k + 1..]);
    CallsIssuedAfter(chunks, k, budget);
    assert chunks[k..][1..] == chunks[k + 1..];
  }

  /** The state of a writer after the write of chunk `k` of a sequence whose earlier chunks
      all fit, given as the bytes `body`, the budget `left` and the write count `calls`
      reached from `body0`, `budget` and `calls0`: either every chunk so far fit, or the
      sequence stops here with what writing all the chunks delivers. */
  lemma WriteStepOutcome(chunks: seq<seq<byte>>, k: nat, budget: nat, body0: seq<byte>, calls0: nat,
                         body: seq<byte>, left: nat, calls: nat)
    requires k < |chunks| && |Flatten(chunks[..k])| <= budget
    requires body == body0 + Flatten(chunks[..k]) + Deliver(chunks[k], budget - |Flatten(chunks[..k])|)
    requires left == Remaining(chunks[k], budget - |Flatten(chunks[..k])|)
    requires calls == calls0 + k + 1
    ensures |chunks[k]| <= budget - |Flatten(chunks[..k])| ==>
      && |Flatten(chunks[..k + 1])| <= budget
      && body == body0 + Flatten(chunks[..k + 1])
      && left == budget - |Flatten(chunks[..k + 1])|
    ensures |chunks[k]| > budget - |Flatten(chunks[..k])| ==>
      && !(|Flatten(chunks)| <= budget)
      && body == body0 + Deliver(Flatten(chunks), budget)
      && left == Remaining(Flatten(chunks), budget)
      && calls == calls0 + CallsIssued(chunks, budget)
  {
    WriteStep(chunks, k, budget);
  }

  /** The state of a writer after every chunk of a sequence fit. */
  lemma WritesDoneOutcome(chunks: seq<seq<byte>>, budget: nat, body0: seq<byte>, calls0: nat,
                          body: seq<byte>, left: nat, calls: nat)
    requires |Flatten(chunks[..|chunks|])| <= budget
    requires body == body0 + Flatten(chunks[..|chunks|])
    requires left == budget - |Flatten(chunks[..|chunks|])|
    requires calls == calls0 + |chunks|
    ensures |Flatten(chunks)| <= budget
    ensures body == body0 + Deliver(Flatten(chunks), budget)
    ensures left == Remaining(Flatten(chunks), budget)
    ensures calls == calls0 + CallsIssued(chunks, budget)
  {
    assert chunks[..|chunks|] == chunks;
    WritesDone(chunks, budget);
  }

  /** The writes of all chunks fit: one write per chunk. */
  lemma WritesDone(chunks: seq<seq<byte>>, budget: nat)
    requires |Flatten(chunks)| <= budget
    ensures CallsIssued(chunks, budget) == |chunks|
  {
    CallsIssuedStop(chunks, budget);
  }

  lemma {:induction false} CallsIssuedAppend(a: seq<seq<byte>>, b: seq<seq<byte>>, budget: nat)
    ensures CallsIssued(a + b, budget) ==
      CallsIssued(a, budget) + (if |Flatten(a)| <= budget then CallsIssued(b, budget - |Flatten(a)|) else 0)
  {
    if a == [] {
      assert a + b == b;
    } else {
      assert (a + b)[1..] == a[1..] + b;
      if |a[0]| <= budget {
        CallsIssuedAppend(a[1..], b, budget - |a[0]|);
      }
    }
  }

  /** Writing the chunks `a` and then, unless one of them failed, the chunks `b`, is
      writing the chunks `a + b`. */
  lemma WriteSequence(a: seq<seq<byte>>, b: seq<seq<byte>>, budget: nat)
    ensures Flatten(a + b) == Flatten(a) + Flatten(b)
    ensures Deliver(Flatten(a + b), budget) ==
      Deliver(Flatten(a), budget) + Deliver(Flatten(b), Remaining(Flatten(a), budget))
    ensures Remaining(Flatten(a + b), budget) == Remaining(Flatten(b), Remaining(Flatten(a), budget))
    ensures CallsIssued(a + b, budget) ==
      CallsIssued(a, budget) + (if |Flatten(a)| <= budget then CallsIssued(b, budget - |Flatten(a)|) else 0)
  {
    FlattenAppend(a, b);
    DeliverAppend(Flatten(a), Flatten(b), budget);
    CallsIssuedAppend(a, b, budget);
  }

  /** Where the flushes fall when each of `records` is written (from body length `start`,
      with `budget` bytes left) and then flushed: after every record when `always`, and
      otherwise only after the records whose write succeeded. Each position is the body
      length at the time of the flush. */
  function FlushPoints(records: seq<seq<byte>>, start: nat, budget: nat, always: bool): seq<nat>
    decreases |records|
  {
    if records == [] then []
    else
      var earlier := records[..|records| - 1];
      var last := records[|records| - 1];
      FlushPoints(earlier, start, budget, always)
      + (if always || |last| <= Remaining(Flatten(earlier), budget)
         then [start + |Deliver(Flatten(records), budget)|] else [])
  }

  /** Writing and flushing one more record. */
  lemma FlushPointsSnoc(records: seq<seq<byte>>, r: seq<byte>, start: nat, budget: nat, always: bool)
    ensures var left := Remaining(Flatten(records), budget);
      FlushPoints(records + [r], start, budget, always)
      == FlushPoints(records, start, budget, always)
         + if always || |r| <= left
           then [start + |Deliver(Flatten(records), budget)| + |Deliver(r, left)|] else []
  {
    assert (records + [r])[..|records|] == records;
    FlattenAppend(records, [r]);
    assert Flatten([r]) == r + Flatten([]);
    DeliverAppend(Flatten(records), r, budget);
  }

  /** The state of the writer after writing `records` and then `r`, each write followed by
      a flush (always, or only when it succeeded), given its state after `records` and what
      writing `r` did. */
  lemma ContinueWriting(records: seq<seq<byte>>, r: seq<byte>, start: nat, budget: nat, always: bool,
                        body0: seq<byte>, flushes0: seq<nat>,
                        body1: seq<byte>, left1: nat, flushes1: seq<nat>,
                        body: seq<byte>, left: nat, flushes: seq<nat>)
    requires |body0| == start
    requires body1 == body0 + Deliver(Flatten(records), budget)
    requires left1 == Remaining(Flatten(records), budget)
    requires flushes1 == flushes0 + FlushPoints(records, start, budget, always)
    requires body == body1 + Deliver(r, left1)
    requires left == Remaining(r, left1)
    requires flushes == flushes1 + if always || |r| <= left1 then [|body|] else []
    ensures Flatten(records + [r]) == Flatten(records) + r
    ensures body == body0 + Deliver(Flatten(records + [r]), budget)
    ensures left == Remaining(Flatten(records + [r]), budget)
    ensures flushes == flushes0 + FlushPoints(records + [r], start, budget, always)
  {
    var a := Flatten(records);
    FlattenAppend(records, [r]);
    assert Flatten([r]) == r + Flatten([]);
    DeliverAppend(a, r, budget);
    assert body == body0 + (Deliver(a, budget) + Deliver(r, left1));
    FlushPointsSnoc(records, r, start, budget, always);
    assert |body| == start + |Deliver(a, budget)| + |Deliver(r, left1)|;
  }

  /** Flushing after every write, whatever its outcome, flushes once per record. */
  lemma {:induction false} FlushAlwaysCount(records: seq<seq<byte>>, start: nat, budget: nat)
    ensures |FlushPoints(records, start, budget, true)| == |records|
    decreases |records|
  {
    if records != [] {
      FlushAlwaysCount(records[..|records| - 1], start, budget);
    }
  }

  /** Flushing only after a successful write flushes at most once per record. */
  lemma {:induction false} FlushOnSuccessCount(records: seq<seq<byte>>, start: nat, budget: nat)
    ensures |FlushPoints(records, start, budget, false)| <= |records|
    decreases |records|
  {
    if records != [] {
      FlushOnSuccessCount(records[..|records| - 1], start, budget);
    }
  }

  /** The body lengths at the end of each record when all of them are delivered. */
  function Boundaries(records: seq<seq<byte>>, start: nat): (r: seq<nat>)
    ensures |r| == |records|
    decreases |records|
  {
    if records == [] then []
    else Boundaries(records[..|records| - 1], start) + [start + |Flatten(records)|]
  }

  /** The k-th boundary is the body length once the first k + 1 records are written. */
  lemma {:induction false} BoundaryAt(records: seq<seq<byte>>, start: nat, k: nat)
    requires k < |records|
    ensures Boundaries(records, start)[k] == start + |Flatten(records[..k + 1])|
    decreases |records|
  {
    var n := |records|;
    if k < n - 1 {
      var earlier := records[..n - 1];
      BoundaryAt(earlier, start, k);
      assert earlier[..k + 1] == records[..k + 1];
    } else {
      assert records[..k + 1] == records;
    }
  }

  /** On a connection that takes every byte, both flushing policies flush after every
      record, right at its end. */
  lemma {:induction false} FlushHealthy(records: seq<seq<byte>>, start: nat, budget: nat)
    requires |Flatten(records)| <= budget
    ensures FlushPoints(records, start, budget, false) == Boundaries(records, start)
    ensures FlushPoints(records, start, budget, true) == Boundaries(records, start)
    decreases |records|
  {
    if records != [] {
      var n := |records|;
      var earlier := records[..n - 1];
      assert records == earlier + [records[n - 1]];
      FlattenAppend(earlier, [records[n - 1]]);
      assert Flatten([records[n - 1]]) == records[n - 1] + Flatten([]);
      FlushHealthy(earlier, start, budget);
    }
  }

  /** The part of an HTTP response the handlers produce. */
  class ResponseWriter {
    /** The status code set by `WriteHeader`; none while it has not been called. */
    var status: Option<nat>
    var header: map<string, string>
    /** The bytes of the body the client has received. */
    var body: seq<byte>
    /** How many more bytes the connection accepts. */
    var budget: nat
    /** How many times `Write` has been called. */
    var calls: nat
    /** The length of the body at each flush. */
    var flushes: seq<nat>

    constructor (budget: nat)
      ensures status == None && header == map[] && body == [] && flushes == []
      ensures this.budget == budget && calls == 0
    {
      status := None;
      header := map[];
      body := [];
      this.budget := budget;
      calls := 0;
      flushes := [];
    }

    /** `w.Header().Set(key, value)`. */
    method SetHeader(key: string, value: string)
      modifies this`header
      ensures header == old(header)[key := value]
    {
      header := header[key := value];
    }

    /** `w.WriteHeader(code)`: only the first call sets the status. */
    method WriteHeader(code: nat)
      modifies this`status
      ensures status == if old(status).None? then Some(code) else old(status)
    {
      if status.None? {
        status := Some(code);
      }
    }

    /** `w.Write(chunk)`: succeeds when the chunk fits in the budget; otherwise delivers
        what fits, fails, and leaves the connection broken. */
    method Write(chunk: seq<byte>) returns (ok: bool)
      modifies this`body, this`budget, this`calls
      ensures ok <==> |chunk| <= old(budget)
      ensures body == old(body) + Deliver(chunk, old(budget))
      ensures budget == Remaining(chunk, old(budget))
      ensures calls == old(calls) + 1
    {
      ok := |chunk| <= budget;
      body := body + Deliver(chunk, budget);
      budget := Remaining(chunk, budget);
      calls := calls + 1;
    }

    /** `w.(http.Flusher).Flush()`: records the body length at which it happened. */
    method Flush()
      modifies this`flushes
      ensures flushes == old(flushes) + [|body|]
    {
      flushes := flushes + [|body|];
    }
  }

  /** `http.Error(w, message, code)`: a plain-text error response, the message followed by a
      line feed. */
  method Error(w: ResponseWriter, message: seq<byte>, code: nat)
    modifies w`header, w`status, w`body, w`budget, w`calls
    ensures w.header == old(w.header)["Content-Type" := "text/plain; charset=utf-8"]
                                      ["X-Content-Type-Options" := "nosniff"]
    ensures w.status == if old(w.status).None? then Some(code) else old(w.status)
    ensures w.body == old(w.body) + Deliver(message + [LF], old(w.budget))
    ensures w.budget == Remaining(message + [LF], old(w.budget))
    ensures w.calls == old(w.calls) + 1
  {
    w.SetHeader("Content-Type", "text/plain; charset=utf-8");
    w.SetHeader("X-Content-Type-Options", "nosniff");
    w.WriteHeader(code);
    var _ := w.Write(message + [LF]);
  }
}
