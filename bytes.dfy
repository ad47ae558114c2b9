/** Byte strings and the operations of Go's `bytes` package that the server relies on:
    splitting on a separator, joining with a separator, and concatenating the output of
    successive writes. */
module Bytes {

  newtype byte = b: int | 0 <= b < 256

  /** Line feed, the separator `Event.Write` splits data on. */
  const LF: byte := 10
  /** Carriage return, which an event-stream reader also treats as an end of line. */
  const CR: byte := 13

  /** The bytes of successive writes, one after the other. */
  function Flatten(chunks: seq<seq<byte>>): seq<byte>
  {
    if chunks == [] then [] else chunks[0] + Flatten(chunks[1..])
  }

  lemma {:induction false} FlattenAppend(a: seq<seq<byte>>, b: seq<seq<byte>>)
    ensures Flatten(a + b) == Flatten(a) + Flatten(b)
  {
    if a == [] {
      assert a + b == b;
    } else {
      assert (a + b)[1..] == a[1..] + b;
      FlattenAppend(a[1..], b);
    }
  }

  /** The index of the first occurrence of `x` in `s`, or `|s|` when there is none
      (Go's `bytes.IndexByte`, with "not found" as `|s|` rather than -1). */
  function IndexOf(s: seq<byte>, x: byte): (i: nat)
    ensures i <= |s|
    ensures forall k :: 0 <= k < i ==> s[k] != x
    ensures i < |s| ==> s[i] == x
  {
    if s == [] then 0
    else if s[0] == x then 0
    else 1 + IndexOf(s[1..], x)
  }

  /** The number of occurrences of `x` in `s`. */
  function Count(s: seq<byte>, x: byte): nat
  {
    if s == [] then 0 else (if s[0] == x then 1 else 0) + Count(s[1..], x)
  }

  /** Go's `bytes.Split(s, []byte{sep})`: the pieces of `s` between occurrences of `sep`,
      including the empty pieces before a leading, between two adjacent, and after a
      trailing separator. An empty `s` gives one empty piece. */
  function Split(s: seq<byte>, sep: byte): (pieces: seq<seq<byte>>)
    ensures |pieces| >= 1
    decreases |s|
  {
    var i := IndexOf(s, sep);
    if i == |s| then [s] else [s[..i]] + Split(s[i + 1..], sep)
  }

  /** Go's `bytes.Join(pieces, []byte{sep})`. */
  function Join(pieces: seq<seq<byte>>, sep: byte): seq<byte>
  {
    if pieces == [] then []
    else if |pieces| == 1 then pieces[0]
    else pieces[0] + [sep] + Join(pieces[1..], sep)
  }

  /** A sequence without the separator is one piece. */
  lemma SplitWhole(s: seq<byte>, sep: byte)
    requires sep !in s
    ensures Split(s, sep) == [s]
  {
  }

  /** A sequence is what comes before index `i`, the element at `i`, and what follows. */
  lemma Around(s: seq<byte>, i: nat)
    requires i < |s|
    ensures s == s[..i] + [s[i]] + s[i + 1..]
  {
  }

  lemma JoinCons(piece: seq<byte>, rest: seq<seq<byte>>, sep: byte)
    requires rest != []
    ensures Join([piece] + rest, sep) == piece + [sep] + Join(rest, sep)
  {
    assert ([piece] + rest)[1..] == rest;
  }

  /** Splitting at the first separator: the bytes before it, then the pieces of the rest. */
  lemma SplitCons(s: seq<byte>, sep: byte)
    requires IndexOf(s, sep) < |s|
    ensures Split(s, sep) == [s[..IndexOf(s, sep)]] + Split(s[IndexOf(s, sep) + 1..], sep)
  {
  }

  /** Joining the pieces that splitting produced gives back the original bytes. */
  lemma {:induction false} JoinSplit(s: seq<byte>, sep: byte)
    ensures Join(Split(s, sep), sep) == s
    decreases |s|
  {
    var i := IndexOf(s, sep);
    if i < |s| {
      var rest := s[i + 1..];
      JoinSplit(rest, sep);
      SplitCons(s, sep);
      JoinCons(s[..i], Split(rest, sep), sep);
      Around(s, i);
    }
  }

  /** No piece contains the separator, and every byte of a piece is a byte of `s`. */
  lemma {:induction false} SplitPieces(s: seq<byte>, sep: byte)
    ensures forall p | p in Split(s, sep) :: sep !in p
    ensures forall p, x | p in Split(s, sep) && x in p :: x in s
    decreases |s|
  {
    var i := IndexOf(s, sep);
    if i < |s| {
      var rest := s[i + 1..];
      SplitPieces(rest, sep);
      assert Split(s, sep) == [s[..i]] + Split(rest, sep);
      forall p, x | p in Split(rest, sep) && x in p ensures x in s {
        assert x in rest;
      }
    }
  }

  /** k separators give k + 1 pieces. */
  lemma {:induction false} SplitCount(s: seq<byte>, sep: byte)
    ensures |Split(s, sep)| == Count(s, sep) + 1
    decreases |s|
  {
    var i := IndexOf(s, sep);
    CountAppend(s[..i], s[i..], sep);
    assert s == s[..i] + s[i..];
    CountAbsent(s[..i], sep);
    if i < |s| {
      var rest := s[i + 1..];
      assert s[i..] == [sep] + rest;
      CountAppend([sep], rest, sep);
      SplitCount(rest, sep);
    }
  }

  lemma {:induction false} CountAppend(a: seq<byte>, b: seq<byte>, x: byte)
    ensures Count(a + b, x) == Count(a, x) + Count(b, x)
  {
    if a != [] {
      assert (a + b)[1..] == a[1..] + b;
      CountAppend(a[1..], b, x);
    } else {
      assert a + b == b;
    }
  }

  lemma {:induction false} CountAbsent(s: seq<byte>, x: byte)
    requires x !in s
    ensures Count(s, x) == 0
  {
    if s != [] {
      assert x !in s[1..];
      CountAbsent(s[1..], x);
    }
  }

  /** Bytes that end with the separator split into pieces whose last one is empty. */
  lemma {:induction false} SplitTrailing(s: seq<byte>, sep: byte)
    requires |s| > 0 && s[|s| - 1] == sep
    ensures Split(s, sep)[|Split(s, sep)| - 1] == []
    decreases |s|
  {
    var i := IndexOf(s, sep);
    var rest := s[i + 1..];
    if rest != [] {
      assert rest[|rest| - 1] == sep;
      SplitTrailing(rest, sep);
    }
  }

  /** Every line followed by a line feed: the chunks a line-oriented writer emits. */
  function Terminated(lines: seq<seq<byte>>): (chunks: seq<seq<byte>>)
    ensures |chunks| == |lines|
  {
    if lines == [] then [] else [lines[0] + [LF]] + Terminated(lines[1..])
  }

  lemma {:induction false} TerminatedAt(lines: seq<seq<byte>>, i: nat)
    requires i < |lines|
    ensures Terminated(lines)[i] == lines[i] + [LF]
  {
    if i > 0 {
      TerminatedAt(lines[1..], i - 1);
    }
  }

  /** The bytes of lines, each followed by a line feed. */
  function Unlines(lines: seq<seq<byte>>): seq<byte>
  {
    Flatten(Terminated(lines))
  }

  lemma UnlinesCons(line: seq<byte>, rest: seq<seq<byte>>)
    ensures Unlines([line] + rest) == line + [LF] + Unlines(rest)
  {
    assert ([line] + rest)[1..] == rest;
  }

  /** Two lines, each ended by a line feed. */
  lemma UnlinesTwo(x: seq<byte>, y: seq<byte>)
    ensures Unlines([x, y]) == x + [LF] + y + [LF]
  {
    UnlinesCons(y, []);
    UnlinesCons(x, [y]);
    assert [x, y] == [x] + [y];
  }

  /** Three lines, each ended by a line feed. */
  lemma UnlinesThree(x: seq<byte>, y: seq<byte>, z: seq<byte>)
    ensures Unlines([x, y, z]) == x + [LF] + y + [LF] + z + [LF]
  {
    UnlinesTwo(y, z);
    UnlinesCons(x, [y, z]);
    assert [x, y, z] == [x] + [y, z];
  }

  lemma {:induction false} TerminatedAppend(a: seq<seq<byte>>, b: seq<seq<byte>>)
    ensures Terminated(a + b) == Terminated(a) + Terminated(b)
  {
    if a == [] {
      assert a + b == b;
    } else {
      assert (a + b)[1..] == a[1..] + b;
      TerminatedAppend(a[1..], b);
    }
  }

  lemma UnlinesAppend(a: seq<seq<byte>>, b: seq<seq<byte>>)
    ensures Unlines(a + b) == Unlines(a) + Unlines(b)
  {
    TerminatedAppend(a, b);
    FlattenAppend(Terminated(a), Terminated(b));
  }

  /** Terminating every line is joining them with line feeds and adding one more. */
  lemma {:induction false} UnlinesJoin(lines: seq<seq<byte>>)
    requires lines != []
    ensures Unlines(lines) == Join(lines, LF) + [LF]
  {
    UnlinesCons(lines[0], lines[1..]);
    assert lines == [lines[0]] + lines[1..];
    if |lines| > 1 {
      UnlinesJoin(lines[1..]);
    } else {
      assert Unlines(lines[1..]) == [];
    }
  }

  /** Each line with a common prefix in front of it. */
  function Prefixed(prefix: seq<byte>, lines: seq<seq<byte>>): (r: seq<seq<byte>>)
    ensures |r| == |lines|
  {
    if lines == [] then [] else [prefix + lines[0]] + Prefixed(prefix, lines[1..])
  }

  lemma {:induction false} PrefixedAt(prefix: seq<byte>, lines: seq<seq<byte>>, i: nat)
    requires i < |lines|
    ensures Prefixed(prefix, lines)[i] == prefix + lines[i]
  {
    if i > 0 {
      PrefixedAt(prefix, lines[1..], i - 1);
    }
  }

  /** The lines as they were before the common prefix was put in front of them. */
  function StripPrefix(prefix: seq<byte>, lines: seq<seq<byte>>): seq<seq<byte>>
  {
    if lines == [] then []
    else if |prefix| <= |lines[0]| && lines[0][..|prefix|] == prefix then
      [lines[0][|prefix|..]] + StripPrefix(prefix, lines[1..])
    else StripPrefix(prefix, lines[1..])
  }
}
