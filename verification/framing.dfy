/** Line framing of deploy/security-scenarios/collect.py: complete lines are cut out of a byte stream that
    arrives in arbitrary chunks; over-long lines are rejected, and an over-long incomplete line stops the
    collector. */
module Framing {
  const LIMIT := 0x20_0000
  const NEWLINE: Byte := 10

  type Byte = bv8

  type Bytes = seq<Byte>

  function FirstNewline(s: Bytes): (n: nat)
    ensures n <= |s|
  {
    if s == [] || s[0] == NEWLINE then 0 else 1 + FirstNewline(s[1..])
  }

  lemma {:induction false} FirstNewlineSpec(s: Bytes)
    ensures var n := FirstNewline(s);
            NEWLINE !in s[..n] && (n < |s| ==> s[n] == NEWLINE) && (n == |s| <==> NEWLINE !in s)
  {
    if s != [] && s[0] != NEWLINE {
      FirstNewlineSpec(s[1..]);
      var n := FirstNewline(s[1..]);
      assert s[..n + 1] == [s[0]] + s[1..][..n];
    }
  }

  /** The first line of a stream and what follows its newline. */
  function Line(s: Bytes): Bytes {
    s[..FirstNewline(s)]
  }

  function Rest(s: Bytes): Bytes
    requires FirstNewline(s) < |s|
  {
    s[FirstNewline(s) + 1..]
  }

  /** The newline split of a stream: its complete lines, and what follows the last newline. */
  function CompleteLines(s: Bytes): seq<Bytes>
    decreases |s|
  {
    if FirstNewline(s) == |s| then [] else [Line(s)] + CompleteLines(Rest(s))
  }

  function Tail(s: Bytes): Bytes
    decreases |s|
  {
    if FirstNewline(s) == |s| then s else Tail(Rest(s))
  }

  lemma {:induction false} TailHasNoNewline(s: Bytes)
    ensures FirstNewline(Tail(s)) == |Tail(s)|
    decreases |s|
  {
    if FirstNewline(s) < |s| { TailHasNoNewline(Rest(s)); }
  }

  /** The lines within the size limit. */
  function Short(lines: seq<Bytes>): seq<Bytes> {
    if lines == [] then [] else (if |lines[0]| > LIMIT then [] else [lines[0]]) + Short(lines[1..])
  }

  datatype State = State(handled: seq<Bytes>, buffer: Bytes, stopped: bool)

  function Fed(s: State, chunk: Bytes): State {
    var all := s.buffer + chunk;
    if s.stopped then s
    else if |all| > LIMIT && FirstNewline(all) == |all| then s.(buffer := all, stopped := true)
    else State(s.handled + Short(CompleteLines(all)), Tail(all), false)
  }

  class Reader {
    var handled: seq<Bytes>
    var buffer: Bytes
    var stopped: bool

    ghost function View(): State
      reads this
    {
      State(handled, buffer, stopped)
    }

    constructor ()
      ensures View() == State([], [], false)
    {
      handled, buffer, stopped := [], [], false;
    }

    /** One chunk read from the input. */
    method Feed(chunk: Bytes)
      requires !stopped
      modifies this
      ensures View() == Fed(old(View()), chunk)
    {
      buffer := buffer + chunk;
      ghost var all := buffer;
      FirstNewlineSpec(buffer);
      if |buffer| > LIMIT && NEWLINE !in buffer {
        stopped := true;
        return;
      }
      while NEWLINE in buffer
        invariant handled + Short(CompleteLines(buffer)) == old(handled) + Short(CompleteLines(all))
        invariant Tail(buffer) == Tail(all) && !stopped
        decreases |buffer|
      {
        FirstNewlineSpec(buffer);
        var raw, rest := Line(buffer), Rest(buffer);
        CutLine(handled, raw, CompleteLines(rest));
        buffer := rest;
        if |raw| > LIMIT { continue; }
        handled := handled + [raw];
      }
      FirstNewlineSpec(buffer);
    }
  }

  lemma CutLine(handled: seq<Bytes>, line: Bytes, lines: seq<Bytes>)
    ensures handled + Short([line] + lines) == (if |line| > LIMIT then handled else handled + [line]) + Short(lines)
  {
    assert ([line] + lines)[1..] == lines;
  }

  function Concat(chunks: seq<Bytes>): Bytes {
    if chunks == [] then [] else Concat(chunks[..|chunks| - 1]) + chunks[|chunks| - 1]
  }

  function Run(chunks: seq<Bytes>): State {
    if chunks == [] then State([], [], false) else Fed(Run(chunks[..|chunks| - 1]), chunks[|chunks| - 1])
  }

  lemma {:induction false} SplitAppend(a: Bytes, b: Bytes)
    ensures CompleteLines(a + b) == CompleteLines(a) + CompleteLines(Tail(a) + b)
    ensures Tail(a + b) == Tail(Tail(a) + b)
    decreases |a|
  {
    if FirstNewline(a) < |a| {
      NewlineAt(a, b, FirstNewline(a));
      LineOfAppend(a, b);
      SplitAppend(Rest(a), b);
      Associate([Line(a)], CompleteLines(Rest(a)), CompleteLines(Tail(a) + b));
    }
  }

  lemma LineOfAppend(a: Bytes, b: Bytes)
    requires FirstNewline(a) < |a| && FirstNewline(a + b) == FirstNewline(a)
    ensures Line(a + b) == Line(a) && Rest(a + b) == Rest(a) + b
  {
  }

  lemma Associate(a: seq<Bytes>, b: seq<Bytes>, c: seq<Bytes>)
    ensures a + (b + c) == (a + b) + c
  {
  }

  lemma {:induction false} NewlineAt(a: Bytes, b: Bytes, n: nat)
    requires n < |a| && FirstNewline(a) == n
    ensures FirstNewline(a + b) == n
  {
    if n > 0 {
      assert (a + b)[1..] == a[1..] + b;
      NewlineAt(a[1..], b, n - 1);
    }
  }

  lemma {:induction false} ShortAppend(a: seq<Bytes>, b: seq<Bytes>)
    ensures Short(a + b) == Short(a) + Short(b)
    decreases |a|
  {
    if a == [] {
      assert a + b == b;
    } else {
      assert (a + b)[1..] == a[1..] + b;
      ShortAppend(a[1..], b);
    }
  }

  /** Unless it stopped, the collector has handled exactly the complete lines of the whole stream that are
      within the limit, in order, and holds back exactly the incomplete rest, however it was chunked. */
  lemma {:induction false} ChunkingIrrelevant(chunks: seq<Bytes>)
    requires !Run(chunks).stopped
    ensures Run(chunks) == State(Short(CompleteLines(Concat(chunks))), Tail(Concat(chunks)), false)
  {
    if chunks != [] {
      var n := |chunks| - 1;
      ChunkingIrrelevant(chunks[..n]);
      var sofar := Concat(chunks[..n]);
      SplitAppend(sofar, chunks[n]);
      ShortAppend(CompleteLines(sofar), CompleteLines(Tail(sofar) + chunks[n]));
    } else {
      assert FirstNewline([]) == 0;
    }
  }

  lemma TailNoNewline(a: Bytes, b: Bytes)
    ensures FirstNewline(Tail(a) + b) == |Tail(a) + b| <==> NEWLINE !in b
    ensures NEWLINE !in b ==> Tail(a + b) == Tail(a) + b
  {
    SplitAppend(a, b);
    TailHasNoNewline(a);
    FirstNewlineSpec(Tail(a));
    FirstNewlineSpec(Tail(a) + b);
    assert NEWLINE in Tail(a) + b <==> NEWLINE in Tail(a) || NEWLINE in b;
  }

  /** The incomplete line held back after chunk i. */
  function HeldBack(chunks: seq<Bytes>, i: nat): Bytes
    requires i < |chunks|
  {
    Tail(Concat(chunks[..i + 1]))
  }

  ghost predicate Overruns(chunks: seq<Bytes>, i: nat)
    requires i < |chunks|
  {
    NEWLINE !in chunks[i] && |HeldBack(chunks, i)| > LIMIT
  }

  /** It stops exactly when some chunk without a newline leaves an incomplete line over the limit. */
  lemma {:induction false} StopsExactly(chunks: seq<Bytes>)
    ensures Run(chunks).stopped <==> exists i :: 0 <= i < |chunks| && Overruns(chunks, i)
  {
    if chunks != [] {
      var n := |chunks| - 1;
      var init := chunks[..n];
      StopsExactly(init);
      if !Run(init).stopped { LastOverrun(chunks); }
      forall i | 0 <= i < n ensures Overruns(init, i) <==> Overruns(chunks, i) {
        assert init[..i + 1] == chunks[..i + 1];
      }
      if Run(init).stopped {
        var i :| 0 <= i < n && Overruns(init, i);
        assert Overruns(chunks, i);
      }
    }
  }

  lemma LastOverrun(chunks: seq<Bytes>)
    requires chunks != [] && !Run(chunks[..|chunks| - 1]).stopped
    ensures Run(chunks).stopped <==> Overruns(chunks, |chunks| - 1)
  {
    var n := |chunks| - 1;
    ChunkingIrrelevant(chunks[..n]);
    TailNoNewline(Concat(chunks[..n]), chunks[n]);
    assert chunks[..n + 1] == chunks;
  }

  /** No line of the stream, the incomplete last one included, is over the limit. */
  ghost predicate WithinLimit(s: Bytes) {
    (forall l :: l in CompleteLines(s) ==> |l| <= LIMIT) && |Tail(s)| <= LIMIT
  }

  lemma {:induction false} ShortAll(lines: seq<Bytes>)
    requires forall l :: l in lines ==> |l| <= LIMIT
    ensures Short(lines) == lines
  {
    if lines != [] { ShortAll(lines[1..]); }
  }

  lemma {:induction false} FirstNewlineLate(a: Bytes, b: Bytes)
    requires FirstNewline(a) == |a|
    ensures FirstNewline(a + b) >= |a|
  {
    if a != [] {
      assert (a + b)[1..] == a[1..] + b;
      FirstNewlineLate(a[1..], b);
    }
  }

  /** The incomplete part of a prefix begins a line of the whole stream. */
  lemma PrefixWithin(a: Bytes, b: Bytes)
    requires WithinLimit(a + b)
    ensures |Tail(a)| <= LIMIT
  {
    SplitAppend(a, b);
    TailHasNoNewline(a);
    var t := Tail(a) + b;
    FirstNewlineLate(Tail(a), b);
    if FirstNewline(t) < |t| {
      assert CompleteLines(t)[0] == Line(t);
      assert Line(t) in CompleteLines(a + b);
    }
  }

  lemma {:induction false} ConcatPrefix(chunks: seq<Bytes>, n: nat) returns (rest: Bytes)
    requires n <= |chunks|
    ensures Concat(chunks) == Concat(chunks[..n]) + rest
    decreases |chunks|
  {
    if n == |chunks| {
      assert chunks[..n] == chunks;
      rest := [];
    } else {
      var init := chunks[..|chunks| - 1];
      rest := ConcatPrefix(init, n);
      assert init[..n] == chunks[..n];
      rest := rest + chunks[|chunks| - 1];
    }
  }

  /** For a stream within the limit, the lines handled are its newline split, for every chunking. */
  lemma HandledIsNewlineSplit(chunks: seq<Bytes>)
    requires WithinLimit(Concat(chunks))
    ensures Run(chunks) == State(CompleteLines(Concat(chunks)), Tail(Concat(chunks)), false)
  {
    StopsExactly(chunks);
    forall i | 0 <= i < |chunks| ensures !Overruns(chunks, i) {
      var rest := ConcatPrefix(chunks, i + 1);
      PrefixWithin(Concat(chunks[..i + 1]), rest);
    }
    ChunkingIrrelevant(chunks);
    ShortAll(CompleteLines(Concat(chunks)));
  }
}
