/** src/uart_nmea.c: the byte-wise framing automaton, and what it does to a whole stream. */
module Framer {
  import opened Base

  /** `line[..line_len]` and `dropping_overlong` of the receive thread. */
  datatype State = State(line: Frame, dropping: bool)

  const FRESH := State([], false)

  datatype Event = Quiet | Publish(frame: Frame) | Overlong

  /** One byte, in the order of the C loop body. */
  function Feed(n: nat, s: State, ch: Byte): (State, Event) {
    if s.dropping then
      (if ch == NEWLINE then FRESH else s, Quiet)
    else if |s.line| < n then
      var line := s.line + [ch];
      if ch == NEWLINE then (FRESH, Publish(line)) else (State(line, false), Quiet)
    else
      (State([], true), Overlong)
  }

  /** The automaton with everything it has published and counted so far. */
  datatype Trace = Trace(state: State, published: seq<Frame>, overlong: nat)

  const START := Trace(FRESH, [], 0)

  function Extend(n: nat, t: Trace, ch: Byte): Trace {
    var (state, event) := Feed(n, t.state, ch);
    match event
    case Quiet => t.(state := state)
    case Publish(frame) => t.(state := state, published := t.published + [frame])
    case Overlong => t.(state := state, overlong := t.overlong + 1)
  }

  /** The four outcomes of a byte. */
  lemma ExtendCases(n: nat, t: Trace, ch: Byte)
    ensures var line := t.state.line + [ch];
      Extend(n, t, ch) ==
        if t.state.dropping then (if ch == NEWLINE then t.(state := FRESH) else t)
        else if |t.state.line| >= n then t.(state := State([], true), overlong := t.overlong + 1)
        else if ch == NEWLINE then t.(state := FRESH, published := t.published + [line])
        else t.(state := State(line, false))
  {
  }

  function Run(n: nat, t: Trace, stream: seq<Byte>): Trace {
    if stream == [] then t
    else Extend(n, Run(n, t, stream[..|stream| - 1]), stream[|stream| - 1])
  }

  lemma RunSnoc(n: nat, t: Trace, a: seq<Byte>, ch: Byte)
    ensures Run(n, t, a + [ch]) == Extend(n, Run(n, t, a), ch)
  {
    assert (a + [ch])[..|a|] == a;
  }

  lemma {:induction false} RunAppend(n: nat, t: Trace, a: seq<Byte>, b: seq<Byte>)
    ensures Run(n, t, a + b) == Run(n, Run(n, t, a), b)
  {
    if b == [] {
      assert a + b == a;
    } else {
      var init, ch := b[..|b| - 1], b[|b| - 1];
      assert a + b == (a + init) + [ch];
      RunSnoc(n, t, a + init, ch);
      RunAppend(n, t, a, init);
    }
  }

  // ---------------------------------------------------------------- whole-stream reference

  /** Cut a stream at its newlines: the complete segments and what follows the last newline. */
  function Cut(stream: seq<Byte>): (r: (seq<Frame>, Frame)) {
    if stream == [] then ([], [])
    else
      var (segs, tail) := Cut(stream[..|stream| - 1]);
      var ch := stream[|stream| - 1];
      if ch == NEWLINE then (segs + [tail + [ch]], []) else (segs, tail + [ch])
  }

  lemma CutSnoc(a: seq<Byte>, ch: Byte)
    ensures var (segs, tail) := Cut(a);
      Cut(a + [ch]) == if ch == NEWLINE then (segs + [tail + [ch]], []) else (segs, tail + [ch])
  {
    assert (a + [ch])[..|a|] == a;
  }

  /** Cutting loses nothing. */
  lemma {:induction false} CutLosesNothing(stream: seq<Byte>)
    ensures Concat(Cut(stream).0) + Cut(stream).1 == stream
  {
    if stream != [] {
      var init, ch := stream[..|stream| - 1], stream[|stream| - 1];
      CutLosesNothing(init);
      var (segs, tail) := Cut(init);
      assert stream == init + [ch];
      CutSnoc(init, ch);
      if ch == NEWLINE {
        ConcatSnoc(segs, tail + [ch]);
        assert Concat(segs) + (tail + [ch]) == (Concat(segs) + tail) + [ch];
      } else {
        assert Concat(segs) + (tail + [ch]) == (Concat(segs) + tail) + [ch];
      }
    }
  }

  /** Cutting happens at every newline and nowhere else. */
  lemma {:induction false} CutAtNewlines(stream: seq<Byte>)
    ensures NoNewline(Cut(stream).1)
    ensures forall i :: 0 <= i < |Cut(stream).0| ==> IsSegment(Cut(stream).0[i])
  {
    if stream == [] {
    } else {
      var init, ch := stream[..|stream| - 1], stream[|stream| - 1];
      CutAtNewlines(init);
      var (segs, tail) := Cut(init);
      assert (tail + [ch])[..|tail|] == tail;
    }
  }

  ghost predicate IsSegment(f: Frame) {
    f != [] && IsLine(|f|, f)
  }

  /** Whether whatever follows `segs` is dropped unseen: the last of them was exactly one byte too
      long, and was not itself dropped unseen. Its newline was spent on the overflow. */
  predicate Shadowed(n: nat, segs: seq<Frame>) {
    segs != [] &&
    !Shadowed(n, segs[..|segs| - 1]) && |segs[|segs| - 1]| == n + 1
  }

  /** The segments that survive: those that fit and are not in the shadow of their predecessor. */
  function Kept(n: nat, segs: seq<Frame>): seq<Frame> {
    if segs == [] then []
    else
      var init, last := segs[..|segs| - 1], segs[|segs| - 1];
      Kept(n, init) + (if !Shadowed(n, init) && |last| <= n then [last] else [])
  }

  /** One count for each segment that overflows in its own right. */
  function Overflows(n: nat, segs: seq<Frame>): nat {
    if segs == [] then 0
    else
      var init, last := segs[..|segs| - 1], segs[|segs| - 1];
      Overflows(n, init) + (if !Shadowed(n, init) && |last| > n then 1 else 0)
  }

  /** The trace a stream must leave, read off its segments. */
  function Reference(n: nat, stream: seq<Byte>): Trace {
    var (segs, tail) := Cut(stream);
    var dropping := Shadowed(n, segs) || |tail| > n;
    Trace(State(if dropping then [] else tail, dropping),
          Kept(n, segs),
          Overflows(n, segs) + (if !Shadowed(n, segs) && |tail| > n then 1 else 0))
  }

  /** The automaton computes the reference on every stream. */
  lemma {:induction false} FramerMeetsReference(n: nat, stream: seq<Byte>)
    requires n >= 1
    ensures Run(n, START, stream) == Reference(n, stream)
  {
    if stream == [] {
    } else {
      var init, ch := stream[..|stream| - 1], stream[|stream| - 1];
      FramerMeetsReference(n, init);
      var (segs, tail) := Cut(init);
      if ch == NEWLINE {
        var all := segs + [tail + [ch]];
        assert all[..|segs|] == segs;
        assert Cut(stream) == (all, []);
      }
    }
  }

  /** The filter one might expect: keep every segment that fits. */
  function Fitting(n: nat, segs: seq<Frame>): seq<Frame> {
    if segs == [] then []
    else
      var init, last := segs[..|segs| - 1], segs[|segs| - 1];
      Fitting(n, init) + (if |last| <= n then [last] else [])
  }

  /** No segment that fits stands in a shadow. */
  ghost predicate NoVictim(n: nat, segs: seq<Frame>) {
    forall i :: 0 <= i < |segs| && Shadowed(n, segs[..i]) ==> |segs[i]| > n
  }

  lemma {:induction false} KeptAgainstFitting(n: nat, segs: seq<Frame>)
    ensures |Kept(n, segs)| <= |Fitting(n, segs)|
    ensures |Kept(n, segs)| == |Fitting(n, segs)| <==> NoVictim(n, segs)
    ensures NoVictim(n, segs) ==> Kept(n, segs) == Fitting(n, segs)
  {
    if segs == [] {
    } else {
      var init := segs[..|segs| - 1];
      KeptAgainstFitting(n, init);
      assert forall i :: 0 <= i < |init| ==> init[..i] == segs[..i];
      assert NoVictim(n, segs) <==>
        NoVictim(n, init) && (Shadowed(n, init) ==> |segs[|init|]| > n);
    }
  }

  /** The expected filter is right exactly when no fitting line follows an overflow whose newline
      was spent. */
  lemma FilterIffNoVictim(n: nat, stream: seq<Byte>)
    requires n >= 1
    ensures Run(n, START, stream).published == Fitting(n, Cut(stream).0)
        <==> NoVictim(n, Cut(stream).0)
  {
    FramerMeetsReference(n, stream);
    KeptAgainstFitting(n, Cut(stream).0);
  }

  /** In particular it is right on every stream without a segment of exactly n + 1 bytes. */
  lemma {:induction false} FilterWithoutCriticalLength(n: nat, segs: seq<Frame>)
    requires forall i :: 0 <= i < |segs| ==> |segs[i]| != n + 1
    ensures !Shadowed(n, segs)
    ensures Kept(n, segs) == Fitting(n, segs)
  {
    if segs == [] {
    } else {
      FilterWithoutCriticalLength(n, segs[..|segs| - 1]);
    }
  }

  /** It is wrong for every limit n: a line of n + 1 bytes takes the bare newline after it along. */
  lemma FilterFails(n: nat, body: Frame)
    requires n >= 1 && |body| == n && NoNewline(body)
    ensures var stream := body + [NEWLINE] + [NEWLINE];
      && Fitting(n, Cut(stream).0) == [[NEWLINE]]
      && Run(n, START, stream).published == []
  {
    CutPlain(body);
    var first := body + [NEWLINE];
    CutSnoc(body, NEWLINE);
    assert Cut(first) == ([first], []) by { assert [] + [first] == [first]; }
    var stream := first + [NEWLINE];
    CutSnoc(first, NEWLINE);
    var empty: Frame, segs := [], [first, [NEWLINE]];
    assert empty + [NEWLINE] == [NEWLINE] && [first] + [[NEWLINE]] == segs;
    assert Cut(stream) == (segs, empty);
    assert segs[..|segs| - 1] == [first] && [first][..|[first]| - 1] == [];
    assert |first| == n + 1 && !Shadowed(n, []);
    assert Fitting(n, [first]) == [];
    assert Kept(n, [first]) == [];
    assert Shadowed(n, [first]);
    assert Fitting(n, segs) == [[NEWLINE]] && Kept(n, segs) == [];
    FramerMeetsReference(n, stream);
  }

  lemma {:induction false} CutPlain(body: Frame)
    requires NoNewline(body)
    ensures Cut(body) == ([], body)
  {
    if body == [] {
    } else {
      CutPlain(body[..|body| - 1]);
      assert body == body[..|body| - 1] + [body[|body| - 1]];
    }
  }

  // ---------------------------------------------------------------- lines only, and round trip

  /** Only complete lines of 1..n bytes are ever published, whatever the stream. */
  lemma {:induction false} PublishedAreLines(n: nat, stream: seq<Byte>)
    requires n >= 1
    ensures var t := Run(n, START, stream);
      && (forall i :: 0 <= i < |t.published| ==> IsLine(n, t.published[i]))
      && NoNewline(t.state.line) && |t.state.line| <= n
  {
    if stream == [] {
    } else {
      var init, ch := stream[..|stream| - 1], stream[|stream| - 1];
      PublishedAreLines(n, init);
      var t := Run(n, START, init);
      assert (t.state.line + [ch])[..|t.state.line|] == t.state.line;
    }
  }

  lemma {:induction false} FeedPlain(n: nat, t: Trace, bytes: Frame)
    requires t.state == FRESH && |bytes| <= n && NoNewline(bytes)
    ensures Run(n, t, bytes) == t.(state := State(bytes, false))
  {
    if bytes == [] {
    } else {
      FeedPlain(n, t, bytes[..|bytes| - 1]);
      assert bytes == bytes[..|bytes| - 1] + [bytes[|bytes| - 1]];
    }
  }

  lemma FeedLine(n: nat, t: Trace, line: Frame)
    requires t.state == FRESH && IsLine(n, line)
    ensures Run(n, t, line) == t.(published := t.published + [line])
  {
    var body := line[..|line| - 1];
    FeedPlain(n, t, body);
    assert line == body + [NEWLINE];
  }

  /** Feeding complete lines and an unfinished one to a fresh framer gives back exactly those lines,
      counts nothing overlong, and leaves the unfinished one in the buffer. */
  lemma RoundTrip(n: nat, lines: seq<Frame>, rest: Frame)
    requires forall i :: 0 <= i < |lines| ==> IsLine(n, lines[i])
    requires |rest| <= n && NoNewline(rest)
    ensures Run(n, START, Concat(lines) + rest) == Trace(State(rest, false), lines, 0)
  {
    RunLines(n, lines);
    RunAppend(n, START, Concat(lines), rest);
    FeedPlain(n, Run(n, START, Concat(lines)), rest);
  }

  lemma {:induction false} RunLines(n: nat, lines: seq<Frame>)
    requires forall i :: 0 <= i < |lines| ==> IsLine(n, lines[i])
    ensures Run(n, START, Concat(lines)) == Trace(FRESH, lines, 0)
  {
    if lines == [] {
    } else {
      var init, last := lines[..|lines| - 1], lines[|lines| - 1];
      RunLines(n, init);
      calc {
        Run(n, START, Concat(lines));
        { RunAppend(n, START, Concat(init), last); }
        Run(n, Trace(FRESH, init, 0), last);
        { FeedLine(n, Trace(FRESH, init, 0), last); }
        Trace(FRESH, init + [last], 0);
        { assert lines == init + [last]; }
        Trace(FRESH, lines, 0);
      }
    }
  }
}
