/** What the data path guarantees in every reachable state, for every interleaving of its threads. */
module Theorems {
  import opened Base
  import Framer
  import DropOldest
  import opened Sinks
  import opened SessionSteps
  import opened System
  import opened Invariant
  import opened FanSteps
  import opened Counting
  import opened SessionKeeps
  import opened Runs
  import opened Server

  ghost predicate Reachable(c: Config, steps: seq<Step>, s: State) {
    c.Valid() && After(c, steps) == Some(s)
  }

  /** The lines framed so far, by the whole-stream reference. */
  function Lines(c: Config, s: State): seq<Frame> {
    Framer.Reference(c.frameMax, s.uart.rx).published
  }

  lemma ReachableHolds(c: Config, steps: seq<Step>, s: State)
    requires Reachable(c, steps, s)
    ensures c.Valid() && Inv(c, s)
  {
    hide Inv;
    EveryRun(c, steps);
  }

  lemma LinesArePublished(c: Config, steps: seq<Step>, s: State)
    requires Reachable(c, steps, s)
    ensures Inv(c, s)
    ensures Lines(c, s) == Framer.Run(c.frameMax, Framer.START, s.uart.rx).published
    ensures Lines(c, s) == s.ingest.offered + InHand(s.uart)
    ensures forall i :: 0 <= i < |Lines(c, s)| ==> IsLine(c.frameMax, Lines(c, s)[i])
  {
    hide FanOk, OwnersOk, SessionsOk, ThreadsOk, FdsOk, DropsOk, CountsOk;
    EveryRun(c, steps);
    Framer.FramerMeetsReference(c.frameMax, s.uart.rx);
    Framer.PublishedAreLines(c.frameMax, s.uart.rx);
  }

  // ---------------------------------------------------------------- order and completeness

  /** Which of the framed lines a session has taken. */
  ghost function LineIndices(s: State, x: Session): seq<nat>
    requires forall k :: 0 <= k < |x.took| ==> x.took[k] < |s.ingest.taken|
  {
    seq(|x.took|, k requires 0 <= k < |x.took| => s.ingest.taken[x.took[k]])
  }

  /** A session takes framed lines, unaltered, in the order they were framed, none twice. */
  lemma TakesLinesInOrder(c: Config, steps: seq<Step>, s: State, o: nat)
    requires Reachable(c, steps, s) && o < |s.sessions|
    ensures var x, lines := s.sessions[o], Lines(c, s);
      && (forall k :: 0 <= k < |x.took| ==> x.took[k] < |s.ingest.taken|)
      && (var idx := LineIndices(s, x);
          && Increasing(idx) && |idx| == |x.frames|
          && (forall k :: 0 <= k < |idx| ==>
                idx[k] < |lines| && x.frames[k] == lines[idx[k]] && IsLine(c.frameMax, x.frames[k])))
  {
    hide UartOk, OwnersOk, ThreadsOk, FdsOk, DropsOk, CountsOk, Lines;
    LinesArePublished(c, steps, s);
    var x, lines := s.sessions[o], Lines(c, s);
    OneSession(c, s, o);
    IngestHolds(c, s.fan, s.ingest, s.sinks);
    assert forall p :: 0 <= p < |s.ingest.taken| ==> s.ingest.taken[p] < |s.ingest.offered|;
    assert forall i :: 0 <= i < |s.ingest.offered| ==> lines[i] == s.ingest.offered[i];
  }

  /** At every moment of every run, the bytes a session has written are complete framed lines, in
      framing order, and then at most a proper prefix of the next taken one. A session that is over
      leaves a prefix, even an empty one, of a taken frame behind exactly when sending failed. */
  lemma WireCarriesWholeLines(c: Config, steps: seq<Step>, s: State, o: nat)
    requires Reachable(c, steps, s) && o < |s.sessions|
    ensures WholeLinesAndPart(s.sessions[o])
  {
    hide Inv, Reachable, TookInOrder, Linked, Owns, Lines, LineIndices, WholeLinesAndPart, Writes;
    ReachableHolds(c, steps, s);
    OneSession(c, s, o);
    TakesLinesInOrder(c, steps, s, o);
    assert forall k :: 0 <= k < |s.sessions[o].frames| ==> IsLine(c.frameMax, s.sessions[o].frames[k]);
    WritesMeans(s.sessions[o]);
  }

  ghost predicate WholeLinesAndPart(x: Session) {
    && x.wire == Concat(x.done) + x.part
    && |x.done| <= |x.frames| <= |x.done| + 1
    && x.done == x.frames[..|x.done|]
    && (|x.frames| == |x.done| ==> x.part == [] && !AllSent(x))
    && (|x.frames| > |x.done| ==>
          if AllSent(x) then x.part == x.frames[|x.done|] else x.part < x.frames[|x.done|])
    && (Over(x.pc) ==> (|x.frames| > |x.done| <==> x.result == SendFailed))
  }

  lemma WritesMeans(x: Session)
    requires Writes(x) && forall k :: 0 <= k < |x.frames| ==> x.frames[k] != []
    ensures WholeLinesAndPart(x)
  {
    hide Concat;
  }

  /** At the exit test of the send loop. */
  predicate AllSent(x: Session) { x.pc.Sending? && x.pc.sent == |x.pc.frame| }

  /** A receiver that frames the wire as the bridge frames its input gets exactly the lines
      completely sent and holds exactly the unfinished part. At the exit test of the send loop the
      line under way is complete already. */
  lemma WireRoundTrip(c: Config, steps: seq<Step>, s: State, o: nat)
    requires Reachable(c, steps, s) && o < |s.sessions|
    ensures var x := s.sessions[o];
      Framer.Run(c.frameMax, Framer.START, x.wire) ==
        if AllSent(x) then Framer.Trace(Framer.FRESH, x.done + [x.part], 0)
        else Framer.Trace(Framer.State(x.part, false), x.done, 0)
  {
    hide Inv, Reachable, Framer.Run, LineIndices, Lines;
    var x := s.sessions[o];
    TakesLinesInOrder(c, steps, s, o);
    WireCarriesWholeLines(c, steps, s, o);
    assert c.frameMax >= 1 by { hide *; LimitIsPositive(c, steps, s); }
    forall i | 0 <= i < |x.done| ensures IsLine(c.frameMax, x.done[i]) {
      assert x.done[i] == x.frames[i];
    }
    if |x.frames| > |x.done| {
      assert IsLine(c.frameMax, x.frames[|x.done|]);
    }
    if AllSent(x) {
      var lines := x.done + [x.part];
      ConcatSnoc(x.done, x.part);
      assert Concat(lines) + [] == x.wire;
      Framer.RoundTrip(c.frameMax, lines, []);
    } else {
      Framer.RoundTrip(c.frameMax, x.done, x.part);
    }
  }

  lemma LimitIsPositive(c: Config, steps: seq<Step>, s: State)
    requires Reachable(c, steps, s)
    ensures c.frameMax >= 1
  {
  }

  // ---------------------------------------------------------------- sinks

  /** A session never fails to get a sink: whenever it asks, one is free. */
  lemma SinksSuffice(c: Config, steps: seq<Step>, s: State, o: nat)
    requires Reachable(c, steps, s) && o < |s.sessions|
    ensures s.sessions[o].pc.Opening? ==> FirstFree(s.sinks, 0) < |s.sinks|
    ensures !s.sessions[o].pc.Rejecting? && s.sessions[o].result != SinkUnavailable
  {
    hide UartOk, FanOk, OwnersOk, SessionsOk, ThreadsOk, FdsOk, DropsOk, CountsOk;
    EveryRun(c, steps);
    OneSession(c, s, o);
    if s.sessions[o].pc.Opening? {
      FreeSink(c, s, o);
    }
  }

  /** Open handles and active slots are in bijection, so no two sessions share a slot; and the check
      in nmea_bridge_sink_take always succeeds, so the session's ENOTCONN exit is never taken. */
  lemma HandlesAndSlots(c: Config, steps: seq<Step>, s: State)
    requires Reachable(c, steps, s)
    ensures forall o :: 0 <= o < |s.sessions| && HoldsSink(s.sessions[o].pc) ==>
      Owns(s.sinks, s.sessions[o], o)
    ensures forall i :: 0 <= i < |s.sinks| && s.sinks[i].active ==> OwnedBack(s.sinks, s.sessions, i)
    ensures forall o, p ::
      (0 <= o < |s.sessions| && 0 <= p < |s.sessions| && o != p
       && HoldsSink(s.sessions[o].pc) && HoldsSink(s.sessions[p].pc))
      ==> s.sessions[o].sinkId != s.sessions[p].sinkId
  {
    hide UartOk, FanOk, SessionsOk, ThreadsOk, FdsOk, DropsOk, CountsOk;
    EveryRun(c, steps);
    forall o, p | 0 <= o < |s.sessions| && 0 <= p < |s.sessions| && o != p &&
      HoldsSink(s.sessions[o].pc) && HoldsSink(s.sessions[p].pc)
      ensures s.sessions[o].sinkId != s.sessions[p].sinkId
    {
      assert Owns(s.sinks, s.sessions[o], o) && Owns(s.sinks, s.sessions[p], p);
    }
  }

  lemma TakeIsNeverRefused(c: Config, steps: seq<Step>, s: State, o: nat)
    requires Reachable(c, steps, s) && o < |s.sessions| && s.sessions[o].pc.Checking?
    requires NextSession(s, o, Tick).Some?
    ensures NextSession(s, o, Tick).value.sessions[o].pc.Getting?
  {
    hide Inv;
    EveryRun(c, steps);
    CheckKeeps(c, s, o);
  }

  // ---------------------------------------------------------------- isolation, suffix, freshness

  /** The frames in the order the dispatcher took them. */
  function DispatchOrder(ingest: Queue): seq<Frame> {
    seq(|ingest.taken|, p requires 0 <= p < |ingest.taken| => Dispatched(ingest, p))
  }

  /** An active sink's queue is the end of what was dispatched since it was opened, up to the frame
      the dispatcher is putting; and it has been offered all of that. */
  lemma SinkHoldsSuffix(c: Config, steps: seq<Step>, s: State, i: nat)
    requires Reachable(c, steps, s) && i < |s.sinks| && s.sinks[i].active
    ensures var slot, order := s.sinks[i], DispatchOrder(s.ingest);
      var upTo := Reached(s.fan.pc, |s.ingest.taken|, i);
      && slot.openedAt <= upTo <= |order|
      && slot.chan.offered == order[slot.openedAt..upTo]
      && (slot.chan.phase.Idle? ==>
            slot.openedAt + |slot.chan.fate| <= upTo
            && slot.chan.queue == order[slot.openedAt + |slot.chan.fate|..upTo])
  {
    hide Inv, Reachable;
    ReachableHolds(c, steps, s);
    OneSlot(c, s, i);
    CarriesOrder(s.sinks[i], s.ingest);
    if s.sinks[i].chan.phase.Idle? {
      QueueIsSuffix(s.sinks[i].chan, c.sinkDepth);
    }
  }

  lemma CarriesOrder(slot: Slot, ingest: Queue)
    requires Carries(slot, ingest)
    ensures slot.chan.offered ==
      DispatchOrder(ingest)[slot.openedAt..slot.openedAt + |slot.chan.offered|]
  {
  }

  lemma QueueIsSuffix(q: Queue, depth: nat)
    requires DropOldest.Inv(q, depth) && q.phase.Idle?
    ensures |q.fate| <= |q.offered| && q.queue == q.offered[|q.fate|..]
  {
  }

  /** A session is never given a frame whose fan-out was complete before its sink was opened, and
      what it was given is exactly what its slot records as taken. */
  lemma Isolation(c: Config, steps: seq<Step>, s: State, o: nat)
    requires Reachable(c, steps, s) && o < |s.sessions|
    ensures var x := s.sessions[o];
      && |x.took| == |x.frames|
      && (forall k :: 0 <= k < |x.took| ==>
            x.since <= x.took[k] < |s.ingest.taken| && x.frames[k] == Dispatched(s.ingest, x.took[k]))
      && (HoldsSink(x.pc) ==> 0 <= x.sinkId < |s.sinks| && x.since == s.sinks[x.sinkId].openedAt)
  {
    hide UartOk, FanOk, OwnersOk, SessionsOk, ThreadsOk, FdsOk, DropsOk, CountsOk;
    EveryRun(c, steps);
    OneSession(c, s, o);
  }

  /** Item p was lost with at least `depth` - k newer items behind it, where k counts the gets that fell
      into the window of the call that lost it. */
  ghost predicate LostLate(q: Queue, depth: nat, p: nat) {
    exists n :: 0 <= n < |q.lost| && n < |q.gaps| && q.lost[n] == p && depth - q.gaps[n] <= |q.offered| - 1 - p
  }

  lemma EveryItemAccounted(q: Queue, depth: nat, p: nat)
    requires DropOldest.Inv(q, depth)
    ensures p >= |q.fate| || p in q.taken || LostLate(q, depth, p)
  {
    if p < |q.fate| {
      assert DropOldest.Position(q, q.fate[p]) == p;
      match q.fate[p]
      case Taken(n) => assert q.taken[n] == p;
      case Lost(n) => assert q.lost[n] == p;
    }
  }

  /** Every frame dispatched to a session's sink is still there or in the dispatcher's hand, or was
      taken by the session, or was lost behind `sinkDepth` - k newer ones, k takes having fallen into
      the window of the call that lost it. So among the last `sinkDepth` only such a call loses any. */
  lemma SinkFreshness(c: Config, steps: seq<Step>, s: State, o: nat, p: nat)
    requires Reachable(c, steps, s) && o < |s.sessions| && HoldsSink(s.sessions[o].pc)
    requires 0 <= s.sessions[o].sinkId < |s.sinks| && s.sinks[s.sessions[o].sinkId].openedAt <= p
    ensures var slot := s.sinks[s.sessions[o].sinkId]; var q := slot.chan;
      && slot.openedAt + |q.offered| == Reached(s.fan.pc, |s.ingest.taken|, s.sessions[o].sinkId)
      && (p - slot.openedAt >= |q.fate| || p in s.sessions[o].took
          || LostLate(q, c.sinkDepth, p - slot.openedAt))
  {
    hide Inv, Reachable, DropOldest.Inv, LostLate, TookInOrder, Writes;
    ReachableHolds(c, steps, s);
    var x := s.sessions[o];
    OneSession(c, s, o);
    OneSlot(c, s, x.sinkId);
    var slot := s.sinks[x.sinkId];
    EveryItemAccounted(slot.chan, c.sinkDepth, p - slot.openedAt);
    if p - slot.openedAt in slot.chan.taken {
      var n :| 0 <= n < |slot.chan.taken| && slot.chan.taken[n] == p - slot.openedAt;
      assert x.took[n] == slot.openedAt + slot.chan.taken[n];
    }
  }

  /** The same for the ingest queue: each line offered to it is queued or in hand, or was dispatched, or
      was lost behind `ingestDepth` - k newer ones. */
  lemma IngestFreshness(c: Config, steps: seq<Step>, s: State, p: nat)
    requires Reachable(c, steps, s)
    ensures p >= |s.ingest.fate| || p in s.ingest.taken || LostLate(s.ingest, c.ingestDepth, p)
  {
    hide Inv, Reachable, DropOldest.Inv, LostLate;
    ReachableHolds(c, steps, s);
    IngestInput(c, s);
    EveryItemAccounted(s.ingest, c.ingestDepth, p);
  }

  // ---------------------------------------------------------------- conservation

  /** Every line framed is dispatched, lost, queued, or in hand; nothing else happens to it. Between
      UART bytes the 32-bit counters balance exactly when the gets that found the ingest queue empty
      are a multiple of 2^32; there are none while fewer than `ingestDepth` gets fell into a window. */
  lemma IngestConservation(c: Config, steps: seq<Step>, s: State)
    requires Reachable(c, steps, s)
    ensures |Lines(c, s)| == |s.ingest.taken| + |s.ingest.lost| + |s.ingest.queue|
      + DropOldest.Pending(s.ingest) + |InHand(s.uart)|
    ensures s.uart.framesIn == Wrap32(|Lines(c, s)|)
    ensures s.uart.pc.Reading? ==>
      ((s.uart.framesIn == Wrap32(|s.ingest.taken| + s.ingest.dropped + |s.ingest.queue|))
       <==> (Wrap32(s.ingest.misses) == 0))
    ensures s.ingest.raced < c.ingestDepth ==> s.ingest.misses == 0
  {
    hide Inv, Reachable, Lines;
    LinesArePublished(c, steps, s);
    IngestInput(c, s);
    Balance(|s.ingest.taken| + |s.ingest.queue|, |s.ingest.lost|, s.ingest.misses);
    PaidOff(s.ingest, c.ingestDepth);
  }

  lemma IngestInput(c: Config, s: State)
    requires Inv(c, s)
    ensures DropOldest.Inv(s.ingest, c.ingestDepth)
    ensures s.uart.framesIn == Wrap32(|s.ingest.offered| + |InHand(s.uart)|)
    ensures s.uart.pc.Reading? ==> s.ingest.phase.Idle?
  {
    hide OwnersOk, SessionsOk, ThreadsOk, FdsOk, DropsOk, CountsOk;
  }

  lemma PaidOff(q: Queue, depth: nat)
    requires DropOldest.Inv(q, depth)
    ensures q.raced < depth ==> q.misses == 0
  {
  }

  lemma Balance(others: nat, lost: nat, misses: nat)
    ensures Wrap32(others + lost) == Wrap32(others + Wrap32(lost + misses)) <==> Wrap32(misses) == 0
  {
    WrapAdds(lost + misses, others);
    WrapAbsorbs(others + lost, misses);
  }

  /** An open sink's counters, while neither the dispatcher nor the taker is between an action and its
      count: queued is the number of frames fanned out since the open, and it balances with consumed,
      dropped and the queue length exactly when the misses are a multiple of 2^32. */
  lemma SinkConservation(c: Config, steps: seq<Step>, s: State, o: nat)
    requires Reachable(c, steps, s) && o < |s.sessions| && HoldsSink(s.sessions[o].pc)
    requires 0 <= s.sessions[o].sinkId < |s.sinks| && !s.sessions[o].pc.Noting?
    requires !Inside(s.fan.pc, s.sessions[o].sinkId)
    ensures var i := s.sessions[o].sinkId; var slot := s.sinks[i];
      && slot.queued == Wrap32(Reached(s.fan.pc, |s.ingest.taken|, i) - slot.openedAt)
      && slot.consumed == Wrap32(|s.sessions[o].took|)
      && ((slot.queued == Wrap32(slot.consumed + slot.chan.dropped + |slot.chan.queue|))
          <==> (Wrap32(slot.chan.misses) == 0))
      && (slot.chan.raced < c.sinkDepth ==> slot.chan.misses == 0)
  {
    hide UartOk, FanOk, OwnersOk, SessionsOk, ThreadsOk, FdsOk, DropsOk, CountsOk, Wrap32, Writes, TookInOrder;
    EveryRun(c, steps);
    OneSession(c, s, o);
    OneSlot(c, s, s.sessions[o].sinkId);
    var chan := s.sinks[s.sessions[o].sinkId].chan;
    var taken := |s.sessions[o].took|;
    WrapAdds(taken, chan.dropped + |chan.queue|);
    Balance(taken + |chan.queue|, |chan.lost|, chan.misses);
    PaidOff(chan, c.sinkDepth);
  }

  // ---------------------------------------------------------------- counters

  /** LED count <= active sessions <= active sinks <= server slots in use + 1 for a running client
      <= 9, at every moment; the first three are equal when no session is between its start or end
      steps. So the LED's 16-bit count never wraps and its guard at zero is never needed. */
  lemma CounterChain(c: Config, steps: seq<Step>, s: State)
    requires Reachable(c, steps, s)
    ensures s.ledSessions <= s.activeSessions <= CountActive(s.sinks)
      <= InUse(s.clients) + (if s.client.pc.Running? then 1 else 0) <= 9
    ensures (forall o :: 0 <= o < |s.sessions| ==> Steady(s.sessions[o].pc)) ==>
      s.ledSessions == s.activeSessions == CountActive(s.sinks)
    ensures forall o :: 0 <= o < |s.sessions| && s.sessions[o].pc.Ending? ==> s.ledSessions > 0
  {
    hide UartOk, FanOk, OwnersOk, SessionsOk, FdsOk, DropsOk;
    EveryRun(c, steps);
    CountChain(s.sessions);
    ThreadsHoldSlots(c, s);
    if forall o :: 0 <= o < |s.sessions| ==> Steady(s.sessions[o].pc) {
      SettledCounts(s.sessions);
    }
    forall o | 0 <= o < |s.sessions| && s.sessions[o].pc.Ending? ensures s.ledSessions > 0 {
      CountsOne(s.sessions, o, InLed);
    }
  }

  predicate Steady(pc: SessionPc) {
    !pc.Counting? && !pc.Announcing? && !pc.Discounting? && !pc.Closing?
  }

  lemma {:induction false} SettledCounts(ss: seq<Session>)
    requires forall o :: 0 <= o < |ss| ==> Steady(ss[o].pc)
    ensures Count(ss, InLed) == Count(ss, InActive) == Count(ss, InSink)
  {
    if ss == [] {
    } else {
      SettledCounts(ss[..|ss| - 1]);
    }
  }

  lemma {:induction false} CountsOne(ss: seq<Session>, o: nat, k: Kind)
    requires o < |ss| && Counts(k, ss[o].pc)
    ensures Count(ss, k) >= 1
  {
    if o == |ss| - 1 {
    } else {
      CountsOne(ss[..|ss| - 1], o, k);
    }
  }

  lemma {:induction false} SlotsCoverThreads(ss: seq<Session>, t: seq<ClientSlot>)
    requires |ss| == |t|
    requires forall k :: 0 <= k < |t| ==> !ss[k].pc.Absent? ==> t[k].active
    ensures Count(ss, InThread) <= InUse(t) <= |t|
  {
    if ss == [] {
    } else {
      SlotsCoverThreads(ss[..|ss| - 1], t[..|t| - 1]);
    }
  }

  lemma ThreadsHoldSlots(c: Config, s: State)
    requires c.Valid() && ThreadsOk(c, s)
    ensures Count(s.sessions, InThread) <=
      InUse(s.clients) + (if s.client.pc.Running? then 1 else 0) <= 9
  {
    var servers := s.sessions[..c.maxClients];
    forall k | 0 <= k < |s.clients| ensures !servers[k].pc.Absent? ==> s.clients[k].active {
      assert ClientSlotOk(s.clients[k], s.sessions[k], AcceptorHas(s.acceptor, k));
    }
    SlotsCoverThreads(servers, s.clients);
    assert s.sessions[..|s.sessions| - 1] == servers;
  }

  /** The framer never gives the bridge a frame it must refuse; between bytes, lines_rx equals
      frames_in; and overlong_lines counts the overflows of the reference. */
  lemma InputCounters(c: Config, steps: seq<Step>, s: State)
    requires Reachable(c, steps, s)
    ensures s.uart.publishInvalid == 0 && s.uart.publishOversize == 0
    ensures s.uart.pc.Reading? ==> s.uart.linesRx == s.uart.framesIn == Wrap32(|Lines(c, s)|)
    ensures s.uart.overlongLines == Wrap32(Framer.Reference(c.frameMax, s.uart.rx).overlong)
  {
    hide FanOk, OwnersOk, SessionsOk, ThreadsOk, FdsOk, DropsOk, CountsOk;
    LinesArePublished(c, steps, s);
    Framer.FramerMeetsReference(c.frameMax, s.uart.rx);
  }

  // ---------------------------------------------------------------- drops over all lifetimes

  /** Whether this step is a drop at a sink: the dispatcher's get inside put_drop_oldest. */
  predicate IsSinkDrop(s: State, step: Step) {
    step.FanStep? && s.fan.pc.Offering? && s.fan.pc.i < |s.sinks| && s.sinks[s.fan.pc.i].chan.phase.Full?
  }

  /** How many steps of a run were drops at a sink. */
  function SinkDrops(c: Config, steps: seq<Step>): nat {
    if steps == [] then 0
    else
      var init := steps[..|steps| - 1];
      SinkDrops(c, init) +
      match After(c, init)
      case None => 0
      case Some(s) => if IsSinkDrop(s, steps[|steps| - 1]) then 1 else 0
  }

  function AllDrops(s: State): nat { s.fan.retired + SumDrops(s.sinks) }

  lemma FanCountsDrops(c: Config, s: State)
    requires c.Valid() && FanOk(c, s.fan, s.ingest, s.sinks) && NextFan(c, s.fan, s.ingest, s.sinks).Some?
    ensures AllDrops(Next(c, s, FanStep).value) == AllDrops(s) + if IsSinkDrop(s, FanStep) then 1 else 0
  {
    hide SumDrops, Wrap32, FanOk;
    var (f, q, sinks) := NextFan(c, s.fan, s.ingest, s.sinks).value;
    if sinks != s.sinks {
      var i := s.fan.pc.i;
      SumAfterUpdate(s.sinks, i, sinks[i]);
      assert sinks == s.sinks[i := sinks[i]];
    }
  }

  lemma SessionCountsDrops(s: State, o: nat, r: Oracle)
    requires o < |s.sessions| && NextSession(s, o, r).Some?
    ensures AllDrops(NextSession(s, o, r).value) == AllDrops(s)
  {
    hide SumDrops, FirstFree, Wrap32, NextLocal;
    var s' := NextSession(s, o, r).value;
    if s'.sinks != s.sinks {
      var i := if s.sessions[o].pc.Opening? then FirstFree(s.sinks, 0) else s.sessions[o].sinkId;
      SumAfterUpdate(s.sinks, i, s'.sinks[i]);
      assert s'.sinks == s.sinks[i := s'.sinks[i]];
    }
  }

  lemma OthersCountNoDrops(c: Config, s: State, step: Step)
    requires !step.FanStep? && !step.SessionStep? && Next(c, s, step).Some?
    ensures AllDrops(Next(c, s, step).value) == AllDrops(s)
  {
    hide SumDrops, NextUart;
  }

  /** Clearing a slot's stats when it is opened again loses nothing of the total. */
  lemma {:induction false} DropsAreNeverForgotten(c: Config, steps: seq<Step>, s: State)
    requires Reachable(c, steps, s)
    ensures AllDrops(s) == SinkDrops(c, steps)
  {
    hide UartOk, OwnersOk, SessionsOk, ThreadsOk, FdsOk, DropsOk, CountsOk, NextFan, NextSession;
    hide NextAcceptor, NextClient, NextUart, SumDrops, FanOk;
    if steps == [] {
      NoneActive(s.sinks);
    } else {
      var init, step := steps[..|steps| - 1], steps[|steps| - 1];
      var b := After(c, init).value;
      DropsAreNeverForgotten(c, init, b);
      EveryRun(c, init);
      match step
      case FanStep => FanCountsDrops(c, b);
      case SessionStep(o, r) => SessionCountsDrops(b, o, r);
      case _ => OthersCountNoDrops(c, b, step);
    }
  }

  /** Whether this step ends a fan-out that found no active sink. */
  predicate IsIdleFanOut(s: State, step: Step) {
    step.FanStep? && s.fan.pc.Scanning? && s.fan.pc.i >= |s.sinks| &&
    forall i :: 0 <= i < |s.sinks| ==> !s.sinks[i].active
  }

  function IdleFanOuts(c: Config, steps: seq<Step>): nat {
    if steps == [] then 0
    else
      var init := steps[..|steps| - 1];
      IdleFanOuts(c, init) +
      match After(c, init)
      case None => 0
      case Some(s) => if IsIdleFanOut(s, steps[|steps| - 1]) then 1 else 0
  }

  lemma StepCountsIdle(c: Config, s: State, step: Step)
    requires Next(c, s, step).Some?
    ensures Next(c, s, step).value.fan.idleRounds ==
      s.fan.idleRounds + if IsIdleFanOut(s, step) then 1 else 0
  {
    if step.SessionStep? {
      SessionLeavesRounds(s, step.o, step.oracle);
    }
  }

  lemma SessionLeavesRounds(s: State, o: nat, r: Oracle)
    requires o < |s.sessions| && NextSession(s, o, r).Some?
    ensures NextSession(s, o, r).value.fan.idleRounds == s.fan.idleRounds
  {
  }

  lemma {:induction false} IdleRoundsAreCounted(c: Config, steps: seq<Step>, s: State)
    requires After(c, steps) == Some(s)
    ensures s.fan.idleRounds == IdleFanOuts(c, steps)
  {
    hide Next;
    if steps == [] {
    } else {
      var init := steps[..|steps| - 1];
      IdleRoundsAreCounted(c, init, After(c, init).value);
      StepCountsIdle(c, After(c, init).value, steps[|steps| - 1]);
    }
  }

  /** The bridge's global counters, modulo 2^32, over the whole run: sink_dropped_oldest is the number
      of drops at all sinks whenever the dispatcher has nothing left to add, and publish_no_sinks is
      the number of fan-outs that found no active sink. */
  lemma GlobalCounters(c: Config, steps: seq<Step>, s: State)
    requires Reachable(c, steps, s)
    ensures !MidSlot(s.fan, s.sinks) ==> s.fan.sinkDropped == Wrap32(SinkDrops(c, steps))
    ensures s.fan.noSinks == Wrap32(IdleFanOuts(c, steps))
  {
    hide UartOk, OwnersOk, SessionsOk, ThreadsOk, FdsOk, CountsOk, SinkDrops, IdleFanOuts;
    EveryRun(c, steps);
    DropsAreNeverForgotten(c, steps, s);
    IdleRoundsAreCounted(c, steps, s);
  }

  // ---------------------------------------------------------------- descriptors and backoff

  /** No descriptor is ever closed that is not open, each open one is held by exactly one place that
      will close it, and what was obtained is closed or open. */
  lemma Descriptors(c: Config, steps: seq<Step>, s: State)
    requires Reachable(c, steps, s)
    ensures s.fds.badCloses == 0
    ensures s.fds.obtained == s.fds.closed + |s.fds.open|
    ensures forall h: nat :: HeldBy(c, s, h).Some? ==> Keeps(s.fds, HeldBy(c, s, h).value, h)
    ensures forall fd :: fd in s.fds.open ==> HeldBy(c, s, s.fds.open[fd]) == Some(fd)
    ensures (forall h: nat :: HeldBy(c, s, h) == None) ==> s.fds.obtained == s.fds.closed
  {
    hide UartOk, FanOk, OwnersOk, SessionsOk, ThreadsOk, DropsOk, CountsOk;
    EveryRun(c, steps);
    assert forall fd :: fd in s.fds.open ==> HeldBy(c, s, s.fds.open[fd]).Some?;
    if forall h: nat :: HeldBy(c, s, h) == None {
      assert s.fds.open == map[];
    }
  }

  /** close_client never closes a descriptor: the session's own close was the last. */
  lemma ServerClosesOnce(c: Config, steps: seq<Step>, s: State, o: nat, r: Oracle)
    requires Reachable(c, steps, s) && o < |s.sessions|
    requires s.sessions[o].pc.Finished? || s.sessions[o].pc.Cleared? || s.sessions[o].pc.Released?
    requires NextSession(s, o, r).Some?
    ensures NextSession(s, o, r).value.fds == s.fds
  {
    hide UartOk, FanOk, OwnersOk, SessionsOk, ThreadsOk, FdsOk, DropsOk, CountsOk, LeaveStep;
    hide OpenStep, CheckStep, GetStep, NoteStep, CloseStep, TallyStep, HangStep, NextLocal, Reachable;
    ReachableHolds(c, steps, s);
    LeaveClosesNothing(c, s, o);
  }

  /** This step sends the client's thread to sleep before its next attempt: no socket, a failed connect,
      or a session that has ended. */
  predicate IsWait(s: State, step: Step) {
    || (step.ClientStep? && s.client.pc.Unconnected? && step.d.NoSocket?)
    || (step.ClientStep? && s.client.pc.Abandoning?)
    || (step.SessionStep? && |s.clients| <= step.o < |s.sessions| && s.sessions[step.o].pc.Finished?)
  }

  /** This step is a connect that works. */
  predicate IsConnection(s: State, step: Step) {
    step.ClientStep? && s.client.pc.Connecting? && step.d.ConnectWorks?
  }

  /** How often the client has waited since its last connection, or since the start. */
  function WaitsSinceConnected(c: Config, steps: seq<Step>): nat {
    if steps == [] then 0
    else
      var init, step := steps[..|steps| - 1], steps[|steps| - 1];
      match After(c, init)
      case None => 0
      case Some(s) =>
        if IsConnection(s, step) then 0
        else WaitsSinceConnected(c, init) + if IsWait(s, step) then 1 else 0
  }

  lemma SessionWaits(s: State, o: nat, r: Oracle)
    requires o < |s.sessions| && NextSession(s, o, r).Some?
    ensures NextSession(s, o, r).value.client.waits ==
      s.client.waits + if IsWait(s, SessionStep(o, r)) then 1 else 0
  {
    hide NextLocal;
  }

  lemma StepWaits(c: Config, s: State, step: Step)
    requires Next(c, s, step).Some?
    ensures Next(c, s, step).value.client.waits ==
      if IsConnection(s, step) then 0 else s.client.waits + if IsWait(s, step) then 1 else 0
  {
    hide NextFan, NextUart, NextSession;
    if step.SessionStep? {
      SessionWaits(s, step.o, step.oracle);
    }
  }

  lemma {:induction false} WaitsAreCounted(c: Config, steps: seq<Step>, s: State)
    requires After(c, steps) == Some(s)
    ensures s.client.waits == WaitsSinceConnected(c, steps)
  {
    hide Next;
    if steps == [] {
    } else {
      var init := steps[..|steps| - 1];
      WaitsAreCounted(c, init, After(c, init).value);
      StepWaits(c, After(c, init).value, steps[|steps| - 1]);
    }
  }

  /** In every run, the client's next wait is min(2^k, 30) seconds when it has waited k times since its
      last connection, or since the start. */
  lemma Backoff(c: Config, steps: seq<Step>, s: State)
    requires Reachable(c, steps, s)
    ensures s.client.backoff == Min(Pow2(WaitsSinceConnected(c, steps)), 30)
  {
    hide UartOk, FanOk, OwnersOk, SessionsOk, FdsOk, DropsOk, CountsOk, WaitsSinceConnected;
    ReachableHolds(c, steps, s);
    WaitsAreCounted(c, steps, s);
  }

  /** A connect that works starts a session and sets the wait back to one second. */
  lemma ConnectionResetsBackoff(c: Config, s: State)
    requires s.client.pc.Connecting? && NextClient(c, s, ConnectWorks).Some?
    ensures var s' := NextClient(c, s, ConnectWorks).value;
      s'.client.pc.Running? && s'.client.backoff == 1 && s'.sessions[c.maxClients].pc.Opening?
  {
  }

  // ---------------------------------------------------------------- closes, counted in the run

  /** This step calls zsock_close. */
  predicate IsClose(s: State, step: Step) {
    match step
    case SessionStep(o, _) =>
      o < |s.sessions| &&
      (|| s.sessions[o].pc.Rejecting? || s.sessions[o].pc.Hanging?
       || (s.sessions[o].pc.Cleared? && o < |s.clients| && s.clients[o].fd >= 0))
    case AcceptStep(_) => s.acceptor.Refusing?
    case ClientStep(_) => s.client.pc.Abandoning?
    case _ => false
  }

  /** This step gets a descriptor from accept or socket. */
  predicate IsObtain(s: State, step: Step) {
    || (step.AcceptStep? && s.acceptor.Listening?)
    || (step.ClientStep? && s.client.pc.Unconnected? && step.d.Socket?)
  }

  function Closes(c: Config, steps: seq<Step>): nat {
    if steps == [] then 0
    else
      var init := steps[..|steps| - 1];
      Closes(c, init) +
      match After(c, init)
      case None => 0
      case Some(s) => if IsClose(s, steps[|steps| - 1]) then 1 else 0
  }

  function Obtains(c: Config, steps: seq<Step>): nat {
    if steps == [] then 0
    else
      var init := steps[..|steps| - 1];
      Obtains(c, init) +
      match After(c, init)
      case None => 0
      case Some(s) => if IsObtain(s, steps[|steps| - 1]) then 1 else 0
  }

  lemma SessionCloses(s: State, o: nat, r: Oracle)
    requires o < |s.sessions| && NextSession(s, o, r).Some?
    ensures var f, f' := s.fds, NextSession(s, o, r).value.fds;
      && f'.obtained == f.obtained
      && f'.closed + f'.badCloses == f.closed + f.badCloses + if IsClose(s, SessionStep(o, r)) then 1 else 0
  {
    hide NextLocal, FirstFree, CloseFd, Wrap32;
    CloseCounts(s.fds, s.sessions[o].fd);
    if o < |s.clients| {
      CloseCounts(s.fds, s.clients[o].fd);
    }
  }

  lemma CloseCounts(f: Fds, fd: int)
    ensures var f' := CloseFd(f, fd);
      f'.obtained == f.obtained && f'.closed + f'.badCloses == f.closed + f.badCloses + 1
  {
  }

  lemma StepCloses(c: Config, s: State, step: Step)
    requires Next(c, s, step).Some?
    ensures var f, f' := s.fds, Next(c, s, step).value.fds;
      && f'.obtained == f.obtained + (if IsObtain(s, step) then 1 else 0)
      && f'.closed + f'.badCloses == f.closed + f.badCloses + if IsClose(s, step) then 1 else 0
  {
    hide NextFan, NextUart, NextSession;
    if step.SessionStep? {
      SessionCloses(s, step.o, step.oracle);
    }
  }

  lemma {:induction false} ClosesAreCounted(c: Config, steps: seq<Step>, s: State)
    requires After(c, steps) == Some(s)
    ensures s.fds.obtained == Obtains(c, steps) && s.fds.closed + s.fds.badCloses == Closes(c, steps)
  {
    hide Next, IsClose, IsObtain;
    if steps == [] {
    } else {
      var init := steps[..|steps| - 1];
      ClosesAreCounted(c, init, After(c, init).value);
      StepCloses(c, After(c, init).value, steps[|steps| - 1]);
    }
  }

  /** Over every run, the closes made are the descriptors obtained less those still open: none is closed
      twice and none is lost. */
  lemma EachClosedOnce(c: Config, steps: seq<Step>, s: State)
    requires Reachable(c, steps, s)
    ensures Obtains(c, steps) == Closes(c, steps) + |s.fds.open|
  {
    hide Inv, Closes, Obtains;
    Descriptors(c, steps, s);
    ClosesAreCounted(c, steps, s);
  }
}
