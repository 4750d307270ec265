/** What the telemetry poll sees of the running system (src/bridge_telemetry.c:32-57). */
module Observation {
  import opened Base
  import Framer
  import opened Sinks
  import opened SessionSteps
  import opened System
  import opened Invariant
  import opened Theorems
  import Counting
  import DropOldest
  import LedPolicy
  import Server
  import SessionKeeps
  import Telemetry

  /** collect_inputs. */
  function Collect(c: Config, s: State, staReady: bool): Telemetry.Inputs {
    Telemetry.Inputs(s.uart.bytesRx, s.uart.linesRx, s.uart.overlongLines, s.uart.framesIn,
                     s.ingest.dropped, s.fan.sinkDropped, s.fan.noSinks,
                     s.uart.publishInvalid, s.uart.publishOversize,
                     Wrap32(s.activeSessions), Wrap32(Server.InUse(s.clients)), Wrap32(c.maxClients), staReady)
  }

  /** In the running system the data-quality warning means overlong lines and nothing else, and
      "connected" means that some session is between its start and its end. */
  lemma WarningsMean(c: Config, steps: seq<Step>, s: State, staReady: bool)
    requires Reachable(c, steps, s)
    ensures var i := Collect(c, s, staReady);
      && (i.uartOverlongLines > 0 || i.publishInvalid > 0 || i.publishOversize > 0
          <==> Wrap32(Framer.Reference(c.frameMax, s.uart.rx).overlong) != 0)
      && (i.activeSessions > 0 <==>
            exists o :: 0 <= o < |s.sessions| && Counts(InActive, s.sessions[o].pc))
      && i.activeClients <= i.maxClients
  {
    hide Inv, Reachable;
    InputCounters(c, steps, s);
    ReachableHolds(c, steps, s);
    SessionsSeen(c, s);
  }

  lemma SessionsSeen(c: Config, s: State)
    requires c.Valid() && Inv(c, s)
    ensures Wrap32(s.activeSessions) > 0 <==>
      exists o :: 0 <= o < |s.sessions| && Counts(InActive, s.sessions[o].pc)
    ensures Wrap32(Server.InUse(s.clients)) <= Wrap32(c.maxClients)
  {
    hide UartOk, FanOk, OwnersOk, SessionsOk, FdsOk, DropsOk, Count, CountActive, Server.InUse;
    Counting.CountChain(s.sessions);
    SomeCounts(s.sessions, InActive);
    Server.FullPool(s.clients);
  }

  lemma {:induction false} SomeCounts(ss: seq<Session>, k: Kind)
    ensures Count(ss, k) > 0 <==> exists o :: 0 <= o < |ss| && Counts(k, ss[o].pc)
  {
    if ss == [] {
    } else {
      var init := ss[..|ss| - 1];
      SomeCounts(init, k);
      assert forall o :: 0 <= o < |init| ==> init[o] == ss[o];
      if Counts(k, ss[|ss| - 1].pc) {
        assert exists o :: 0 <= o < |ss| && Counts(k, ss[o].pc);
      }
    }
  }

  /** What each collected counter means in the running system: the lines framed and counted, the drops at
      the ingest queue and at all sinks of the whole run, the fan-outs nobody wanted, the overflows, and
      the server slots in use. */
  lemma InputsMean(c: Config, steps: seq<Step>, s: State, staReady: bool)
    requires Reachable(c, steps, s)
    ensures var i := Collect(c, s, staReady);
      && i.framesIn == Wrap32(|Lines(c, s)|)
      && (s.uart.pc.Reading? ==> i.uartLinesRx == Wrap32(|Lines(c, s)|))
      && i.uartBytesRx == Wrap32(|s.uart.rx|)
      && i.uartOverlongLines == Wrap32(Framer.Reference(c.frameMax, s.uart.rx).overlong)
      && i.ingestDropped == Wrap32(|s.ingest.lost| + s.ingest.misses)
      && (!MidSlot(s.fan, s.sinks) ==> i.sinkDropped == Wrap32(SinkDrops(c, steps)))
      && i.noSinks == Wrap32(IdleFanOuts(c, steps))
      && i.publishInvalid == 0 && i.publishOversize == 0
      && i.activeSessions == Count(s.sessions, InActive)
      && i.activeClients == Server.InUse(s.clients) && i.maxClients == c.maxClients
      && i.staReady == staReady
  {
    hide Inv, Reachable, Lines, SinkDrops, IdleFanOuts, Framer.Reference;
    IngestConservation(c, steps, s);
    InputCounters(c, steps, s);
    GlobalCounters(c, steps, s);
    ReachableHolds(c, steps, s);
    RawCounters(c, s);
    SmallCounters(c, s);
  }

  lemma RawCounters(c: Config, s: State)
    requires Inv(c, s)
    ensures s.uart.bytesRx == Wrap32(|s.uart.rx|)
    ensures s.ingest.dropped == Wrap32(|s.ingest.lost| + s.ingest.misses)
  {
    hide OwnersOk, SessionsOk, ThreadsOk, FdsOk, DropsOk, CountsOk;
  }

  lemma SmallCounters(c: Config, s: State)
    requires c.Valid() && Inv(c, s)
    ensures Wrap32(s.activeSessions) == Count(s.sessions, InActive)
    ensures Wrap32(Server.InUse(s.clients)) == Server.InUse(s.clients) && Wrap32(c.maxClients) == c.maxClients
  {
    hide UartOk, FanOk, OwnersOk, SessionsOk, FdsOk, DropsOk, Count, CountActive, Server.InUse;
    Counting.CountChain(s.sessions);
    Server.FullPool(s.clients);
  }

  /** Framed lines are never taken back: an earlier moment of a run has framed a prefix of the later. */
  lemma {:induction false} LinesOnlyGrow(c: Config, steps: seq<Step>, m: nat)
    requires c.Valid() && m <= |steps| && After(c, steps).Some?
    ensures After(c, steps[..m]).Some?
    ensures Lines(c, After(c, steps[..m]).value) <= Lines(c, After(c, steps).value)
  {
    hide Lines, Next;
    if m == |steps| {
      assert steps[..m] == steps;
    } else {
      var init := steps[..|steps| - 1];
      LinesOnlyGrow(c, init, m);
      assert init[..m] == steps[..m];
      LinesGrowByStep(c, After(c, init).value, steps[|steps| - 1]);
    }
  }

  lemma LinesGrowByStep(c: Config, s: State, step: Step)
    requires c.Valid() && Next(c, s, step).Some?
    ensures Lines(c, s) <= Lines(c, Next(c, s, step).value)
  {
    hide Framer.Reference, Framer.Run;
    var rx, rx' := s.uart.rx, Next(c, s, step).value.uart.rx;
    RxGrows(c, s, step);
    if rx' != rx {
      Framer.FramerMeetsReference(c.frameMax, rx);
      Framer.FramerMeetsReference(c.frameMax, rx');
      Framer.RunSnoc(c.frameMax, Framer.START, rx, step.ch);
    }
  }

  lemma RxGrows(c: Config, s: State, step: Step)
    requires Next(c, s, step).Some?
    ensures var rx' := Next(c, s, step).value.uart.rx;
      rx' == s.uart.rx || (step.UartStep? && rx' == s.uart.rx + [step.ch])
  {
    hide NextFan, NextAcceptor, NextClient;
    if step.SessionStep? {
      SessionLeavesUart(s, step.o, step.oracle);
    } else if !step.UartStep? {
      ThreadsLeaveUart(c, s, step);
    }
  }

  lemma SessionLeavesUart(s: State, o: nat, r: Oracle)
    requires o < |s.sessions| && NextSession(s, o, r).Some?
    ensures NextSession(s, o, r).value.uart == s.uart
  {
  }

  lemma ThreadsLeaveUart(c: Config, s: State, step: Step)
    requires !step.UartStep? && !step.SessionStep? && Next(c, s, step).Some?
    ensures Next(c, s, step).value.uart == s.uart
  {
    hide NextFan;
  }

  /** Between two polls, frames_in differs exactly when the lines accepted in the meantime are not a
      multiple of 2^32; so, with fewer than that, exactly when there are any. */
  lemma PollsSeeNewLines(c: Config, steps: seq<Step>, m: nat)
    requires c.Valid() && m <= |steps| && After(c, steps).Some? && After(c, steps[..m]).Some?
    ensures var a, b := After(c, steps[..m]).value, After(c, steps).value;
      var news := |Lines(c, b)| - |Lines(c, a)|;
      && news >= 0
      && (b.uart.framesIn != a.uart.framesIn <==> news % WORD != 0)
      && (news < WORD ==> (b.uart.framesIn != a.uart.framesIn <==> news > 0))
  {
    hide Lines, After;
    var a, b := After(c, steps[..m]).value, After(c, steps).value;
    LinesOnlyGrow(c, steps, m);
    IngestConservation(c, steps[..m], a);
    IngestConservation(c, steps, b);
    Telemetry.MovedMeansAccepted(|Lines(c, a)|, |Lines(c, b)|);
  }

  // ---------------------------------------------------------------- what the LED is told

  /** The LED call that is part of this step, if there is one; `now` is the time it is made. */
  function LedCall(s: State, step: Step, now: nat): seq<LedPolicy.Event> {
    match step
    case UartStep(_) => if s.uart.pc.Published? then [LedPolicy.FrameReceived(now)] else []
    case SessionStep(o, _) =>
      if o >= |s.sessions| then []
      else
        (match s.sessions[o].pc
         case Announcing => [LedPolicy.SessionStarted]
         case Ending => [LedPolicy.SessionEnded]
         case Forwarding => [LedPolicy.FrameForwarded(now)]
         case Failing => [LedPolicy.SendFailed(now)]
         case Finished => if o >= |s.clients| then [LedPolicy.ClientConnecting(true)] else []
         case _ => [])
    case ClientStep(d) =>
      if s.client.pc.Unconnected? then [LedPolicy.ClientConnecting(true)]
      else if s.client.pc.Connecting? && d.ConnectWorks? then [LedPolicy.ClientConnecting(false)]
      else []
    case _ => []
  }

  /** The LED calls of a session's steps: starts and ends go with the count, a forwarded-frame flash with
      a frame completely sent, a failure flash with a session ended by a failed send. */
  lemma SessionCallMeans(c: Config, steps: seq<Step>, s: State, o: nat, r: Oracle, now: nat)
    requires Reachable(c, steps, s) && o < |s.sessions| && NextSession(s, o, r).Some?
    ensures var x, s', call := s.sessions[o], NextSession(s, o, r).value, LedCall(s, SessionStep(o, r), now);
      && (LedPolicy.SessionStarted in call <==> s'.ledSessions > s.ledSessions)
      && (LedPolicy.SessionEnded in call <==> s'.ledSessions < s.ledSessions)
      && (LedPolicy.FrameForwarded(now) in call <==> x.pc.Forwarding?)
      && (LedPolicy.FrameForwarded(now) in call ==> x.frames == x.done && x.done != [])
      && (LedPolicy.SendFailed(now) in call <==> x.pc.Failing?)
      && (LedPolicy.SendFailed(now) in call ==> x.result == SendFailed && |x.frames| == |x.done| + 1)
      && (LedPolicy.ClientConnecting(true) in call <==> o >= |s.clients| && x.pc.Finished?)
      && LedPolicy.FrameReceived(now) !in call && LedPolicy.ClientConnecting(false) !in call
  {
    hide Inv, Reachable, NextSession, Concat, TookInOrder, Linked, Owns;
    CounterChain(c, steps, s);
    SessionTallies(s, o, r);
    ReachableHolds(c, steps, s);
    SessionKeeps.OneSession(c, s, o);
  }

  /** The LED calls of the other threads: a received-frame flash goes with a line being counted, and the
      connecting flag follows the outbound client. */
  lemma OtherCallsMean(c: Config, s: State, step: Step, now: nat)
    requires !step.SessionStep? && Next(c, s, step).Some?
    ensures var s', call := Next(c, s, step).value, LedCall(s, step, now);
      && (LedPolicy.FrameReceived(now) in call <==> s'.uart.linesRx != s.uart.linesRx)
      && (LedPolicy.ClientConnecting(true) in call <==> s.client.pc.Unconnected? && s'.client != s.client)
      && (LedPolicy.ClientConnecting(false) in call <==> s'.client.pc.Running? && !s.client.pc.Running?)
      && (forall e :: e in call ==>
            e in {LedPolicy.FrameReceived(now), LedPolicy.ClientConnecting(true), LedPolicy.ClientConnecting(false)})
  {
    hide NextFan, DropOldest.FirstPut, DropOldest.DropGet, DropOldest.SecondPut;
    if step.UartStep? {
      LinesAreCounted(c, s.uart, s.ingest, step.ch);
    }
  }

  lemma LinesAreCounted(c: Config, u: Uart, ingest: Queue, ch: Byte)
    ensures NextUart(c, u, ingest, ch).0.linesRx != u.linesRx <==> u.pc.Published?
  {
  }

  /** Everything the LED has been told in a run; step i happens at time `clock(i)`. */
  function LedHistory(c: Config, steps: seq<Step>, clock: nat -> nat): seq<LedPolicy.Event> {
    if steps == [] then []
    else
      var init := steps[..|steps| - 1];
      LedHistory(c, init, clock) +
      match After(c, init)
      case None => []
      case Some(s) => LedCall(s, steps[|steps| - 1], clock(|init|))
  }

  lemma NetSnoc(h: seq<LedPolicy.Event>, e: LedPolicy.Event)
    requires LedPolicy.Paired(h)
    ensures var net := LedPolicy.Net(h) + match e case SessionStarted => 1 case SessionEnded => -1 case _ => 0;
      && LedPolicy.Net(h + [e]) == net
      && (0 <= net < 0x1_0000 ==> LedPolicy.Paired(h + [e]))
  {
    var t := h + [e];
    assert t[..|h|] == h && t[..|t|] == t;
    assert forall i :: 0 <= i <= |h| ==> t[..i] == h[..i];
  }

  lemma SessionTallies(s: State, o: nat, r: Oracle)
    requires o < |s.sessions| && NextSession(s, o, r).Some?
    ensures NextSession(s, o, r).value.ledSessions ==
      if s.sessions[o].pc.Announcing? then Wrap16(s.ledSessions + 1)
      else if s.sessions[o].pc.Ending? && s.ledSessions > 0 then s.ledSessions - 1 else s.ledSessions
  {
    hide NextLocal;
  }

  lemma OthersLeaveTally(c: Config, s: State, step: Step)
    requires Next(c, s, step).Some? && !step.SessionStep?
    ensures Next(c, s, step).value.ledSessions == s.ledSessions
  {
    hide NextFan, NextUart;
  }

  /** The outbound client is on its way to a connection: it has begun, and no session of it runs. */
  predicate Dials(client: Client) {
    client.pc.Connecting? || client.pc.Abandoning? || (client.pc.Unconnected? && client.waits > 0)
  }

  /** The connecting flag after one more call. */
  function Flag(was: bool, call: seq<LedPolicy.Event>): bool {
    if call != [] && call[0].ClientConnecting? then call[0].on else was
  }

  lemma DialingSnoc(h: seq<LedPolicy.Event>, e: LedPolicy.Event)
    ensures LedPolicy.Dialing(h + [e]) == Flag(LedPolicy.Dialing(h), [e])
  {
    assert (h + [e])[..|h|] == h;
  }

  lemma SessionDials(s: State, o: nat, r: Oracle, now: nat)
    requires o < |s.sessions| && NextSession(s, o, r).Some?
    ensures Dials(NextSession(s, o, r).value.client) ==
      Flag(Dials(s.client), LedCall(s, SessionStep(o, r), now))
  {
    hide NextLocal, FirstFree, CloseFd, Wrap32;
  }

  lemma StepDials(c: Config, s: State, step: Step, now: nat)
    requires Next(c, s, step).Some?
    ensures Dials(Next(c, s, step).value.client) == Flag(Dials(s.client), LedCall(s, step, now))
  {
    hide NextFan, NextUart, NextSession;
    if step.SessionStep? {
      SessionDials(s, step.o, step.oracle, now);
    }
  }

  /** In every run the LED hears of starts and ends in matched pairs: its history always nets to the
      sessions it counts, and its connecting flag says whether the client is on its way to a connection.
      So the base state is "connected" exactly while sessions are counted, else "connecting" exactly
      while the client dials. */
  lemma {:induction false} LedFollowsRun(c: Config, steps: seq<Step>, s: State, clock: nat -> nat)
    requires Reachable(c, steps, s)
    ensures var h := LedHistory(c, steps, clock);
      && LedPolicy.Paired(h) && LedPolicy.Net(h) == s.ledSessions && LedPolicy.Dialing(h) == Dials(s.client)
      && LedPolicy.After(h).sessions == s.ledSessions && LedPolicy.After(h).connecting == Dials(s.client)
      && LedPolicy.BaseOf(LedPolicy.After(h)) ==
           if s.ledSessions > 0 then LedPolicy.Connected
           else if Dials(s.client) then LedPolicy.Connecting else LedPolicy.Disconnected
  {
    hide LedPolicy.Paired, LedPolicy.Net, LedPolicy.After, LedPolicy.Dialing, Inv, Next;
    if steps == [] {
      EmptyIsPaired();
    } else {
      var init, step := steps[..|steps| - 1], steps[|steps| - 1];
      var b := After(c, init).value;
      LedFollowsRun(c, init, b, clock);
      CallFollowsStep(c, init, b, step, LedHistory(c, init, clock), clock(|init|));
    }
    LedPolicy.BaseMeetsHistory(LedHistory(c, steps, clock));
  }

  lemma EmptyIsPaired()
    ensures LedPolicy.Paired([]) && LedPolicy.Net([]) == 0 && !LedPolicy.Dialing([])
  {
  }

  lemma CallFollowsStep(c: Config, steps: seq<Step>, s: State, step: Step, h: seq<LedPolicy.Event>, now: nat)
    requires Reachable(c, steps, s) && Next(c, s, step).Some?
    requires LedPolicy.Paired(h) && LedPolicy.Net(h) == s.ledSessions && LedPolicy.Dialing(h) == Dials(s.client)
    ensures var h', s' := h + LedCall(s, step, now), Next(c, s, step).value;
      LedPolicy.Paired(h') && LedPolicy.Net(h') == s'.ledSessions && LedPolicy.Dialing(h') == Dials(s'.client)
  {
    hide LedPolicy.Paired, LedPolicy.Net, LedPolicy.Dialing, Inv, Reachable, Dials;
    hide NextSession, NextFan, NextUart, NextAcceptor, NextClient;
    var call := LedCall(s, step, now);
    StepDials(c, s, step, now);
    if call == [] {
      assert h + call == h;
    } else {
      assert call == [call[0]];
      NetSnoc(h, call[0]);
      DialingSnoc(h, call[0]);
    }
    CounterChain(c, steps, s);
    if step.SessionStep? {
      SessionTallies(s, step.o, step.oracle);
    } else {
      OthersLeaveTally(c, s, step);
    }
  }

  /** In every run, the colour shown at T is the right one for what the run has told the LED, as long as
      no flash is too far away in time. */
  lemma LedShowsRun(c: Config, steps: seq<Step>, s: State, clock: nat -> nat, T: nat)
    requires Reachable(c, steps, s) && LedPolicy.Near(LedHistory(c, steps, clock), T)
    ensures var h := LedHistory(c, steps, clock);
      var colour := LedPolicy.Render(LedPolicy.After(h), Wrap32(T));
      && LedPolicy.RightColour(h, T, colour)
      && ((forall k :: !LedPolicy.Live(h, k, T)) ==>
            && (s.ledSessions > 0 ==> colour == LedPolicy.Rgb(0, 16, 0))
            && (s.ledSessions == 0 && !Dials(s.client) ==> colour == LedPolicy.Rgb(16, 0, 0)))
  {
    hide LedPolicy.Render, LedPolicy.Live, LedPolicy.After, LedPolicy.Near, LedPolicy.Paired, LedHistory, Reachable;
    LedFollowsRun(c, steps, s, clock);
    LedPolicy.ColourMeetsHistory(LedHistory(c, steps, clock), T);
  }
}
