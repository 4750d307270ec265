/** A run in which a frame does not stay complete: the outbound client's socket takes the first byte of
    a two-byte line and then fails. */
module CutRun {
  import opened Base
  import Framer
  import DropOldest
  import opened Sinks
  import opened SessionSteps
  import opened System
  import opened Theorems
  import opened Endings

  /** One sink, no server, the outbound client alone; it has session 1. */
  const C := Config(1, 1, 32, 2, 2, false, true)

  const LINE: Frame := [65, 10]

  lemma Go(steps: seq<Step>, s: State, step: Step) returns (steps': seq<Step>, s': State)
    requires After(C, steps) == Some(s) && Next(C, s, step).Some?
    ensures After(C, steps') == Some(s') && Next(C, s, step) == Some(s')
  {
    steps', s' := steps + [step], Next(C, s, step).value;
    assert steps'[..|steps|] == steps;
  }

  /** The dispatcher waits, the ingest queue is empty, the UART thread is between lines. */
  predicate AtRest(s: State) {
    s.fan.pc.Waiting? && s.ingest == DropOldest.Empty() && s.uart.pc.Reading? && s.uart.framer == Framer.FRESH
  }

  /** Session 1 is in the socket loop with an empty sink and nothing written. */
  predicate Serving(s: State) {
    && |s.sessions| == 2 && |s.sinks| == 1 && s.sessions[1].sinkId == 0 && s.sinks[0].active
    && s.sessions[1].pc == Draining(false) && s.sessions[1].wire == s.sessions[1].part == []
  }

  lemma Connected() returns (steps: seq<Step>, s: State)
    ensures After(C, steps) == Some(s) && AtRest(s) && Serving(s) && s.sinks[0].chan == DropOldest.Empty()
  {
    hide After;
    steps, s := Begin();
    steps, s := Go(steps, s, ClientStep(Socket(3)));
    steps, s := Go(steps, s, ClientStep(ConnectWorks));
    steps, s := Go(steps, s, SessionStep(1, Tick));
    steps, s := Go(steps, s, SessionStep(1, Tick));
    steps, s := Go(steps, s, SessionStep(1, Tick));
  }

  lemma Begin() returns (steps: seq<Step>, s: State)
    ensures After(C, steps) == Some(s) && s == Init(C)
  {
    steps, s := [], Init(C);
  }

  lemma Framed() returns (steps: seq<Step>, s: State)
    ensures After(C, steps) == Some(s) && Serving(s) && s.sinks[0].chan == DropOldest.Empty()
    ensures s.fan.pc.Waiting? && s.ingest.queue == [LINE]
  {
    hide After;
    steps, s := Connected();
    steps, s := Go(steps, s, UartStep(65));
    steps, s := Go(steps, s, UartStep(10));
    assert s.uart.pc == Counted(LINE);
    steps, s := Go(steps, s, UartStep(0));
  }

  lemma FannedOut() returns (steps: seq<Step>, s: State)
    ensures After(C, steps) == Some(s) && Serving(s) && s.sinks[0].chan.queue == [LINE] && !Locked(s.fan)
  {
    hide After;
    steps, s := Framed();
    steps, s := Go(steps, s, FanStep);
    steps, s := Go(steps, s, FanStep);
    steps, s := Go(steps, s, FanStep);
    assert s.fan.pc.Accounting?;
    steps, s := Go(steps, s, FanStep);
    steps, s := Go(steps, s, FanStep);
  }

  lemma Taken() returns (steps: seq<Step>, s: State)
    ensures After(C, steps) == Some(s) && |s.sessions| == 2
    ensures s.sessions[1].pc == Sending(LINE, 0) && s.sessions[1].wire == s.sessions[1].part == []
  {
    hide After;
    steps, s := FannedOut();
    steps, s := Go(steps, s, SessionStep(1, Rx(WouldBlock)));
    steps, s := Go(steps, s, SessionStep(1, Tick));
    steps, s := Go(steps, s, SessionStep(1, Tick));
    steps, s := Go(steps, s, SessionStep(1, Tick));
  }

  /** A frame need not stay complete on the wire. */
  lemma FrameIsCut()
    ensures exists steps, s ::
      && Reachable(C, steps, s) && |s.sessions| == 2
      && s.sessions[1].result == SendFailed && s.sessions[1].wire == [65]
      && !CompleteLines(C.frameMax, s.sessions[1].wire)
  {
    hide After;
    var steps, s := Taken();
    steps, s := Go(steps, s, SessionStep(1, Tx(Accepts(1))));
    assert LINE[0..1] == [65];
    steps, s := Go(steps, s, SessionStep(1, Tx(SendError)));
    assert Reachable(C, steps, s);
    WireIsCompleteIff(C, steps, s, 1);
  }
}
