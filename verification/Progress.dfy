/** No thread is ever stuck: it can move, or waits for something that only its own source can give. */
module Progress {
  import opened Base
  import opened Sinks
  import opened SessionSteps
  import opened System
  import opened Invariant
  import opened SessionKeeps
  import opened Theorems

  /** Where a session waits for sinks_lock. */
  predicate NeedsLock(pc: SessionPc) { pc.Opening? || pc.Checking? || pc.Closing? }

  /** What the socket must answer for the session to go on. */
  function Asks(pc: SessionPc): Oracle {
    if pc.Draining? then Rx(WouldBlock) else if pc.Sending? then Tx(Again) else Tick
  }

  /** The dispatcher moves unless it waits for a frame; in particular it always moves while it holds
      the lock. */
  lemma DispatcherMoves(c: Config, steps: seq<Step>, s: State)
    requires Reachable(c, steps, s)
    ensures Next(c, s, FanStep).Some? <==> !(s.fan.pc.Waiting? && s.ingest.queue == [])
    ensures Locked(s.fan) ==> Next(c, s, FanStep).Some?
  {
    hide Inv, Reachable;
    ReachableHolds(c, steps, s);
    DispatcherPlaces(c, s);
  }

  lemma DispatcherPlaces(c: Config, s: State)
    requires Inv(c, s)
    ensures s.fan.pc.Scanning? || s.fan.pc.Offering? || s.fan.pc.Accounting? ==> s.fan.pc.i <= |s.sinks|
    ensures s.fan.pc.Offering? || s.fan.pc.Accounting? ==> s.fan.pc.i < |s.sinks|
    ensures s.fan.pc.Offering? ==> !s.sinks[s.fan.pc.i].chan.phase.Idle?
  {
    hide UartOk, OwnersOk, SessionsOk, ThreadsOk, FdsOk, DropsOk, CountsOk;
    if s.fan.pc.Offering? {
      OneSlot(c, s, s.fan.pc.i);
    }
  }

  /** A running session moves whenever the socket answers, unless it waits for the lock. */
  lemma SessionMovesOn(c: Config, steps: seq<Step>, s: State, o: nat)
    requires Reachable(c, steps, s) && o < |s.sessions| && !s.sessions[o].pc.Absent?
    ensures NextSession(s, o, Asks(s.sessions[o].pc)).Some?
         <==> !(NeedsLock(s.sessions[o].pc) && Locked(s.fan))
  {
    hide Inv, Reachable;
    ReachableHolds(c, steps, s);
    OneSession(c, s, o);
    LeavingPlaces(c, s, o);
    hide Linked, TookInOrder, Writes;
    var x := s.sessions[o];
    if HoldsSink(x.pc) {
      assert 0 <= x.sinkId < |s.sinks|;
    }
  }

  lemma LeavingPlaces(c: Config, s: State, o: nat)
    requires Inv(c, s) && o < |s.sessions|
    ensures |s.clients| + 1 == |s.sessions|
    ensures s.sessions[o].pc.Cleared? || s.sessions[o].pc.Released? ==> o < |s.clients|
  {
    hide UartOk, FanOk, OwnersOk, SessionsOk, FdsOk, DropsOk, CountsOk;
  }

  /** The accept loop and the outbound client move whenever the network answers: an accept or a socket
      may return any descriptor that is not open, and between an accept or
      a socket and its hand-over or close nothing holds them up. */
  lemma ThreadsMoveOn(c: Config, steps: seq<Step>, s: State, fd: nat)
    requires Reachable(c, steps, s)
    ensures NextAcceptor(c, s, fd).Some? <==> !s.acceptor.Listening? || (c.serverEnabled && fd !in s.fds.open)
    ensures s.client.pc.Unconnected? && c.clientEnabled ==>
      NextClient(c, s, NoSocket).Some? && (NextClient(c, s, Socket(fd)).Some? <==> fd !in s.fds.open)
    ensures s.client.pc.Connecting? ==>
      NextClient(c, s, ConnectFails).Some? && NextClient(c, s, ConnectWorks).Some?
    ensures s.client.pc.Abandoning? ==> NextClient(c, s, NoSocket).Some?
    ensures s.client.pc.Running? ==>
      c.maxClients < |s.sessions| && !s.sessions[c.maxClients].pc.Absent?
  {
    hide UartOk, FanOk, OwnersOk, SessionsOk, FdsOk, DropsOk, CountsOk;
    ReachableHolds(c, steps, s);
  }

  // ---------------------------------------------------------------- the lock is given back

  /** How many dispatcher steps are left at most until sinks_lock is free. */
  function LockWork(f: Fan, sinks: seq<Slot>): int {
    match f.pc
    case Waiting => 0
    case Holding(_) => 0
    case Scanning(_, i, _) => 4 * (|sinks| - i) + 1
    case Offering(_, i, _, _) =>
      4 * (|sinks| - i) - if i < |sinks| && sinks[i].chan.phase.Retrying? then 1 else 0
    case Accounting(_, i, _, _) => 4 * (|sinks| - i) - 2
  }

  /** While the lock is held, each dispatcher step brings its release closer, from at most four steps
      for each slot and one; no step of another thread puts it off. */
  lemma LockIsReleased(c: Config, steps: seq<Step>, s: State, step: Step)
    requires Reachable(c, steps, s) && Locked(s.fan) && Next(c, s, step).Some?
    ensures var s' := Next(c, s, step).value;
      && 0 < LockWork(s.fan, s.sinks) <= 4 * c.maxSinks + 1
      && (if step.FanStep? then
            if Locked(s'.fan) then LockWork(s'.fan, s'.sinks) < LockWork(s.fan, s.sinks) else true
          else Locked(s'.fan) && LockWork(s'.fan, s'.sinks) == LockWork(s.fan, s.sinks))
      && (LockWork(s.fan, s.sinks) == 1 && step.FanStep? ==> !Locked(s'.fan))
  {
    hide Inv, Reachable;
    ReachableHolds(c, steps, s);
    DispatcherPlaces(c, s);
    TableSize(c, s);
    match step
    case FanStep => FanStepWorks(c, s);
    case SessionStep(o, r) => SessionStepWaits(s, o, r);
    case UartStep(_) =>
    case AcceptStep(_) =>
    case ClientStep(_) =>
  }

  lemma TableSize(c: Config, s: State)
    requires Inv(c, s)
    ensures |s.sinks| == c.maxSinks
  {
    hide UartOk, OwnersOk, SessionsOk, ThreadsOk, FdsOk, DropsOk, CountsOk;
  }

  lemma FanStepWorks(c: Config, s: State)
    requires Locked(s.fan) && NextFan(c, s.fan, s.ingest, s.sinks).Some?
    requires s.fan.pc.i <= |s.sinks| && (!s.fan.pc.Scanning? ==> s.fan.pc.i < |s.sinks|)
    ensures var (f, q, sinks) := NextFan(c, s.fan, s.ingest, s.sinks).value;
      && |sinks| == |s.sinks|
      && (Locked(f) ==> LockWork(f, sinks) < LockWork(s.fan, s.sinks))
      && (LockWork(s.fan, s.sinks) == 1 ==> !Locked(f))
  {
  }

  lemma SessionStepWaits(s: State, o: nat, r: Oracle)
    requires o < |s.sessions| && Locked(s.fan) && NextSession(s, o, r).Some?
    ensures var s' := NextSession(s, o, r).value;
      s'.fan == s.fan && LockWork(s'.fan, s'.sinks) == LockWork(s.fan, s.sinks)
  {
    hide NextLocal;
  }
}
