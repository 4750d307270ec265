/** Every step of the accept loop and of the outbound client keeps the invariant. */
module ThreadSteps {
  import opened Base
  import opened Sinks
  import opened SessionSteps
  import opened System
  import opened Invariant
  import opened SessionKeeps

  /** Nothing but threads' bookkeeping changes. */
  ghost predicate SameData(s: State, s': State) {
    && s'.uart == s.uart && s'.ingest == s.ingest && s'.fan == s.fan && s'.sinks == s.sinks
    && s'.activeSessions == s.activeSessions && s'.ledSessions == s.ledSessions
  }

  lemma Reassemble(c: Config, s: State, s': State)
    requires c.Valid() && Inv(c, s) && SameData(s, s') && s'.sessions == s.sessions
    requires ThreadsOk(c, s') && FdsOk(c, s')
    ensures Inv(c, s')
  {
    hide UartOk, FanOk, OwnersOk, SessionsOk, ThreadsOk, FdsOk, DropsOk;
  }

  // ---------------------------------------------------------------- descriptors

  lemma ObtainKeepsFds(c: Config, s: State, s': State, h: nat, fd: nat)
    requires FdsOk(c, s) && fd !in s.fds.open && s'.fds == Obtain(s.fds, fd, h)
    requires HeldBy(c, s, h) == None
    requires forall p: nat :: HeldBy(c, s', p) == if p == h then Some(fd) else HeldBy(c, s, p)
    ensures FdsOk(c, s')
  {
    assert s'.fds.open.Keys == s.fds.open.Keys + {fd};
    assert |s'.fds.open.Keys| == |s.fds.open.Keys| + 1;
    forall p: nat | HeldBy(c, s', p).Some? ensures Keeps(s'.fds, HeldBy(c, s', p).value, p) {
      if p != h {
        assert Keeps(s.fds, HeldBy(c, s, p).value, p);
      }
    }
  }

  lemma HandKeepsFds(c: Config, s: State, s': State, from: nat, to: nat, fd: nat)
    requires FdsOk(c, s) && from != to && HeldBy(c, s, from) == Some(fd) && HeldBy(c, s, to) == None
    requires s'.fds == Hand(s.fds, fd, to)
    requires forall p: nat ::
      HeldBy(c, s', p) == (if p == to then Some(fd) else if p == from then None else HeldBy(c, s, p))
    ensures FdsOk(c, s')
  {
    assert Keeps(s.fds, fd, from);
    assert s'.fds.open.Keys == s.fds.open.Keys;
    assert |s'.fds.open.Keys| == |s.fds.open.Keys|;
    forall p: nat | HeldBy(c, s', p).Some? ensures Keeps(s'.fds, HeldBy(c, s', p).value, p) {
      if p != to {
        assert Keeps(s.fds, HeldBy(c, s, p).value, p);
      }
    }
  }

  // ---------------------------------------------------------------- a session begins

  lemma StartKeeps(c: Config, s: State, s': State, o: nat, fd: nat)
    requires c.Valid() && Inv(c, s) && SameData(s, s') && o < |s.sessions|
    requires s.sessions[o].pc.Absent? && s'.sessions == s.sessions[o := Start(fd)]
    requires ThreadsOk(c, s') && FdsOk(c, s')
    ensures Inv(c, s')
  {
    hide UartOk, FanOk, OwnersOk, SessionsOk, ThreadsOk, FdsOk, DropsOk, CountsOk;
    StartKeepsOwners(s.sinks, s.sessions, o, fd);
    PutKeepsSessions(s.ingest, s.sinks, s.sessions, o, Start(fd));
    SameTallies(c, s, o, Start(fd), s');
  }

  lemma StartKeepsOwners(sinks: seq<Slot>, ss: seq<Session>, o: nat, fd: nat)
    requires OwnersOk(sinks, ss) && o < |ss| && ss[o].pc.Absent?
    ensures OwnersOk(sinks, ss[o := Start(fd)])
  {
    var t := ss[o := Start(fd)];
    forall p | 0 <= p < |t| && HoldsSink(t[p].pc) ensures Owns(sinks, t[p], p) {
      assert Owns(sinks, ss[p], p);
    }
    forall i | 0 <= i < |sinks| && sinks[i].active ensures OwnedBack(sinks, t, i) {
      assert OwnedBack(sinks, ss, i);
    }
  }

  // ---------------------------------------------------------------- the accept loop

  lemma AcceptKeepsThreads(c: Config, s: State, fd: nat)
    requires ThreadsOk(c, s) && NextAcceptor(c, s, fd).Some?
    ensures ThreadsOk(c, NextAcceptor(c, s, fd).value)
  {
    var s' := NextAcceptor(c, s, fd).value;
    forall k | 0 <= k < c.maxClients
      ensures ClientSlotOk(s'.clients[k], s'.sessions[k], AcceptorHas(s'.acceptor, k))
    {
      assert ClientSlotOk(s.clients[k], s.sessions[k], AcceptorHas(s.acceptor, k));
    }
  }

  /** Where descriptors are held after a step of the accept loop. */
  lemma AcceptMovesFds(c: Config, s: State, fd: nat)
    requires |s.sessions| == c.maxClients + 1 && NextAcceptor(c, s, fd).Some?
    ensures var s', h := NextAcceptor(c, s, fd).value, AcceptorPlace(c);
      forall p: nat :: p != h && !(s.acceptor.Spawning? && p == s.acceptor.slot) ==>
        HeldBy(c, s', p) == HeldBy(c, s, p)
  {
  }

  lemma SpawnKeepsFds(c: Config, s: State, fd: nat)
    requires ThreadsOk(c, s) && FdsOk(c, s) && NextAcceptor(c, s, fd).Some? && s.acceptor.Spawning?
    ensures FdsOk(c, NextAcceptor(c, s, fd).value)
  {
    hide FdsOk;
    var s', h, k, held := NextAcceptor(c, s, fd).value, AcceptorPlace(c), s.acceptor.slot, s.acceptor.fd;
    assert ClientSlotOk(s.clients[k], s.sessions[k], AcceptorHas(s.acceptor, k));
    AcceptMovesFds(c, s, fd);
    HandKeepsFds(c, s, s', h, k, held);
  }

  lemma AcceptKeepsFds(c: Config, s: State, fd: nat)
    requires ThreadsOk(c, s) && FdsOk(c, s) && NextAcceptor(c, s, fd).Some?
    ensures FdsOk(c, NextAcceptor(c, s, fd).value)
  {
    hide FdsOk;
    var s', h := NextAcceptor(c, s, fd).value, AcceptorPlace(c);
    if s.acceptor.Spawning? {
      SpawnKeepsFds(c, s, fd);
    } else {
      AcceptMovesFds(c, s, fd);
      match s.acceptor
      case Listening => ObtainKeepsFds(c, s, s', h, fd);
      case Refusing(held) => CloseHeld(c, s, s', h, held);
      case _ => SameHolders(c, s, s');
    }
  }

  lemma AcceptKeeps(c: Config, s: State, fd: nat)
    requires c.Valid() && Inv(c, s) && NextAcceptor(c, s, fd).Some?
    ensures Inv(c, NextAcceptor(c, s, fd).value)
  {
    hide UartOk, FanOk, OwnersOk, SessionsOk, FdsOk, DropsOk, CountsOk;
    AcceptKeepsThreads(c, s, fd);
    AcceptKeepsFds(c, s, fd);
    if s.acceptor.Spawning? {
      var k := s.acceptor.slot;
      assert ClientSlotOk(s.clients[k], s.sessions[k], AcceptorHas(s.acceptor, k));
      StartKeeps(c, s, NextAcceptor(c, s, fd).value, k, s.acceptor.fd);
    } else {
      Reassemble(c, s, NextAcceptor(c, s, fd).value);
    }
  }

  // ---------------------------------------------------------------- the outbound client

  lemma ClientKeepsThreads(c: Config, s: State, d: Dial)
    requires ThreadsOk(c, s) && NextClient(c, s, d).Some?
    ensures ThreadsOk(c, NextClient(c, s, d).value)
  {
    var s' := NextClient(c, s, d).value;
    forall k | 0 <= k < c.maxClients
      ensures ClientSlotOk(s'.clients[k], s'.sessions[k], AcceptorHas(s'.acceptor, k))
    {
      assert ClientSlotOk(s.clients[k], s.sessions[k], AcceptorHas(s.acceptor, k));
    }
  }

  lemma ClientMovesFds(c: Config, s: State, d: Dial)
    requires |s.sessions| == c.maxClients + 1 && NextClient(c, s, d).Some?
    ensures var s', h := NextClient(c, s, d).value, ConnectorPlace(c);
      forall p: nat :: p != h && !(s.client.pc.Connecting? && d.ConnectWorks? && p == c.maxClients) ==>
        HeldBy(c, s', p) == HeldBy(c, s, p)
  {
  }

  lemma ClientKeepsFds(c: Config, s: State, d: Dial)
    requires ThreadsOk(c, s) && FdsOk(c, s) && NextClient(c, s, d).Some?
    ensures FdsOk(c, NextClient(c, s, d).value)
  {
    hide FdsOk;
    var s', h := NextClient(c, s, d).value, ConnectorPlace(c);
    ClientMovesFds(c, s, d);
    match s.client.pc
    case Unconnected => if d.Socket? { ObtainKeepsFds(c, s, s', h, d.fd); } else { SameHolders(c, s, s'); }
    case Connecting(fd) =>
      if d.ConnectFails? {
        SameHolders(c, s, s');
      } else {
        HandKeepsFds(c, s, s', h, c.maxClients, fd);
      }
    case Abandoning(fd) => CloseHeld(c, s, s', h, fd);
    case Running =>
  }

  lemma ClientKeeps(c: Config, s: State, d: Dial)
    requires c.Valid() && Inv(c, s) && NextClient(c, s, d).Some?
    ensures Inv(c, NextClient(c, s, d).value)
  {
    hide UartOk, FanOk, OwnersOk, SessionsOk, FdsOk, DropsOk, CountsOk;
    ClientKeepsThreads(c, s, d);
    ClientKeepsFds(c, s, d);
    if s.client.pc.Connecting? && !d.ConnectFails? {
      StartKeeps(c, s, NextClient(c, s, d).value, c.maxClients, s.client.pc.fd);
    } else {
      Reassemble(c, s, NextClient(c, s, d).value);
    }
  }
}
