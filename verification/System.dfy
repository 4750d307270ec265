/** All threads of the data path as one transition system. A step is one atomic action of one thread:
    one `k_msgq` put or get, one region under a lock, one counter update, one socket result. The
    dispatcher keeps `sinks_lock` over many steps; the other locked regions are single steps that
    wait while it is held. Fields below a "history" comment are never read by a step. */
module System {
  import opened Base
  import Framer
  import DropOldest
  import opened Sinks
  import opened SessionSteps

  // ---------------------------------------------------------------- UART thread (src/uart_nmea.c)

  datatype UartPc =
    | Reading                 // at uart_poll_in
    | Counted(frame: Frame)   // frames_in updated, about to put
    | Putting                 // inside put_drop_oldest after a failed first put
    | Published               // back from nmea_bridge_publish_frame, lines_rx not yet updated

  datatype Uart = Uart(
    pc: UartPc, framer: Framer.State,
    bytesRx: uint32, linesRx: uint32, overlongLines: uint32,
    framesIn: uint32, publishInvalid: uint32, publishOversize: uint32,
    // history
    rx: seq<Byte>)

  function ReceiveByte(c: Config, u: Uart, ch: Byte): Uart {
    var (framer, event) := Framer.Feed(c.frameMax, u.framer, ch);
    var u := u.(framer := framer, bytesRx := Wrap32(u.bytesRx + 1), rx := u.rx + [ch]);
    match event
    case Quiet => u
    case Overlong => u.(overlongLines := Wrap32(u.overlongLines + 1))
    case Publish(frame) =>
      match Vet(c.frameMax, frame)
      case Invalid => u.(pc := Published, publishInvalid := Wrap32(u.publishInvalid + 1))
      case Oversize => u.(pc := Published, publishOversize := Wrap32(u.publishOversize + 1))
      case Acceptable => u.(pc := Counted(frame), framesIn := Wrap32(u.framesIn + 1))
  }

  function NextUart(c: Config, u: Uart, ingest: Queue, ch: Byte): (Uart, Queue) {
    match u.pc
    case Reading => (ReceiveByte(c, u, ch), ingest)
    case Counted(frame) =>
      var q := DropOldest.FirstPut(ingest, c.ingestDepth, frame);
      (u.(pc := if q.phase.Idle? then Published else Putting), q)
    case Putting =>
      if ingest.phase.Full? then (u, DropOldest.DropGet(ingest))
      else (u.(pc := Published),
            if ingest.phase.Retrying? then DropOldest.SecondPut(ingest, c.ingestDepth) else ingest)
    case Published => (u.(pc := Reading, linesRx := Wrap32(u.linesRx + 1)), ingest)
  }

  // ---------------------------------------------------------------- dispatcher (src/nmea_bridge.c)

  datatype FanPc =
    | Waiting                                          // at k_msgq_get(&ingest_msgq)
    | Holding(frame: Frame)                            // has a frame, not yet the lock
    | Scanning(frame: Frame, i: nat, any: bool)        // top of the loop over the sinks
    | Offering(frame: Frame, i: nat, before: uint32, allBefore: nat)    // inside put_drop_oldest
    | Accounting(frame: Frame, i: nat, before: uint32, allBefore: nat)  // put done, stats due

  datatype Fan = Fan(
    pc: FanPc, sinkDropped: uint32, noSinks: uint32,
    // history
    idleRounds: nat,   // fan-outs that found no active sink
    retired: nat)      // drops of the sink lifetimes whose stats have been cleared since

  predicate Locked(f: Fan) { f.pc.Scanning? || f.pc.Offering? || f.pc.Accounting? }

  function NextFan(c: Config, f: Fan, ingest: Queue, sinks: seq<Slot>): Option<(Fan, Queue, seq<Slot>)> {
    match f.pc
    case Waiting =>
      if ingest.queue == [] then None
      else Some((f.(pc := Holding(ingest.queue[0])), DropOldest.Take(ingest), sinks))
    case Holding(frame) => Some((f.(pc := Scanning(frame, 0, false)), ingest, sinks))
    case Scanning(frame, i, any) =>
      if i >= |sinks| then
        var idle := forall j :: 0 <= j < |sinks| ==> !sinks[j].active;
        Some((f.(pc := Waiting, noSinks := if any then f.noSinks else Wrap32(f.noSinks + 1),
                 idleRounds := f.idleRounds + if idle then 1 else 0), ingest, sinks))
      else if !sinks[i].active then Some((f.(pc := Scanning(frame, i + 1, any)), ingest, sinks))
      else
        var q := DropOldest.FirstPut(sinks[i].chan, c.sinkDepth, frame);
        var before, all := sinks[i].chan.dropped, Drops(sinks[i]);
        Some((f.(pc := if q.phase.Idle? then Accounting(frame, i, before, all)
                       else Offering(frame, i, before, all)),
              ingest, sinks[i := sinks[i].(chan := q)]))
    case Offering(frame, i, before, all) =>
      if i >= |sinks| then None
      else if sinks[i].chan.phase.Full? then
        Some((f, ingest, sinks[i := sinks[i].(chan := DropOldest.DropGet(sinks[i].chan))]))
      else if sinks[i].chan.phase.Retrying? then
        Some((f.(pc := Accounting(frame, i, before, all)), ingest,
              sinks[i := sinks[i].(chan := DropOldest.SecondPut(sinks[i].chan, c.sinkDepth))]))
      else None
    case Accounting(frame, i, before, all) =>
      if i >= |sinks| then None
      else
        var grown := Wrap32(sinks[i].chan.dropped - before);
        Some((f.(pc := Scanning(frame, i + 1, true), sinkDropped := Wrap32(f.sinkDropped + grown)),
              ingest, sinks[i := sinks[i].(queued := Wrap32(sinks[i].queued + 1))]))
  }

  // ---------------------------------------------------------------- server and client threads

  /** `struct client_slot` of src/tcp_nmea_server.c. */
  datatype ClientSlot = ClientSlot(active: bool, fd: int)

  function FreeClient(clients: seq<ClientSlot>, from: nat): (r: nat)
    requires from <= |clients|
    ensures from <= r <= |clients|
    ensures forall j :: from <= j < r ==> clients[j].active
    ensures r < |clients| ==> !clients[r].active
    decreases |clients| - from
  {
    if from == |clients| || !clients[from].active then from else FreeClient(clients, from + 1)
  }

  datatype AcceptPc =
    | Listening
    | Accepted(fd: nat)              // zsock_accept returned
    | Refusing(fd: nat)              // no free slot
    | Assigning(slot: nat, fd: nat)  // slot allocated, fd not yet stored in it
    | Spawning(slot: nat, fd: nat)   // fd stored, thread not yet created

  datatype ClientPc =
    | Unconnected        // waiting for a host, or backing off
    | Connecting(fd: nat)
    | Abandoning(fd: nat)  // connect failed
    | Running              // inside tcp_nmea_session_run

  datatype Client = Client(pc: ClientPc, backoff: nat, waits: nat /* history */)

  /** The kernel's descriptor table. A number may be handed out again once it is closed. */
  datatype Fds = Fds(
    open: map<nat, nat>,  // history in the values: the place that must close it
    obtained: nat, closed: nat, badCloses: nat)

  function Obtain(f: Fds, fd: nat, holder: nat): Fds
    requires fd !in f.open
  {
    f.(open := f.open[fd := holder], obtained := f.obtained + 1)
  }

  function Hand(f: Fds, fd: nat, holder: nat): Fds { f.(open := f.open[fd := holder]) }

  /** zsock_close: closing a number that is not open is recorded as a bad close. */
  function CloseFd(f: Fds, fd: int): Fds {
    if fd >= 0 && fd in f.open then f.(open := f.open - {fd}, closed := f.closed + 1)
    else f.(badCloses := f.badCloses + 1)
  }

  // ---------------------------------------------------------------- the whole

  datatype State = State(
    uart: Uart, ingest: Queue, fan: Fan, sinks: seq<Slot>,
    sessions: seq<Session>,       // 0 .. maxClients-1: server slots; maxClients: the outbound client
    activeSessions: int, ledSessions: uint16,
    clients: seq<ClientSlot>, acceptor: AcceptPc, client: Client, fds: Fds)

  function Init(c: Config): State {
    State(Uart(Reading, Framer.FRESH, 0, 0, 0, 0, 0, 0, []), DropOldest.Empty(), Fan(Waiting, 0, 0, 0, 0),
          seq(c.maxSinks, _ => NEVER_OPENED), seq(c.maxClients + 1, _ => NO_SESSION), 0, 0,
          seq(c.maxClients, _ => ClientSlot(false, -1)), Listening, Client(Unconnected, 1, 0),
          Fds(map[], 0, 0, 0))
  }

  /** Frames whose fan-out is complete. */
  function Fanned(s: State): nat {
    if s.fan.pc.Waiting? || s.ingest.taken == [] then |s.ingest.taken| else |s.ingest.taken| - 1
  }

  function AcceptorPlace(c: Config): nat { c.maxClients + 1 }
  function ConnectorPlace(c: Config): nat { c.maxClients + 2 }

  function Put(s: State, o: nat, x: Session): State
    requires o < |s.sessions|
  {
    s.(sessions := s.sessions[o := x])
  }

  /** nmea_bridge_sink_open, in one locked region. */
  function OpenStep(s: State, o: nat): Option<State>
    requires o < |s.sessions|
  {
    var x, i := s.sessions[o], FirstFree(s.sinks, 0);
    if Locked(s.fan) then None
    else if i == |s.sinks| then Some(Put(s, o, x.(pc := Rejecting)))
    else Some(Put(s, o, x.(pc := Counting, sinkId := i, since := Fanned(s)))
              .(sinks := OpenAt(s.sinks, i, o, Fanned(s)),
                fan := s.fan.(retired := s.fan.retired + Drops(s.sinks[i]))))
  }

  /** The check of nmea_bridge_sink_take, in one locked region. */
  function CheckStep(s: State, o: nat): Option<State>
    requires o < |s.sessions|
  {
    var x := s.sessions[o];
    if Locked(s.fan) then None
    else Some(Put(s, o, x.(pc :=
      if x.sinkId < 0 then Ending
      else if x.sinkId >= |s.sinks| then Draining(false)
      else if !s.sinks[x.sinkId].active then Ending
      else Getting)))
  }

  /** The k_msgq_get of nmea_bridge_sink_take, outside the lock; an empty queue is a timeout. */
  function GetStep(s: State, o: nat): Option<State>
    requires o < |s.sessions|
  {
    var x := s.sessions[o];
    if !(0 <= x.sinkId < |s.sinks|) then None
    else
      var slot := s.sinks[x.sinkId];
      if slot.chan.queue == [] then Some(Put(s, o, x.(pc := Draining(false))))
      else Some(Put(s, o, Got(x, slot.chan.queue[0], slot.openedAt + |slot.chan.fate|))
                .(sinks := s.sinks[x.sinkId := slot.(chan := DropOldest.Take(slot.chan))]))
  }

  /** stats.consumed++ of nmea_bridge_sink_take. */
  function NoteStep(s: State, o: nat, frame: Frame): Option<State>
    requires o < |s.sessions|
  {
    var x := s.sessions[o];
    if !(0 <= x.sinkId < |s.sinks|) then None
    else
      var slot := s.sinks[x.sinkId];
      Some(Put(s, o, x.(pc := Sending(frame, 0)))
           .(sinks := s.sinks[x.sinkId := slot.(consumed := Wrap32(slot.consumed + 1))]))
  }

  /** nmea_bridge_sink_close, in one locked region. */
  function CloseStep(s: State, o: nat): Option<State>
    requires o < |s.sessions|
  {
    var x := s.sessions[o];
    if !(0 <= x.sinkId < |s.sinks|) then Some(Put(s, o, x.(pc := Hanging)))
    else if Locked(s.fan) then None
    else Some(Put(s, o, x.(pc := Hanging, sinkId := -1)).(sinks := CloseAt(s.sinks, x.sinkId)))
  }

  /** The session counter and the LED's, up at the start and down at the end. */
  function TallyStep(s: State, o: nat): Option<State>
    requires o < |s.sessions|
  {
    var x := s.sessions[o];
    match x.pc
    case Counting => Some(Put(s, o, x.(pc := Announcing)).(activeSessions := s.activeSessions + 1))
    case Announcing =>
      Some(Put(s, o, x.(pc := Draining(false))).(ledSessions := Wrap16(s.ledSessions + 1)))
    case Ending =>
      Some(Put(s, o, x.(pc := Discounting))
           .(ledSessions := if s.ledSessions > 0 then s.ledSessions - 1 else 0))
    case Discounting => Some(Put(s, o, x.(pc := Closing)).(activeSessions := s.activeSessions - 1))
    case _ => None
  }

  /** zsock_close at the end of tcp_nmea_session_run. */
  function HangStep(s: State, o: nat): Option<State>
    requires o < |s.sessions|
  {
    var x := s.sessions[o];
    Some(Put(s, o, if x.pc.Rejecting? then x.(pc := Finished, result := SinkUnavailable)
                   else x.(pc := Finished))
         .(fds := CloseFd(s.fds, x.fd)))
  }

  /** What the calling thread does after tcp_nmea_session_run: the server's client_thread and
      close_client (src/tcp_nmea_server.c:26-49), or the client's wait before the next attempt. */
  function LeaveStep(s: State, o: nat): Option<State>
    requires o < |s.sessions|
  {
    var x := s.sessions[o];
    if o >= |s.clients| then
      if x.pc.Finished? then
        Some(Put(s, o, x.(pc := Absent))
             .(client := Client(Unconnected, NextBackoff(s.client.backoff), s.client.waits + 1)))
      else None
    else
      var slot := s.clients[o];
      match x.pc
      case Finished => Some(Put(s, o, x.(pc := Cleared)).(clients := s.clients[o := slot.(fd := -1)]))
      case Cleared =>
        if slot.fd >= 0 then
          Some(Put(s, o, x.(pc := Released))
               .(fds := CloseFd(s.fds, slot.fd), clients := s.clients[o := slot.(fd := -1)]))
        else Some(Put(s, o, x.(pc := Released)))
      case Released => Some(Put(s, o, x.(pc := Absent)).(clients := s.clients[o := slot.(active := false)]))
      case _ => None
  }

  /** One step of the thread that runs the session of owner `o` (src/tcp_nmea_session.c:80-125). */
  function NextSession(s: State, o: nat, oracle: Oracle): Option<State>
    requires o < |s.sessions|
  {
    var x := s.sessions[o];
    match x.pc
    case Opening => OpenStep(s, o)
    case Checking => CheckStep(s, o)
    case Getting => GetStep(s, o)
    case Noting(frame) => NoteStep(s, o, frame)
    case Closing => CloseStep(s, o)
    case Counting => TallyStep(s, o)
    case Announcing => TallyStep(s, o)
    case Ending => TallyStep(s, o)
    case Discounting => TallyStep(s, o)
    case Rejecting => HangStep(s, o)
    case Hanging => HangStep(s, o)
    case Finished => LeaveStep(s, o)
    case Cleared => LeaveStep(s, o)
    case Released => LeaveStep(s, o)
    case _ =>
      match NextLocal(x, oracle)
      case None => None
      case Some(x') => Some(Put(s, o, x'))
  }

  /** MIN(backoff_s * 2, 30) of src/tcp_nmea_client.c. */
  function NextBackoff(b: nat): nat { if b * 2 < 30 then b * 2 else 30 }

  /** The accept loop of src/tcp_nmea_server.c:106-127; `fd` is what zsock_accept returns. */
  function NextAcceptor(c: Config, s: State, fd: nat): Option<State> {
    match s.acceptor
    case Listening =>
      if !c.serverEnabled || fd in s.fds.open then None
      else Some(s.(acceptor := Accepted(fd), fds := Obtain(s.fds, fd, AcceptorPlace(c))))
    case Accepted(fd) =>
      var k := FreeClient(s.clients, 0);
      if k == |s.clients| then Some(s.(acceptor := Refusing(fd)))
      else Some(s.(acceptor := Assigning(k, fd), clients := s.clients[k := ClientSlot(true, -1)]))
    case Refusing(fd) => Some(s.(acceptor := Listening, fds := CloseFd(s.fds, fd)))
    case Assigning(k, fd) =>
      if k >= |s.clients| then None
      else Some(s.(acceptor := Spawning(k, fd), clients := s.clients[k := s.clients[k].(fd := fd)]))
    case Spawning(k, fd) =>
      if k >= |s.clients| || k >= |s.sessions| then None
      else Some(Put(s, k, Start(s.clients[k].fd)).(acceptor := Listening, fds := Hand(s.fds, fd, k)))
  }

  /** What the network does to the outbound client. */
  datatype Dial = NoSocket | Socket(fd: nat) | ConnectFails | ConnectWorks

  /** client_thread and connect_server of src/tcp_nmea_client.c:19-49,78-107. */
  function NextClient(c: Config, s: State, d: Dial): Option<State> {
    match s.client.pc
    case Unconnected =>
      if !c.clientEnabled then None
      else if d.NoSocket? then
        Some(s.(client := Client(Unconnected, NextBackoff(s.client.backoff), s.client.waits + 1)))
      else if d.Socket? && d.fd !in s.fds.open then
        Some(s.(client := s.client.(pc := Connecting(d.fd)),
                fds := Obtain(s.fds, d.fd, ConnectorPlace(c))))
      else None
    case Connecting(fd) =>
      if d.ConnectFails? then Some(s.(client := s.client.(pc := Abandoning(fd))))
      else if d.ConnectWorks? && c.maxClients < |s.sessions| then
        Some(Put(s, c.maxClients, Start(fd))
             .(client := Client(Running, 1, 0), fds := Hand(s.fds, fd, c.maxClients)))
      else None
    case Abandoning(fd) =>
      Some(s.(client := Client(Unconnected, NextBackoff(s.client.backoff), s.client.waits + 1),
              fds := CloseFd(s.fds, fd)))
    case Running => None
  }

  datatype Step =
    | UartStep(ch: Byte)
    | FanStep
    | SessionStep(o: nat, oracle: Oracle)
    | AcceptStep(fd: nat)
    | ClientStep(d: Dial)

  /** One step, or None when that thread cannot move. */
  function Next(c: Config, s: State, step: Step): Option<State> {
    match step
    case UartStep(ch) =>
      var (u, q) := NextUart(c, s.uart, s.ingest, ch);
      Some(s.(uart := u, ingest := q))
    case FanStep =>
      (match NextFan(c, s.fan, s.ingest, s.sinks)
       case None => None
       case Some((f, q, sinks)) => Some(s.(fan := f, ingest := q, sinks := sinks)))
    case SessionStep(o, oracle) =>
      if o < |s.sessions| then NextSession(s, o, oracle) else None
    case AcceptStep(fd) => NextAcceptor(c, s, fd)
    case ClientStep(d) => NextClient(c, s, d)
  }

  /** The state after an interleaving, or None when some step of it was not possible. */
  function After(c: Config, steps: seq<Step>): Option<State> {
    if steps == [] then Some(Init(c))
    else
      match After(c, steps[..|steps| - 1])
      case None => None
      case Some(s) => Next(c, s, steps[|steps| - 1])
  }
}
