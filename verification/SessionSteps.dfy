/** One TCP NMEA session (src/tcp_nmea_session.c): where it stands, what it has written, and the
    steps that touch nothing but itself and its socket. */
module SessionSteps {
  import opened Base

  datatype Result = PeerClosed | SendFailed | SinkUnavailable | RxFailed

  datatype SessionPc =
    | Absent
    | Opening                            // about to call nmea_bridge_sink_open
    | Rejecting                          // open failed: close the socket
    | Counting                           // atomic_inc due
    | Announcing                         // status_led_tcp_nmea_session_started due
    | Draining(again: bool)              // in drain_socket_rx, before a take or after a send
    | Checking                           // nmea_bridge_sink_take: the check under the lock
    | Getting                            // nmea_bridge_sink_take: k_msgq_get
    | Noting(frame: Frame)               // nmea_bridge_sink_take: stats.consumed++ due
    | Sending(frame: Frame, sent: nat)   // in send_all
    | Forwarding                         // status_led_nmea_frame_forwarded due
    | Failing                            // status_led_nmea_send_failed due
    | Ending                             // status_led_tcp_nmea_session_ended due
    | Discounting                        // atomic_dec due
    | Closing                            // nmea_bridge_sink_close due
    | Hanging                            // zsock_close due
    | Finished                           // tcp_nmea_session_run has returned
    | Cleared                            // server only: client->fd = -1 done
    | Released                           // server only: client->active = false due

  datatype Session = Session(
    pc: SessionPc, fd: int, sinkId: int, result: Result,
    wire: seq<Byte>,     // every byte zsock_send has accepted
    // history
    since: nat,          // frames fanned out before the sink was opened
    took: seq<nat>,      // dispatch positions of the frames taken
    frames: seq<Frame>,  // the frames taken
    done: seq<Frame>,    // those completely sent
    part: Frame)         // accepted bytes of the one under way

  const NO_SESSION := Session(Absent, -1, -1, PeerClosed, [], 0, [], [], [], [])

  /** tcp_nmea_session_run is called; its result is preset to "peer closed". */
  function Start(fd: int): Session { NO_SESSION.(pc := Opening, fd := fd) }

  function Got(x: Session, frame: Frame, position: nat): Session {
    x.(pc := Noting(frame), took := x.took + [position], frames := x.frames + [frame], part := [])
  }

  /** zsock_recv: positive, zero, EAGAIN, any other error. */
  datatype Recv = Data | Eof | WouldBlock | RecvError

  /** zsock_send: positive, EAGAIN or EINTR, and zero or any other error. */
  datatype Send = Accepts(n: nat) | Again | SendError

  datatype Oracle = Rx(recv: Recv) | Tx(send: Send) | Tick

  /** One turn of the loop in drain_socket_rx: None to go on, Some(r) to end the session with r or,
      as Some(None), to return to the session loop. */
  function DrainTurn(r: Recv): Option<Option<Result>> {
    match r
    case Data => None
    case Eof => Some(Some(PeerClosed))
    case WouldBlock => Some(None)
    case RecvError => Some(Some(RxFailed))
  }

  /** The steps inside the session loop that involve only the socket. */
  function NextLocal(x: Session, oracle: Oracle): Option<Session> {
    match x.pc
    case Draining(again) =>
      if !oracle.Rx? then None
      else
        (match DrainTurn(oracle.recv)
         case None => Some(x)
         case Some(Some(r)) => Some(x.(pc := Ending, result := r))
         case Some(None) => Some(x.(pc := if again then Draining(false) else Checking)))
    case Sending(frame, sent) =>
      if sent >= |frame| then Some(x.(pc := Forwarding, done := x.done + [frame], part := []))
      else if !oracle.Tx? then None
      else
        (match oracle.send
         case Accepts(n) =>
           if 1 <= n <= |frame| - sent then
             Some(x.(pc := Sending(frame, sent + n), wire := x.wire + frame[sent..sent + n],
                     part := x.part + frame[sent..sent + n]))
           else None
         case Again => Some(x)
         case SendError => Some(x.(pc := Failing, result := SendFailed)))
    case Forwarding => Some(x.(pc := Draining(true)))
    case Failing => Some(x.(pc := Ending))
    case _ => None
  }

  // ---------------------------------------------------------------- the session loop as seen from outside

  /** One step of a session between its start and its end. The steps of nmea_bridge_sink_take are
      named by what the bridge makes of them. */
  datatype Move =
    | Local(oracle: Oracle)                 // a step of NextLocal
    | Admit                                 // the check found the sink active
    | Deny                                  // the check found it closed: -ENOTCONN
    | Misplace                              // the handle is out of range: -EINVAL
    | Empty                                 // the get timed out
    | Give(frame: Frame, position: nat)     // the get returned a frame
    | Note                                  // stats.consumed++

  function Advance(x: Session, m: Move): Option<Session> {
    match m
    case Local(oracle) => NextLocal(x, oracle)
    case Admit => if x.pc.Checking? then Some(x.(pc := Getting)) else None
    case Deny => if x.pc.Checking? then Some(x.(pc := Ending)) else None
    case Misplace => if x.pc.Checking? then Some(x.(pc := Draining(false))) else None
    case Empty => if x.pc.Getting? then Some(x.(pc := Draining(false))) else None
    case Give(frame, position) => if x.pc.Getting? then Some(Got(x, frame, position)) else None
    case Note => if x.pc.Noting? then Some(x.(pc := Sending(x.pc.frame, 0))) else None
  }

  /** The session after these steps, or None when one of them was not possible. */
  function MoveRun(x: Session, moves: seq<Move>): Option<Session> {
    if moves == [] then Some(x)
    else
      match MoveRun(x, moves[..|moves| - 1])
      case None => None
      case Some(y) => Advance(y, moves[|moves| - 1])
  }

  lemma MoveRunSnoc(x: Session, moves: seq<Move>, m: Move)
    ensures MoveRun(x, moves + [m]) ==
      match MoveRun(x, moves) case None => None case Some(y) => Advance(y, m)
  {
    assert (moves + [m])[..|moves|] == moves;
  }
}
