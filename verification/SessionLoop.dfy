/** The loops of src/tcp_nmea_session.c over a socket and a bridge whose answers are arbitrary. Each
    loop is proved to do exactly what those answers call for, and to make the session's steps of the
    transition system, one for each of them. */
module SessionLoop {
  import opened Base
  import opened SessionSteps

  // ---------------------------------------------------------------- what the socket answers

  /** zsock_send never accepts more than it was offered; zero counts as an error. */
  function Answer(s: Send, room: nat): Send {
    if !s.Accepts? then s
    else if s.n == 0 then SendError else Accepts(if s.n <= room then s.n else room)
  }

  /** Only finitely many calls meet data, or are told to try again. */
  ghost predicate Calms(recvs: nat -> Recv, patience: nat) {
    forall i :: i >= patience ==> recvs(i) != Data
  }

  ghost predicate Relents(sends: nat -> Send, patience: nat) {
    forall i :: i >= patience ==> sends(i) != Again
  }

  /** A send returns zero or an error that is not "try again". */
  predicate IsError(s: Send) { s == SendError || s == Accepts(0) }

  /** How many of n bytes have been accepted after `calls` sends, each of which offers what is left. */
  function Accepted(sends: nat -> Send, n: nat, calls: nat): (r: nat)
    ensures r <= n
  {
    if calls == 0 then 0
    else
      var before := Accepted(sends, n, calls - 1);
      match sends(calls - 1)
      case Accepts(m) => Min(before + m, n)
      case _ => before
  }

  /** Call k meets an error while bytes are left to send. */
  predicate FailsAt(sends: nat -> Send, n: nat, k: nat) {
    Accepted(sends, n, k) < n && IsError(sends(k))
  }

  ghost predicate Fails(sends: nat -> Send, n: nat) {
    exists k :: FailsAt(sends, n, k)
  }

  /** Whether sending is over after k calls. */
  predicate Stops(sends: nat -> Send, n: nat, k: nat) {
    Accepted(sends, n, k) == n || (k > 0 && FailsAt(sends, n, k - 1))
  }

  /** What one call does: "try again" neither accepts anything nor ends the sending; an error accepts
      nothing and ends it; anything else accepts what it says, up to what is left. */
  lemma OneCall(sends: nat -> Send, n: nat, k: nat)
    requires Accepted(sends, n, k) < n && !Stops(sends, n, k)
    ensures var left := n - Accepted(sends, n, k);
      match sends(k)
      case Again => Accepted(sends, n, k + 1) == Accepted(sends, n, k) && !Stops(sends, n, k + 1)
      case SendError => Accepted(sends, n, k + 1) == Accepted(sends, n, k) && Stops(sends, n, k + 1)
      case Accepts(m) =>
        && Accepted(sends, n, k + 1) == Accepted(sends, n, k) + Min(m, left)
        && (Stops(sends, n, k + 1) <==> m == 0 || m >= left)
  {
  }

  ghost predicate Faultless(sends: nat -> Send) {
    forall k :: !IsError(sends(k))
  }

  /** A socket that reports no error never makes sending fail. */
  lemma FaultlessSocket(sends: nat -> Send, n: nat, patience: nat)
    requires Relents(sends, patience)
    ensures Faultless(sends) ==> !Fails(sends, n) && Total(sends, n, patience) == n
  {
    FallsShortIffFails(sends, n, patience);
  }

  /** The first k from `from` on at which sending is over. */
  ghost function SendCalls(sends: nat -> Send, n: nat, patience: nat, from: nat): (k: nat)
    requires Relents(sends, patience)
    ensures from <= k && Stops(sends, n, k)
    ensures forall i :: from <= i < k ==> !Stops(sends, n, i)
    decreases !Stops(sends, n, from), n - Accepted(sends, n, from), if from < patience then patience - from else 0
  {
    if Stops(sends, n, from) then from else SendCalls(sends, n, patience, from + 1)
  }

  /** What has been accepted of n bytes when sending is over. */
  ghost function Total(sends: nat -> Send, n: nat, patience: nat): (r: nat)
    requires Relents(sends, patience)
    ensures r <= n
  {
    Accepted(sends, n, SendCalls(sends, n, patience, 0))
  }

  lemma {:induction false} AllStaysAccepted(sends: nat -> Send, n: nat, k: nat, m: nat)
    requires k <= m && Accepted(sends, n, k) == n
    ensures Accepted(sends, n, m) == n
    decreases m
  {
    if k == m {
    } else {
      AllStaysAccepted(sends, n, k, m - 1);
    }
  }

  /** Sending falls short of the whole exactly when some call meets an error with bytes left; and then
      the last call made is one that does. */
  lemma FallsShortIffFails(sends: nat -> Send, n: nat, patience: nat)
    requires Relents(sends, patience)
    ensures Total(sends, n, patience) < n <==> Fails(sends, n)
    ensures var k := SendCalls(sends, n, patience, 0);
      Fails(sends, n) ==> k > 0 && FailsAt(sends, n, k - 1)
  {
    var k := SendCalls(sends, n, patience, 0);
    if Accepted(sends, n, k) < n {
      assert !Stops(sends, n, k - 1);
      assert FailsAt(sends, n, k - 1);
    } else if Fails(sends, n) {
      var i :| FailsAt(sends, n, i);
      if i < k {
        assert Accepted(sends, n, i + 1) == Accepted(sends, n, i);
        assert Stops(sends, n, i + 1);
      } else {
        AllStaysAccepted(sends, n, k, i);
      }
    }
  }

  /** A line can be cut: the socket takes its first byte and then fails. */
  lemma SendingMayCut(frame: Frame)
    requires |frame| >= 2
    ensures var sends := (i: nat) => if i == 0 then Accepts(1) else SendError;
      Relents(sends, 0) && Fails(sends, |frame|) && Total(sends, |frame|, 0) == 1
  {
    var sends := (i: nat) => if i == 0 then Accepts(1) else SendError;
    var n := |frame|;
    assert Accepted(sends, n, 0) == 0 && Accepted(sends, n, 1) == 1 && Accepted(sends, n, 2) == 1;
    assert !Stops(sends, n, 0) && !Stops(sends, n, 1) && Stops(sends, n, 2);
    assert FailsAt(sends, n, 1);
  }

  /** The first receive from `from` on that does not bring data. */
  ghost function Quiets(recvs: nat -> Recv, patience: nat, from: nat): (k: nat)
    requires Calms(recvs, patience)
    ensures from <= k && recvs(k) != Data
    ensures forall i :: from <= i < k ==> recvs(i) == Data
    decreases if from < patience then patience - from else 0
  {
    if recvs(from) != Data then from else Quiets(recvs, patience, from + 1)
  }

  /** The answer that ends a drain. */
  ghost function LastWord(recvs: nat -> Recv, patience: nat): (r: Recv)
    requires Calms(recvs, patience)
    ensures r != Data
  {
    recvs(Quiets(recvs, patience, 0))
  }

  // ---------------------------------------------------------------- what a turn of the loop makes of it

  /** What nmea_bridge_sink_take returns: 0, a timeout, -EINVAL, -ENOTCONN. */
  datatype Take = Got(frame: Frame, position: nat) | TimedOut | Misplaced | Refused

  /** What the outside does in one turn of the session loop. */
  datatype Turn = Turn(before: nat -> Recv, take: Take, sends: nat -> Send, after: nat -> Recv)

  ghost predicate Patient(t: Turn, patience: nat) {
    Calms(t.before, patience) && Calms(t.after, patience) && Relents(t.sends, patience)
  }

  /** Why a turn is the last one, if it is. */
  datatype Cause = GoesOn | Received(recv: Recv) | Disconnected | Broken

  /** The peer's answer before the take, the take, a send, or the peer's answer after the send,
      whichever comes first. */
  ghost function CauseOf(t: Turn, patience: nat): Cause
    requires Patient(t, patience)
  {
    if LastWord(t.before, patience) != WouldBlock then Received(LastWord(t.before, patience))
    else
      match t.take
      case Refused => Disconnected
      case TimedOut => GoesOn
      case Misplaced => GoesOn
      case Got(frame, _) =>
        if Fails(t.sends, |frame|) then Broken
        else if LastWord(t.after, patience) != WouldBlock then Received(LastWord(t.after, patience))
        else GoesOn
  }

  /** What tcp_nmea_session_run returns for that cause. */
  function ResultOf(cause: Cause): Result {
    match cause
    case GoesOn => PeerClosed
    case Received(recv) => if recv == RecvError then RxFailed else PeerClosed
    case Disconnected => PeerClosed
    case Broken => SendFailed
  }

  /** The frame a turn is handed, if any. */
  ghost function Handed(t: Turn, patience: nat): seq<Frame>
    requires Patient(t, patience)
  {
    if LastWord(t.before, patience) == WouldBlock && t.take.Got? then [t.take.frame] else []
  }

  /** The frame it sends completely, if any. */
  ghost function Sent(t: Turn, patience: nat): seq<Frame>
    requires Patient(t, patience)
  {
    if CauseOf(t, patience).Broken? then [] else Handed(t, patience)
  }

  /** The bytes of a frame it leaves unfinished. */
  ghost function Unfinished(t: Turn, patience: nat): Frame
    requires Patient(t, patience)
  {
    if CauseOf(t, patience).Broken? then t.take.frame[..Total(t.sends, |t.take.frame|, patience)] else []
  }

  /** What the program takes call k to have answered. */
  function Met(sends: nat -> Send, n: nat, k: nat): Send {
    Answer(sends(k), n - Accepted(sends, n, k))
  }

  function DrainMoves(recvs: nat -> Recv, calls: nat): seq<Move> {
    if calls == 0 then [] else DrainMoves(recvs, calls - 1) + [Local(Rx(recvs(calls - 1)))]
  }

  function SendMoves(sends: nat -> Send, n: nat, calls: nat): seq<Move> {
    if calls == 0 then [] else SendMoves(sends, n, calls - 1) + [Local(Tx(Met(sends, n, calls - 1)))]
  }

  /** A whole drain. */
  ghost function Drain(recvs: nat -> Recv, patience: nat): seq<Move>
    requires Calms(recvs, patience)
  {
    DrainMoves(recvs, Quiets(recvs, patience, 0) + 1)
  }

  /** A whole send, with the exit test of its loop if it gets there. */
  ghost function SendWhole(sends: nat -> Send, n: nat, patience: nat): seq<Move>
    requires Relents(sends, patience)
  {
    SendMoves(sends, n, SendCalls(sends, n, patience, 0)) + if Fails(sends, n) then [] else [Local(Tick)]
  }

  /** The steps of the session in one turn; the LED call after a send is one of them. */
  ghost function TurnMoves(t: Turn, patience: nat): seq<Move>
    requires Patient(t, patience)
  {
    Drain(t.before, patience) +
    if LastWord(t.before, patience) != WouldBlock then []
    else
      match t.take
      case Refused => [Deny]
      case TimedOut => [Admit, Empty]
      case Misplaced => [Misplace]
      case Got(frame, position) => [Admit, Give(frame, position), Note] + SendAndDrain(t, patience)
  }

  ghost function SendAndDrain(t: Turn, patience: nat): seq<Move>
    requires Patient(t, patience) && t.take.Got?
  {
    var n := |t.take.frame|;
    SendWhole(t.sends, n, patience) + [Local(Tick)] +
    if Fails(t.sends, n) then [] else Drain(t.after, patience)
  }

  // ---------------------------------------------------------------- several turns

  ghost predicate AllPatient(turns: seq<Turn>, patience: nat) {
    forall i :: 0 <= i < |turns| ==> Patient(turns[i], patience)
  }

  ghost function AllHanded(turns: seq<Turn>, patience: nat): seq<Frame>
    requires AllPatient(turns, patience)
  {
    if turns == [] then []
    else AllHanded(turns[..|turns| - 1], patience) + Handed(turns[|turns| - 1], patience)
  }

  ghost function AllSent(turns: seq<Turn>, patience: nat): seq<Frame>
    requires AllPatient(turns, patience)
  {
    if turns == [] then []
    else AllSent(turns[..|turns| - 1], patience) + Sent(turns[|turns| - 1], patience)
  }

  ghost function AllMoves(turns: seq<Turn>, patience: nat): seq<Move>
    requires AllPatient(turns, patience)
  {
    if turns == [] then []
    else AllMoves(turns[..|turns| - 1], patience) + TurnMoves(turns[|turns| - 1], patience)
  }

  lemma OneMoreTurn(turns: seq<Turn>, patience: nat, i: nat)
    requires AllPatient(turns, patience) && i < |turns|
    ensures AllHanded(turns[..i + 1], patience) == AllHanded(turns[..i], patience) + Handed(turns[i], patience)
    ensures AllSent(turns[..i + 1], patience) == AllSent(turns[..i], patience) + Sent(turns[i], patience)
    ensures AllMoves(turns[..i + 1], patience) == AllMoves(turns[..i], patience) + TurnMoves(turns[i], patience)
  {
    assert turns[..i + 1][..i] == turns[..i];
  }

  lemma {:induction false} ConcatAppend(a: seq<Frame>, b: seq<Frame>)
    ensures Concat(a + b) == Concat(a) + Concat(b)
  {
    if b == [] {
      assert a + b == a;
    } else {
      var init, last := b[..|b| - 1], b[|b| - 1];
      hide Concat;
      ConcatAppend(a, init);
      assert a + b == (a + init) + [last] && b == init + [last];
      ConcatSnoc(a + init, last);
      ConcatSnoc(init, last);
      Associates(Concat(a), Concat(init), last);
    }
  }

  lemma ConcatOne(f: Frame)
    ensures Concat([f]) == f && Concat([]) == []
  {
    assert [f][..0] == [];
  }

  // ---------------------------------------------------------------- single steps

  lemma PatienceLeft(sends: nat -> Send, patience: nat, k: nat)
    requires Relents(sends, patience) && sends(k) == Again
    ensures k < patience
  {
  }

  lemma NoCallYet(sends: nat -> Send, n: nat)
    ensures Accepted(sends, n, 0) == 0 && (Stops(sends, n, 0) <==> n == 0)
    ensures SendMoves(sends, n, 0) == []
  {
  }

  /** What the program makes of a call: its answer, the bytes accepted, and whether it is the last. */
  lemma OneMoreCall(sends: nat -> Send, n: nat, calls: nat)
    requires Accepted(sends, n, calls) < n
    ensures var answer, now := Met(sends, n, calls), Accepted(sends, n, calls + 1);
      && (answer.Accepts? ==> 1 <= answer.n <= n - Accepted(sends, n, calls))
      && (answer == Again ==> sends(calls) == Again)
      && now == Accepted(sends, n, calls) + (if answer.Accepts? then answer.n else 0)
      && (answer == SendError <==> FailsAt(sends, n, calls))
      && (Stops(sends, n, calls + 1) <==> answer == SendError || now == n)
      && SendMoves(sends, n, calls + 1) == SendMoves(sends, n, calls) + [Local(Tx(answer))]
  {
  }

  /** What one answer of the socket makes of a session that is sending. */
  function AfterAnswer(x: Session, answer: Send): Session
    requires x.pc.Sending? && (answer.Accepts? ==> x.pc.sent + answer.n <= |x.pc.frame|)
  {
    var frame, sent := x.pc.frame, x.pc.sent;
    match answer
    case Accepts(n) =>
      x.(pc := Sending(frame, sent + n), wire := x.wire + frame[sent..sent + n], part := frame[..sent + n])
    case Again => x
    case SendError => x.(pc := Failing, result := SendFailed)
  }

  lemma SendStep(x: Session, answer: Send)
    requires x.pc.Sending? && x.pc.sent < |x.pc.frame| && x.part == x.pc.frame[..x.pc.sent]
    requires answer.Accepts? ==> 1 <= answer.n <= |x.pc.frame| - x.pc.sent
    ensures NextLocal(x, Tx(answer)) == Some(AfterAnswer(x, answer))
  {
    if answer.Accepts? {
      Extends([], x.pc.frame, x.pc.sent, x.pc.sent + answer.n);
    }
  }

  lemma SendDone(x: Session)
    requires x.pc.Sending? && x.pc.sent == |x.pc.frame|
    ensures NextLocal(x, Tick) == Some(x.(pc := Forwarding, done := x.done + [x.pc.frame], part := []))
  {
  }

  lemma Extends(a: Frame, f: Frame, i: nat, j: nat)
    requires i <= j <= |f|
    ensures a + f[..i] + f[i..j] == a + f[..j]
    ensures f[..i] + f[i..j] == f[..j]
  {
  }

  // ---------------------------------------------------------------- the loops

  class TcpNmeaSession {
    var wire: seq<Byte>
    var result: Result
    // the same session in the transition system, and the steps it has made
    ghost var start: Session
    ghost var session: Session
    ghost var moves: seq<Move>

    ghost predicate Valid()
      reads this
    {
      MoveRun(start, moves) == Some(session) && session.wire == wire && session.result == result
    }

    /** Between the session's start and the first turn of its loop. */
    constructor (ghost x: Session)
      requires x.wire == [] && x.result == PeerClosed
      ensures Valid() && wire == [] && result == PeerClosed
      ensures start == session == x && moves == []
    {
      wire, result := [], PeerClosed;
      start, session, moves := x, x, [];
    }

    /** The session makes one more step after those in `since`. */
    ghost method Step(m: Move, before: seq<Move>, since: seq<Move>)
      requires MoveRun(start, moves) == Some(session) && Advance(session, m).Some? && moves == before + since
      modifies this`session, this`moves
      ensures MoveRun(start, moves) == Some(session)
      ensures Some(session) == Advance(old(session), m) && moves == before + (since + [m])
    {
      MoveRunSnoc(start, moves, m);
      session, moves := Advance(session, m).value, moves + [m];
    }

    /** One zsock_send of what is left of the frame: the accepted bytes go to the wire. `sentBefore` is
        the wire before this frame. */
    method Send(frame: Frame, sent: nat, reply: Send,
                ghost sentBefore: seq<Byte>, ghost before: seq<Move>, ghost since: seq<Move>)
      returns (answer: Send)
      requires sent < |frame| && Valid() && moves == before + since && wire == sentBefore + frame[..sent]
      requires session.pc == Sending(frame, sent) && session.part == frame[..sent]
      modifies this`wire, this`session, this`moves
      ensures answer == Answer(reply, |frame| - sent)
      ensures answer.Accepts? ==> 1 <= answer.n <= |frame| - sent
      ensures MoveRun(start, moves) == Some(session) && moves == before + (since + [Local(Tx(answer))])
      ensures session == AfterAnswer(old(session), answer) && session.wire == wire
      ensures wire == sentBefore + frame[..if answer.Accepts? then sent + answer.n else sent]
    {
      hide MoveRun, NextLocal;
      answer := Answer(reply, |frame| - sent);
      SendStep(session, answer);
      Step(Local(Tx(answer)), before, since);
      if answer.Accepts? {
        Extends(sentBefore, frame, sent, sent + answer.n);
        wire := wire + frame[sent..sent + answer.n];
      }
    }

    /** send_all: it fails exactly when the socket reports an error before it has accepted the whole
        frame; what was accepted until then is on the wire, the whole frame if it does not fail. */
    method SendAll(frame: Frame, sends: nat -> Send, patience: nat) returns (failed: bool)
      requires Valid() && Relents(sends, patience)
      requires session.pc == Sending(frame, 0) && session.part == []
      modifies this
      ensures Valid() && start == old(start)
      ensures failed <==> Fails(sends, |frame|)
      ensures failed <==> Total(sends, |frame|, patience) < |frame|
      ensures Faultless(sends) ==> !failed
      ensures !failed ==> wire == old(wire) + frame
      ensures wire == old(wire) + frame[..Total(sends, |frame|, patience)]
      ensures result == if failed then SendFailed else old(result)
      ensures moves == old(moves) + SendWhole(sends, |frame|, patience)
      ensures session == old(session).(
        pc := if failed then Failing else Forwarding, result := result, wire := wire,
        done := old(session.done) + if failed then [] else [frame],
        part := if failed then frame[..Total(sends, |frame|, patience)] else [])
    {
      hide MoveRun, Fails, NextLocal, SendCalls, Accepted, Stops, SendMoves, Answer;
      hide Relents, IsError, FailsAt, Faultless;
      var sent: nat, calls: nat := 0, 0;
      ghost var all := SendCalls(sends, |frame|, patience, 0);
      FallsShortIffFails(sends, |frame|, patience);
      FaultlessSocket(sends, |frame|, patience);
      NoCallYet(sends, |frame|);
      while sent < |frame|
        invariant sent == Accepted(sends, |frame|, calls) && calls <= all
        invariant Stops(sends, |frame|, calls) <==> sent == |frame|
        invariant Valid() && start == old(start) && result == old(result)
        invariant wire == old(wire) + frame[..sent]
        invariant session == old(session).(pc := Sending(frame, sent), wire := wire, part := frame[..sent])
        invariant moves == old(moves) + SendMoves(sends, |frame|, calls)
        decreases |frame| - sent, if calls < patience then patience - calls else 0
      {
        OneMoreCall(sends, |frame|, calls);
        var answer := Send(frame, sent, sends(calls), old(wire), old(moves), SendMoves(sends, |frame|, calls));
        calls := calls + 1;
        match answer
        case Accepts(n) =>
          sent := sent + n;
        case Again =>
          PatienceLeft(sends, patience, calls - 1);
        case SendError =>
          result := SendFailed;
          assert calls == all;
          return true;
      }
      assert frame[..sent] == frame && calls == all;
      SendDone(session);
      Step(Local(Tick), old(moves), SendMoves(sends, |frame|, all));
      return false;
    }

    /** drain_socket_rx: it reads on until an answer that is not data, and ends the session with the
        result that answer names, unless it is "would block". */
    method DrainSocketRx(recvs: nat -> Recv, patience: nat) returns (ended: bool)
      requires Valid() && Calms(recvs, patience) && session.pc.Draining?
      modifies this
      ensures Valid() && start == old(start) && wire == old(wire)
      ensures ended <==> LastWord(recvs, patience) != WouldBlock
      ensures result == if ended then ResultOf(Received(LastWord(recvs, patience))) else old(result)
      ensures moves == old(moves) + Drain(recvs, patience)
      ensures session == old(session).(result := result, pc :=
        if ended then Ending else if old(session.pc.again) then Draining(false) else Checking)
    {
      hide MoveRun;
      var calls: nat := 0;
      ghost var all := Quiets(recvs, patience, 0);
      while true
        invariant Valid() && start == old(start) && wire == old(wire) && result == old(result)
        invariant calls <= all && session == old(session)
        invariant moves == old(moves) + DrainMoves(recvs, calls)
        decreases if calls < patience then patience - calls else 0
      {
        var received := recvs(calls);
        Step(Local(Rx(received)), old(moves), DrainMoves(recvs, calls));
        calls := calls + 1;
        match received
        case Data =>
        case Eof =>
          result := PeerClosed;
          return true;
        case WouldBlock =>
          return false;
        case RecvError =>
          result := RxFailed;
          return true;
      }
    }

    /** The second half of a turn: send the frame, then drain. */
    method SendTurn(turn: Turn, patience: nat) returns (ended: bool)
      requires Valid() && Patient(turn, patience) && turn.take.Got? && LastWord(turn.before, patience) == WouldBlock
      requires session.pc == Sending(turn.take.frame, 0) && session.part == [] && result == PeerClosed
      modifies this
      ensures Valid() && start == old(start)
      ensures ended <==> !CauseOf(turn, patience).GoesOn?
      ensures result == ResultOf(CauseOf(turn, patience))
      ensures wire == old(wire) + Concat(Sent(turn, patience)) + Unfinished(turn, patience)
      ensures moves == old(moves) + SendAndDrain(turn, patience)
      ensures session == old(session).(
        pc := if ended then Ending else Draining(false), result := result, wire := wire,
        done := old(session.done) + Sent(turn, patience), part := Unfinished(turn, patience))
    {
      hide MoveRun, Fails, Concat, Drain, SendWhole, Total, LastWord, Calms, Relents;
      ConcatOne(turn.take.frame);
      var failed := SendAll(turn.take.frame, turn.sends, patience);
      ghost var sending := SendWhole(turn.sends, |turn.take.frame|, patience);
      Step(Local(Tick), old(moves), sending);
      if failed {
        return true;
      }
      ended := DrainSocketRx(turn.after, patience);
    }

    /** The session's steps of a take that returns a frame. */
    ghost method GetFrame(frame: Frame, position: nat)
      requires MoveRun(start, moves) == Some(session) && session.pc.Checking?
      modifies this`session, this`moves
      ensures MoveRun(start, moves) == Some(session)
      ensures moves == old(moves) + [Admit, Give(frame, position), Note]
      ensures session == old(session).(pc := Sending(frame, 0), took := old(session.took) + [position],
                                       frames := old(session.frames) + [frame], part := [])
    {
      hide MoveRun;
      Step(Admit, moves, []);
      Step(Give(frame, position), old(moves), [Admit]);
      Step(Note, old(moves), [Admit, Give(frame, position)]);
    }

    /** One turn of the session loop: why it is the last one, if it is, and what it writes. */
    method OneTurn(turn: Turn, patience: nat) returns (ended: bool)
      requires Valid() && Patient(turn, patience)
      requires session.pc == Draining(false) && session.part == [] && result == PeerClosed
      modifies this
      ensures Valid() && start == old(start)
      ensures ended <==> !CauseOf(turn, patience).GoesOn?
      ensures result == ResultOf(CauseOf(turn, patience))
      ensures wire == old(wire) + Concat(Sent(turn, patience)) + Unfinished(turn, patience)
      ensures moves == old(moves) + TurnMoves(turn, patience)
      ensures session.pc == if ended then Ending else Draining(false)
      ensures session.frames == old(session.frames) + Handed(turn, patience)
      ensures session.done == old(session.done) + Sent(turn, patience)
      ensures session.part == Unfinished(turn, patience)
    {
      hide MoveRun, NextLocal, Fails, Concat, Drain, SendAndDrain, Total, LastWord, Calms, Relents;
      ConcatOne([]);
      ghost var drained := Drain(turn.before, patience);
      var over := DrainSocketRx(turn.before, patience);
      if over {
        return true;
      }
      match turn.take
      case Refused =>
        Step(Deny, moves, []);
        return true;
      case TimedOut =>
        Step(Admit, moves, []);
        Step(Empty, old(moves) + drained, [Admit]);
        return false;
      case Misplaced =>
        Step(Misplace, moves, []);
        return false;
      case Got(frame, position) =>
        GetFrame(frame, position);
        ended := SendTurn(turn, patience);
    }

    /** The loop of tcp_nmea_session_run over these turns. It runs on exactly until the first turn that
        ends it, `used` counts the turns made, and the result names that turn's cause. The wire gets
        the frames handed over, whole and in order, and after a failed send the part that was accepted
        of the last one. */
    method RunLoop(turns: seq<Turn>, patience: nat) returns (running: bool, ghost used: nat)
      requires Valid() && AllPatient(turns, patience)
      requires session.pc == Draining(false) && session.part == [] && result == PeerClosed
      modifies this
      ensures Valid() && start == old(start) && used <= |turns|
      ensures running ==> used == |turns|
      ensures forall i :: 0 <= i < used && (running || i < used - 1) ==> CauseOf(turns[i], patience).GoesOn?
      ensures !running ==> used > 0 && !CauseOf(turns[used - 1], patience).GoesOn?
      ensures result == if running then PeerClosed else ResultOf(CauseOf(turns[used - 1], patience))
      ensures wire == old(wire) + Concat(AllSent(turns[..used], patience)) + session.part
      ensures session.part == if running then [] else Unfinished(turns[used - 1], patience)
      ensures session.frames == old(session.frames) + AllHanded(turns[..used], patience)
      ensures session.done == old(session.done) + AllSent(turns[..used], patience)
      ensures session.pc == if running then Draining(false) else Ending
      ensures moves == old(moves) + AllMoves(turns[..used], patience)
    {
      hide MoveRun, Concat, AllSent, AllHanded, AllMoves, Unfinished, Sent, Handed, TurnMoves, CauseOf;
      running, used := true, 0;
      var i := 0;
      assert turns[..0] == [];
      NothingYet(turns, patience);
      while i < |turns|
        invariant 0 <= i <= |turns| && used == i
        invariant Valid() && start == old(start) && result == PeerClosed
        invariant session.pc == Draining(false) && session.part == []
        invariant forall j :: 0 <= j < i ==> CauseOf(turns[j], patience).GoesOn?
        invariant wire == old(wire) + Concat(AllSent(turns[..i], patience))
        invariant session.frames == old(session.frames) + AllHanded(turns[..i], patience)
        invariant session.done == old(session.done) + AllSent(turns[..i], patience)
        invariant moves == old(moves) + AllMoves(turns[..i], patience)
        decreases |turns| - i
      {
        OneMoreTurn(turns, patience, i);
        NothingIsLeft(turns[i], patience);
        ConcatAppend(AllSent(turns[..i], patience), Sent(turns[i], patience));
        var ended := OneTurn(turns[i], patience);
        i, used := i + 1, i + 1;
        if ended {
          return false, used;
        }
      }
      assert turns[..|turns|] == turns;
    }
  }

  lemma NothingYet(turns: seq<Turn>, patience: nat)
    requires AllPatient(turns, patience)
    ensures AllHanded([], patience) == [] && AllSent([], patience) == [] && AllMoves([], patience) == []
    ensures Concat([]) == []
  {
  }

  lemma NothingIsLeft(t: Turn, patience: nat)
    requires Patient(t, patience)
    ensures CauseOf(t, patience).GoesOn? ==>
      Unfinished(t, patience) == [] && ResultOf(CauseOf(t, patience)) == PeerClosed
  {
  }
}
