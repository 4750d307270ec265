/** The classes and the transition system agree: a thread's atomic steps, when nothing interrupts
    them, compute what the corresponding method is proved to compute. */
module Refinement {
  import opened Base
  import Framer
  import DropOldest
  import opened Sinks
  import opened SessionSteps
  import opened System
  import opened Bridge
  import Server

  /** What the dispatcher works on. */
  datatype Round = Round(fan: Fan, ingest: Queue, sinks: seq<Slot>)

  /** n dispatcher steps in a row. */
  function FanRun(c: Config, r: Round, n: nat): Option<Round>
    decreases n
  {
    if n == 0 then Some(r)
    else
      match NextFan(c, r.fan, r.ingest, r.sinks)
      case None => None
      case Some((f, q, sinks)) => FanRun(c, Round(f, q, sinks), n - 1)
  }

  lemma {:induction false} FanRunJoins(c: Config, r: Round, m: nat, n: nat)
    requires FanRun(c, r, m).Some?
    ensures FanRun(c, r, m + n) == FanRun(c, FanRun(c, r, m).value, n)
    decreases m
  {
    if m == 0 {
    } else {
      var (f, q, sinks) := NextFan(c, r.fan, r.ingest, r.sinks).value;
      FanRunJoins(c, Round(f, q, sinks), m - 1, n);
    }
  }

  /** The steps at an active slot, from the top of the loop to the top of the next turn. */
  lemma ActiveSlotAlone(c: Config, r: Round) returns (n: nat)
    requires c.Valid() && r.fan.pc.Scanning? && r.fan.pc.i < |r.sinks|
    requires r.sinks[r.fan.pc.i].active && Settled(r.sinks[r.fan.pc.i], c.sinkDepth)
    ensures var i, frame := r.fan.pc.i, r.fan.pc.frame;
      var slot' := Offered(r.sinks[i], c.sinkDepth, frame);
      FanRun(c, r, n) == Some(Round(
        r.fan.(pc := Scanning(frame, i + 1, true),
               sinkDropped := Wrap32(r.fan.sinkDropped
                                     + Wrap32(slot'.chan.dropped - r.sinks[i].chan.dropped))),
        r.ingest, r.sinks[i := slot']))
  {
    hide DropOldest.Inv;
    var i, frame := r.fan.pc.i, r.fan.pc.frame;
    var slot := r.sinks[i];
    var q := DropOldest.FirstPut(slot.chan, c.sinkDepth, frame);
    if q.phase.Idle? {
      n := 2;
      var a := Round(r.fan.(pc := Accounting(frame, i, slot.chan.dropped, Drops(slot))), r.ingest,
                     r.sinks[i := slot.(chan := q)]);
      assert FanRun(c, r, 2) == FanRun(c, a, 1);
      assert a.sinks[i := a.sinks[i].(queued := Wrap32(slot.queued + 1))]
        == r.sinks[i := Offered(slot, c.sinkDepth, frame)];
      OneStep(c, a);
    } else {
      n := 4;
      var offering := r.fan.(pc := Offering(frame, i, slot.chan.dropped, Drops(slot)));
      var a := Round(offering, r.ingest, r.sinks[i := slot.(chan := q)]);
      var q' := DropOldest.DropGet(q);
      var b := Round(offering, r.ingest, r.sinks[i := slot.(chan := q')]);
      assert a.sinks[i := a.sinks[i].(chan := q')] == b.sinks;
      var q'' := DropOldest.SecondPut(q', c.sinkDepth);
      var d := Round(r.fan.(pc := Accounting(frame, i, slot.chan.dropped, Drops(slot))), r.ingest,
                     r.sinks[i := slot.(chan := q'')]);
      assert b.sinks[i := b.sinks[i].(chan := q'')] == d.sinks;
      assert d.sinks[i := d.sinks[i].(queued := Wrap32(slot.queued + 1))]
        == r.sinks[i := Offered(slot, c.sinkDepth, frame)];
      assert FanRun(c, r, 4) == FanRun(c, a, 3);
      assert FanRun(c, a, 3) == FanRun(c, b, 2);
      assert FanRun(c, b, 2) == FanRun(c, d, 1);
      OneStep(c, d);
    }
  }

  lemma OneStep(c: Config, r: Round)
    ensures FanRun(c, r, 1) ==
      match NextFan(c, r.fan, r.ingest, r.sinks)
      case None => None
      case Some((f, q, sinks)) => Some(Round(f, q, sinks))
  {
    match NextFan(c, r.fan, r.ingest, r.sinks)
    case None =>
    case Some((f, q, sinks)) => assert FanRun(c, Round(f, q, sinks), 0) == Some(Round(f, q, sinks));
  }

  /** The global counter grows by the drops at that slot. */
  lemma CountedAtSlot(c: Config, r: Round, sinks: seq<Slot>, frame: Frame)
    requires c.Valid() && r.fan.pc.Scanning? && r.fan.pc.i < |r.sinks|
    requires r.sinks[r.fan.pc.i].active && Settled(r.sinks[r.fan.pc.i], c.sinkDepth)
    requires sinks == r.sinks[r.fan.pc.i := Offered(r.sinks[r.fan.pc.i], c.sinkDepth, frame)]
    ensures var i := r.fan.pc.i;
      Wrap32(r.fan.sinkDropped + Wrap32(sinks[i].chan.dropped - r.sinks[i].chan.dropped))
        == Wrap32(r.fan.sinkDropped + SumDrops(sinks) - SumDrops(r.sinks))
  {
    hide DropOldest.Inv, DropOldest.Put, Wrap32, SumDrops;
    var i := r.fan.pc.i;
    DropOldest.PutKeepsNewest(r.sinks[i].chan, c.sinkDepth, frame);
    CountersAreDrops(r.sinks[i], sinks[i], c.sinkDepth);
    GrowthIsDifference(Drops(r.sinks[i]), Drops(sinks[i]), r.fan.sinkDropped);
    SumAfterUpdate(r.sinks, i, sinks[i]);
  }

  /** The rest of the loop, from slot i on: every later slot becomes what one fan-out makes of it. */
  lemma {:induction false} LoopAlone(c: Config, r: Round, was: seq<Slot>) returns (n: nat)
    requires c.Valid() && r.fan.pc.Scanning? && r.fan.pc.i <= |r.sinks| == |was|
    requires forall j :: 0 <= j < |was| ==> Settled(was[j], c.sinkDepth)
    requires forall j :: 0 <= j < r.fan.pc.i ==> r.sinks[j] == Offered(was[j], c.sinkDepth, r.fan.pc.frame)
    requires forall j :: r.fan.pc.i <= j < |was| ==> r.sinks[j] == was[j]
    ensures FanRun(c, r, n).Some?
    ensures var r' := FanRun(c, r, n).value;
      r'.fan.pc.Scanning? && r'.fan.pc.i == |was| == |r'.sinks| && r'.ingest == r.ingest
      && r'.sinks == FanOut(was, c.sinkDepth, r.fan.pc.frame)
      && r'.fan.noSinks == r.fan.noSinks
      && r'.fan.sinkDropped == Wrap32(r.fan.sinkDropped + SumDrops(r'.sinks) - SumDrops(r.sinks))
      && (r'.fan.pc.any <==> r.fan.pc.any || exists j :: r.fan.pc.i <= j < |was| && was[j].active)
    decreases |was| - r.fan.pc.i
  {
    hide DropOldest.Inv, DropOldest.Put, NextFan, Wrap32, SumDrops;
    WrapKeeps(r.fan.sinkDropped);
    var i, frame := r.fan.pc.i, r.fan.pc.frame;
    if i == |was| {
      n := 0;
      assert r.sinks == FanOut(was, c.sinkDepth, frame);
    } else {
      var m: nat;
      var next: Round;
      if was[i].active {
        m := ActiveSlotAlone(c, r);
        next := FanRun(c, r, m).value;
        CountedAtSlot(c, r, next.sinks, frame);
      } else {
        m := 1;
        SkipAlone(c, r);
        next := FanRun(c, r, 1).value;
      }
      var k := LoopAlone(c, next, was);
      FanRunJoins(c, r, m, k);
      n := m + k;
      WrapAdds(r.fan.sinkDropped + SumDrops(next.sinks) - SumDrops(r.sinks),
               SumDrops(FanRun(c, r, n).value.sinks) - SumDrops(next.sinks));
    }
  }

  lemma SkipAlone(c: Config, r: Round)
    requires r.fan.pc.Scanning? && r.fan.pc.i < |r.sinks| && !r.sinks[r.fan.pc.i].active
    ensures FanRun(c, r, 1) ==
      Some(r.(fan := r.fan.(pc := Scanning(r.fan.pc.frame, r.fan.pc.i + 1, r.fan.pc.any))))
  {
    OneStep(c, r);
  }

  /** The get and the lock. */
  lemma StartAlone(c: Config, r: Round) returns (start: Round)
    requires r.fan.pc.Waiting? && r.ingest.queue != []
    ensures FanRun(c, r, 2) == Some(start)
    ensures start == Round(
      r.fan.(pc := Scanning(r.ingest.queue[0], 0, false)), DropOldest.Take(r.ingest), r.sinks)
  {
    var frame := r.ingest.queue[0];
    var held := Round(r.fan.(pc := Holding(frame)), DropOldest.Take(r.ingest), r.sinks);
    start := Round(r.fan.(pc := Scanning(frame, 0, false)), DropOldest.Take(r.ingest), r.sinks);
    assert FanRun(c, r, 2) == FanRun(c, held, 1);
    OneStep(c, held);
  }

  /** The count of a frame nobody wanted, and the unlock. */
  lemma FinishAlone(c: Config, r: Round)
    requires r.fan.pc.Scanning? && r.fan.pc.i == |r.sinks|
    ensures FanRun(c, r, 1).Some?
    ensures var r' := FanRun(c, r, 1).value;
      && r'.fan.pc.Waiting? && r'.ingest == r.ingest && r'.sinks == r.sinks
      && r'.fan.sinkDropped == r.fan.sinkDropped
      && r'.fan.noSinks == if r.fan.pc.any then r.fan.noSinks else Wrap32(r.fan.noSinks + 1)
  {
    OneStep(c, r);
  }

  /** A whole uninterrupted turn of the dispatcher is NmeaBridge.Dispatch: it takes the head of the
      ingest queue, fans it out, counts a frame nobody wanted, and waits again. */
  lemma DispatcherAlone(c: Config, r: Round) returns (n: nat)
    requires c.Valid() && r.fan.pc.Waiting? && r.ingest.queue != []
    requires forall j :: 0 <= j < |r.sinks| ==> Settled(r.sinks[j], c.sinkDepth)
    ensures FanRun(c, r, n).Some?
    ensures var r' := FanRun(c, r, n).value;
      r'.fan.pc.Waiting? && r'.ingest == DropOldest.Take(r.ingest)
      && r'.sinks == FanOut(r.sinks, c.sinkDepth, r.ingest.queue[0])
      && r'.fan.noSinks == Wrap32(r.fan.noSinks + if AnyActive(r.sinks) then 0 else 1)
      && r'.fan.sinkDropped == Wrap32(r.fan.sinkDropped + SumDrops(r'.sinks) - SumDrops(r.sinks))
  {
    hide DropOldest.Inv, DropOldest.Put, SumDrops, NextFan, FanRun, FanOut, Wrap32;
    var frame := r.ingest.queue[0];
    var start := StartAlone(c, r);
    var k := LoopAlone(c, start, r.sinks);
    var end := FanRun(c, start, k).value;
    FanRunJoins(c, r, 2, k);
    FinishAlone(c, end);
    FanRunJoins(c, r, 2 + k, 1);
    n := 2 + k + 1;
    WrapKeeps(r.fan.noSinks);
  }

  /** n steps of the UART thread in a row. */
  function UartRun(c: Config, u: Uart, ingest: Queue, ch: Byte, n: nat): (Uart, Queue)
    decreases n
  {
    if n == 0 then (u, ingest)
    else
      var (u', q) := NextUart(c, u, ingest, ch);
      UartRun(c, u', q, ch, n - 1)
  }

  /** The UART thread's steps after counting a frame, uninterrupted, are put_drop_oldest: one step if
      there is room, three if not. */
  lemma PublishAlone(c: Config, u: Uart, ingest: Queue, ch: Byte)
    requires u.pc.Counted? && ingest.phase.Idle?
    ensures UartRun(c, u, ingest, ch, if |ingest.queue| < c.ingestDepth then 1 else 3)
         == (u.(pc := Published), DropOldest.Put(ingest, c.ingestDepth, u.pc.frame))
  {
    var q1 := DropOldest.FirstPut(ingest, c.ingestDepth, u.pc.frame);
    if |ingest.queue| < c.ingestDepth {
      UartRunOne(c, u, ingest, ch);
    } else {
      var waiting := u.(pc := Putting);
      var q2 := DropOldest.DropGet(q1);
      assert UartRun(c, u, ingest, ch, 3) == UartRun(c, waiting, q1, ch, 2);
      assert UartRun(c, waiting, q1, ch, 2) == UartRun(c, waiting, q2, ch, 1);
      UartRunOne(c, waiting, q2, ch);
    }
  }

  lemma UartRunOne(c: Config, u: Uart, ingest: Queue, ch: Byte)
    ensures UartRun(c, u, ingest, ch, 1) == NextUart(c, u, ingest, ch)
  {
  }

  /** The UART thread's steps for one byte, uninterrupted, are UartThread.Receive: framer, counters and
      ingest queue end up as that method leaves them. */
  lemma ReceiveAlone(c: Config, u: Uart, ingest: Queue, ch: Byte) returns (n: nat)
    requires u.pc.Reading? && ingest.phase.Idle?
    ensures var t := Framer.Extend(c.frameMax, Framer.Trace(u.framer, [], 0), ch);
      var (u', q) := UartRun(c, u, ingest, ch, n);
      && u'.pc.Reading? && u'.framer == t.state && u'.rx == u.rx + [ch]
      && u'.bytesRx == Wrap32(u.bytesRx + 1)
      && u'.linesRx == Wrap32(u.linesRx + |t.published|)
      && u'.overlongLines == Wrap32(u.overlongLines + t.overlong)
      && u'.framesIn == Wrap32(u.framesIn + |t.published|)
      && u'.publishInvalid == u.publishInvalid && u'.publishOversize == u.publishOversize
      && |t.published| <= 1
      && q == if t.published == [] then ingest else DropOldest.Put(ingest, c.ingestDepth, t.published[0])
  {
    hide DropOldest.Put;
    WrapKeeps(u.linesRx);
    WrapKeeps(u.overlongLines);
    WrapKeeps(u.framesIn);
    var u1 := ReceiveByte(c, u, ch);
    UartRunOne(c, u, ingest, ch);
    n := 1;
    if u1.pc.Counted? {
      var k := if |ingest.queue| < c.ingestDepth then 1 else 3;
      PublishAlone(c, u1, ingest, ch);
      UartRunJoins(c, u, ingest, ch, 1, k);
      var u2, q := u1.(pc := Published), DropOldest.Put(ingest, c.ingestDepth, u1.pc.frame);
      UartRunJoins(c, u, ingest, ch, 1 + k, 1);
      UartRunOne(c, u2, q, ch);
      n := 1 + k + 1;
    }
  }

  lemma {:induction false} UartRunJoins(c: Config, u: Uart, ingest: Queue, ch: Byte, m: nat, n: nat)
    ensures var (u', q) := UartRun(c, u, ingest, ch, m);
      UartRun(c, u, ingest, ch, m + n) == UartRun(c, u', q, ch, n)
    decreases m
  {
    if m == 0 {
    } else {
      var (u', q) := NextUart(c, u, ingest, ch);
      UartRunJoins(c, u', q, ch, m - 1, n);
    }
  }

  // ---------------------------------------------------------------- sessions

  /** n steps in a row of the thread that runs session o, none of them at its socket. */
  function SessionRun(s: State, o: nat, n: nat): Option<State>
    decreases n
  {
    if n == 0 then Some(s)
    else if o >= |s.sessions| then None
    else
      match NextSession(s, o, Tick)
      case None => None
      case Some(s') => SessionRun(s', o, n - 1)
  }

  /** nmea_bridge_sink_open is one step: NmeaBridge.Open on the same table. */
  lemma OpenAlone(s: State, o: nat)
    requires o < |s.sessions| && s.sessions[o].pc.Opening? && !Locked(s.fan)
    ensures NextSession(s, o, Tick).Some?
    ensures var s' := NextSession(s, o, Tick).value; var x' := s'.sessions[o];
      var (rc, id, t) := OpenHandle(s.sinks, o, Fanned(s));
      && s'.sinks == t && x'.pc == (if rc == Ok then Counting else Rejecting)
      && (rc == Ok ==> x'.sinkId == id)
    ensures s.fan.pc.Waiting? ==> Fanned(s) == |s.ingest.taken|
  {
  }

  /** nmea_bridge_sink_close is one step: NmeaBridge.Close. */
  lemma CloseAlone(s: State, o: nat)
    requires o < |s.sessions| && s.sessions[o].pc.Closing? && !Locked(s.fan)
    ensures NextSession(s, o, Tick).Some?
    ensures var s' := NextSession(s, o, Tick).value; var x' := s'.sessions[o];
      && (s'.sinks, x'.sinkId) == CloseHandle(s.sinks, s.sessions[o].sinkId)
      && x'.pc.Hanging? && (0 <= s.sessions[o].sinkId < |s.sinks| ==> x'.sinkId == -1)
  {
  }

  /** The check, the get and the count of nmea_bridge_sink_take, uninterrupted, are
      NmeaBridge.TakeFrame; where the session goes next follows from what that returns. */
  lemma TakeAlone(s: State, o: nat) returns (n: nat)
    requires o < |s.sessions| && s.sessions[o].pc.Checking? && !Locked(s.fan)
    ensures n <= 3 && SessionRun(s, o, n).Some?
    ensures var s', x := SessionRun(s, o, n).value, s.sessions[o];
      var (rc, frame, t) := TakeHandle(s.sinks, x.sinkId);
      && s'.sinks == t && |s'.sessions| == |s.sessions|
      && s'.sessions[o].pc ==
           (match rc case ENotConn => Ending case Ok => Sending(frame, 0) case _ => Draining(false))
      && s'.sessions[o].frames == x.frames + if rc == Ok then [frame] else []
  {
    var x := s.sessions[o];
    var s1 := CheckStep(s, o).value;
    if Standing(s.sinks, x.sinkId) != Ok {
      n := 1;
      assert SessionRun(s, o, 1) == SessionRun(s1, o, 0);
    } else {
      var slot, s2 := s.sinks[x.sinkId], GetStep(s1, o).value;
      if slot.chan.queue == [] {
        n := 2;
        assert SessionRun(s, o, 2) == SessionRun(s1, o, 1) == SessionRun(s2, o, 0);
      } else {
        n := 3;
        var s3 := NoteStep(s2, o, slot.chan.queue[0]).value;
        assert s3.sinks == s.sinks[x.sinkId := Consumed(slot)];
        assert SessionRun(s, o, 3) == SessionRun(s1, o, 2) == SessionRun(s2, o, 1) == SessionRun(s3, o, 0);
      }
    }
  }

  /** What a step inside the session loop is called in SessionLoop. */
  function MoveOf(s: State, o: nat, oracle: Oracle): Move
    requires o < |s.sessions|
  {
    var x := s.sessions[o];
    match x.pc
    case Checking =>
      (match Standing(s.sinks, x.sinkId) case Ok => Admit case ENotConn => Deny case _ => Misplace)
    case Getting =>
      if !(0 <= x.sinkId < |s.sinks|) || s.sinks[x.sinkId].chan.queue == [] then Empty
      else
        var slot := s.sinks[x.sinkId];
        Give(slot.chan.queue[0], slot.openedAt + |slot.chan.fate|)
    case Noting(_) => Note
    case _ => Local(oracle)
  }

  predicate InLoop(pc: SessionPc) {
    pc.Draining? || pc.Checking? || pc.Getting? || pc.Noting? || pc.Sending? || pc.Forwarding? || pc.Failing?
  }

  /** Every step that a thread of the system makes inside the session loop, whatever the others do in
      between, is one of the steps that the loop methods are proved to make. */
  lemma LoopStepIsMove(s: State, o: nat, oracle: Oracle)
    requires o < |s.sessions| && InLoop(s.sessions[o].pc) && NextSession(s, o, oracle).Some?
    ensures var s' := NextSession(s, o, oracle).value;
      && |s'.sessions| == |s.sessions|
      && Advance(s.sessions[o], MoveOf(s, o, oracle)) == Some(s'.sessions[o])
  {
  }

  // ---------------------------------------------------------------- the server's slots

  /** alloc_client is one step of the accept loop: ClientPool.Alloc. */
  lemma AllocAlone(c: Config, s: State, fd: nat)
    requires s.acceptor.Accepted?
    ensures NextAcceptor(c, s, fd).Some?
    ensures var s' := NextAcceptor(c, s, fd).value; var (slot, t) := Server.AllocIn(s.clients);
      s'.clients == t && s'.fds == s.fds
      && s'.acceptor == match slot case None => Refusing(s.acceptor.fd) case Some(k) => Assigning(k, s.acceptor.fd)
  {
  }

  /** The end of a server thread, uninterrupted, is ClientPool.Leave: its slot is free again and nothing
      is closed. */
  lemma LeaveAlone(s: State, o: nat)
    requires o < |s.sessions| && o < |s.clients| && s.sessions[o].pc.Finished?
    ensures SessionRun(s, o, 3).Some?
    ensures var s' := SessionRun(s, o, 3).value;
      && s'.clients == s.clients[o := System.ClientSlot(false, -1)] && s'.fds == s.fds
      && s'.sessions == s.sessions[o := s.sessions[o].(pc := Absent)]
  {
    var s1 := LeaveStep(s, o).value;
    var s2 := LeaveStep(s1, o).value;
    var s3 := LeaveStep(s2, o).value;
    assert SessionRun(s, o, 3) == SessionRun(s1, o, 2) == SessionRun(s2, o, 1) == SessionRun(s3, o, 0);
    assert s3.clients == s.clients[o := s.clients[o].(active := false, fd := -1)];
    assert s3.sessions == s.sessions[o := s.sessions[o].(pc := Absent)];
  }
}
