/** Every step of the UART thread keeps the invariant. */
module UartSteps {
  import opened Base
  import Framer
  import DropOldest
  import opened Sinks
  import opened SessionSteps
  import opened System
  import opened Invariant

  /** A byte read: the framer follows the reference run, and a frame it publishes passes the
      bridge's length checks. */
  lemma ByteKeepsFraming(c: Config, u: Uart, ch: Byte)
    requires c.Valid() && u.framer == Framer.Run(c.frameMax, Framer.START, u.rx).state && u.pc.Reading?
    ensures var t := Framer.Run(c.frameMax, Framer.START, u.rx);
      var u' := ReceiveByte(c, u, ch);
      var t' := Framer.Run(c.frameMax, Framer.START, u'.rx);
      && t' == Framer.Extend(c.frameMax, t, ch) && u'.framer == t'.state
      && t'.published == t.published + InHand(u')
      && (u'.pc.Reading? || u'.pc.Counted?)
  {
    hide Framer.Run, NoNewline, Wrap32;
    var t := Framer.Run(c.frameMax, Framer.START, u.rx);
    var u' := ReceiveByte(c, u, ch);
    Framer.RunSnoc(c.frameMax, Framer.START, u.rx, ch);
    assert u'.rx == u.rx + [ch];
    var event := Framer.Feed(c.frameMax, u.framer, ch).1;
    if event.Publish? {
      Framer.PublishedAreLines(c.frameMax, u'.rx);
      var t' := Framer.Run(c.frameMax, Framer.START, u'.rx);
      assert t'.published[|t.published|] == event.frame;
    }
  }

  lemma ByteKeepsCounts(c: Config, u: Uart, ch: Byte, published: nat, overlong: nat)
    requires UartCounted(u, published, overlong) && u.pc.Reading?
    requires ReceiveByte(c, u, ch).pc.Reading? || ReceiveByte(c, u, ch).pc.Counted?
    ensures var event := Framer.Feed(c.frameMax, u.framer, ch).1;
      UartCounted(ReceiveByte(c, u, ch), published + if event.Publish? then 1 else 0,
                  overlong + if event.Overlong? then 1 else 0)
  {
    CountOn(|u.rx|, 1);
    match Framer.Feed(c.frameMax, u.framer, ch).1
    case Quiet =>
    case Overlong => CountOn(overlong, 1);
    case Publish(_) => CountOn(published, 1);
  }

  lemma ByteKeepsUart(c: Config, u: Uart, ingest: Queue, ch: Byte)
    requires c.Valid() && UartOk(c, u, ingest) && u.pc.Reading?
    ensures UartOk(c, ReceiveByte(c, u, ch), ingest)
  {
    hide UartCounted, ReceiveByte, Framer.Run;
    var t := Framer.Run(c.frameMax, Framer.START, u.rx);
    ByteKeepsFraming(c, u, ch);
    ByteKeepsCounts(c, u, ch, |t.published|, t.overlong);
  }

  lemma CountOn(n: nat, k: nat)
    ensures Wrap32(Wrap32(n) + k) == Wrap32(n + k)
  {
    WrapAdds(n, k);
  }

  lemma UartKeepsUart(c: Config, u: Uart, ingest: Queue, ch: Byte)
    requires c.Valid() && UartOk(c, u, ingest)
    ensures var (u', q) := NextUart(c, u, ingest, ch); UartOk(c, u', q)
  {
    match u.pc
    case Reading => ByteKeepsUart(c, u, ingest, ch);
    case Counted(frame) =>
    case Putting =>
    case Published => CountOn(|Framer.Run(c.frameMax, Framer.START, u.rx).published| - 1, 1);
  }

  lemma UartKeepsIngest(c: Config, u: Uart, ingest: Queue, ch: Byte)
    requires c.Valid() && UartOk(c, u, ingest) && DropOldest.Inv(ingest, c.ingestDepth)
    ensures DropOldest.Inv(NextUart(c, u, ingest, ch).1, c.ingestDepth)
  {
    match u.pc
    case Reading =>
    case Counted(frame) => DropOldest.FirstPutKeeps(ingest, c.ingestDepth, frame);
    case Putting =>
      if ingest.phase.Full? {
        DropOldest.DropGetKeeps(ingest, c.ingestDepth);
      } else {
        DropOldest.SecondPutKeeps(ingest, c.ingestDepth);
      }
    case Published =>
  }

  /** Ingest only grows: positions keep their frames. */
  ghost predicate Grows(a: Queue, b: Queue) { a.offered <= b.offered && a.taken <= b.taken }

  lemma GrowsKeepsDispatched(a: Queue, b: Queue, depth: nat)
    requires DropOldest.Inv(a, depth) && Grows(a, b)
    ensures forall p :: 0 <= p < |a.taken| ==> Dispatched(b, p) == Dispatched(a, p)
  {
  }

  lemma GrowsKeepsSessions(a: Queue, b: Queue, depth: nat, sinks: seq<Slot>, sessions: seq<Session>)
    requires DropOldest.Inv(a, depth) && Grows(a, b) && SessionsOk(a, sinks, sessions)
    ensures SessionsOk(b, sinks, sessions)
  {
    GrowsKeepsDispatched(a, b, depth);
    forall o | 0 <= o < |sessions| ensures SessionOk(b, sinks, sessions[o]) {
      assert SessionOk(a, sinks, sessions[o]);
    }
  }

  lemma UartKeepsFan(c: Config, s: State, ch: Byte)
    requires c.Valid() && UartOk(c, s.uart, s.ingest) && FanOk(c, s.fan, s.ingest, s.sinks)
    ensures var (u', q) := NextUart(c, s.uart, s.ingest, ch);
      Grows(s.ingest, q) && q.taken == s.ingest.taken && FanOk(c, s.fan, q, s.sinks)
  {
    hide DropOldest.Inv, Framer.Run, UartCounted;
    var (u', q) := NextUart(c, s.uart, s.ingest, ch);
    hide DropOldest.Inv, Framer.Run, UartCounted;
    UartKeepsIngest(c, s.uart, s.ingest, ch);
    GrowsKeepsDispatched(s.ingest, q, c.ingestDepth);
    forall i | 0 <= i < |s.sinks| ensures SlotOk(c, s.fan.pc, q, s.sinks[i], i) {
      assert SlotOk(c, s.fan.pc, s.ingest, s.sinks[i], i);
    }
  }

  lemma UartKeeps(c: Config, s: State, ch: Byte)
    requires c.Valid() && Inv(c, s)
    ensures Inv(c, Next(c, s, UartStep(ch)).value)
  {
    var (u', q) := NextUart(c, s.uart, s.ingest, ch);
    UartKeepsUart(c, s.uart, s.ingest, ch);
    UartKeepsFan(c, s, ch);
    GrowsKeepsSessions(s.ingest, q, c.ingestDepth, s.sinks, s.sessions);
    var s' := Next(c, s, UartStep(ch)).value;
    assert FdsOk(c, s') by { SameFds(c, s, s'); }
  }

  lemma ThreadsIgnoreSinks(c: Config, s: State, s': State)
    requires ThreadsOk(c, s) && s'.clients == s.clients && s'.sessions == s.sessions
    requires s'.acceptor == s.acceptor && s'.client == s.client
    ensures ThreadsOk(c, s')
  {
  }

  lemma SameFds(c: Config, s: State, s': State)
    requires FdsOk(c, s) && s'.sessions == s.sessions && s'.fds == s.fds
    requires s'.acceptor == s.acceptor && s'.client == s.client
    ensures FdsOk(c, s')
  {
    assert forall h: nat :: HeldBy(c, s', h) == HeldBy(c, s, h);
  }
}
