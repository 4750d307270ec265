/** What holds in every reachable state, in eight groups; each names only the parts it is about. */
module Invariant {
  import opened Base
  import Framer
  import DropOldest
  import opened Sinks
  import opened SessionSteps
  import opened System

  ghost predicate Inv(c: Config, s: State) {
    && UartOk(c, s.uart, s.ingest)
    && FanOk(c, s.fan, s.ingest, s.sinks)
    && OwnersOk(s.sinks, s.sessions)
    && SessionsOk(s.ingest, s.sinks, s.sessions)
    && CountsOk(c, s)
    && ThreadsOk(c, s)
    && FdsOk(c, s)
    && DropsOk(s.fan, s.sinks)
  }

  // ---------------------------------------------------------------- UART thread and ingest queue

  /** The framer stands where the reference run over all received bytes stands, and what that run
      published is what was offered to the ingest queue, up to the frame in hand. */
  ghost predicate UartOk(c: Config, u: Uart, ingest: Queue) {
    var t := Framer.Run(c.frameMax, Framer.START, u.rx);
    && u.framer == t.state
    && t.published == ingest.offered + InHand(u)
    && (!u.pc.Reading? ==> t.published != [])
    && (u.pc.Putting? <==> !ingest.phase.Idle?)
    && UartCounted(u, |t.published|, t.overlong)
  }

  /** The UART's and the bridge's input counters, against the numbers of frames and overlong lines. */
  ghost predicate UartCounted(u: Uart, published: nat, overlong: nat) {
    && u.bytesRx == Wrap32(|u.rx|)
    && u.overlongLines == Wrap32(overlong)
    && u.framesIn == Wrap32(published)
    && u.linesRx == Wrap32(published - if u.pc.Reading? then 0 else 1)
    && u.publishInvalid == 0 && u.publishOversize == 0
  }

  function InHand(u: Uart): seq<Frame> { if u.pc.Counted? then [u.pc.frame] else [] }

  // ---------------------------------------------------------------- dispatcher and sink queues

  ghost predicate FanOk(c: Config, f: Fan, ingest: Queue, sinks: seq<Slot>) {
    && DropOldest.Inv(ingest, c.ingestDepth)
    && |sinks| == c.maxSinks
    && HandOk(f, ingest)
    && ScanOk(f, sinks)
    && f.noSinks == Wrap32(f.idleRounds)
    && (forall i :: 0 <= i < |sinks| ==> SlotOk(c, f.pc, ingest, sinks[i], i))
  }

  /** The dispatcher holds the frame it took last. */
  ghost predicate HandOk(f: Fan, ingest: Queue) {
    !f.pc.Waiting? ==> ingest.taken != [] && f.pc.frame == Dispatched(ingest, |ingest.taken| - 1)
  }

  ghost predicate ScanOk(f: Fan, sinks: seq<Slot>) {
    match f.pc
    case Scanning(_, i, any) =>
      i <= |sinks| && (any <==> exists j :: 0 <= j < i && sinks[j].active)
    case Offering(_, i, _, _) => i < |sinks| && sinks[i].active
    case Accounting(_, i, _, _) => i < |sinks| && sinks[i].active
    case _ => true
  }

  /** The frame at position `p` of the dispatch order. */
  function Dispatched(ingest: Queue, p: nat): Frame {
    if p < |ingest.taken| && ingest.taken[p] < |ingest.offered| then ingest.offered[ingest.taken[p]]
    else []
  }

  /** How many dispatched frames have been offered to slot `i`, counting from the beginning. */
  function Reached(pc: FanPc, dispatched: nat, i: nat): int {
    match pc
    case Waiting => dispatched
    case Holding(_) => dispatched - 1
    case Scanning(_, at, _) => if i < at then dispatched else dispatched - 1
    case Offering(_, at, _, _) => if i <= at then dispatched else dispatched - 1
    case Accounting(_, at, _, _) => if i <= at then dispatched else dispatched - 1
  }

  predicate Inside(pc: FanPc, i: nat) {
    (pc.Offering? || pc.Accounting?) && pc.i == i
  }

  /** An active slot has been offered exactly the frames dispatched since it was opened. */
  ghost predicate SlotOk(c: Config, pc: FanPc, ingest: Queue, slot: Slot, i: nat) {
    && (slot.chan.phase.Idle? <==> !(pc.Offering? && pc.i == i))
    && (slot.active ==>
          && DropOldest.Inv(slot.chan, c.sinkDepth)
          && slot.openedAt + |slot.chan.offered| == Reached(pc, |ingest.taken|, i)
          && slot.queued == Wrap32(|slot.chan.offered| - if Inside(pc, i) then 1 else 0)
          && (Inside(pc, i) ==> slot.chan.offered != [])
          && Carries(slot, ingest))
  }

  ghost predicate Carries(slot: Slot, ingest: Queue) {
    && slot.openedAt + |slot.chan.offered| <= |ingest.taken|
    && (forall k :: 0 <= k < |slot.chan.offered| ==>
          slot.chan.offered[k] == Dispatched(ingest, slot.openedAt + k))
  }

  // ---------------------------------------------------------------- who owns which slot

  predicate HoldsSink(pc: SessionPc) {
    pc.Counting? || pc.Announcing? || pc.Draining? || pc.Checking? || pc.Getting? || pc.Noting? ||
    pc.Sending? || pc.Forwarding? || pc.Failing? || pc.Ending? || pc.Discounting? || pc.Closing?
  }

  /** Open handles and active slots are in bijection. */
  ghost predicate OwnersOk(sinks: seq<Slot>, sessions: seq<Session>) {
    && (forall o :: 0 <= o < |sessions| && HoldsSink(sessions[o].pc) ==> Owns(sinks, sessions[o], o))
    && (forall i :: 0 <= i < |sinks| && sinks[i].active ==> OwnedBack(sinks, sessions, i))
  }

  ghost predicate Owns(sinks: seq<Slot>, x: Session, o: nat) {
    && 0 <= x.sinkId < |sinks|
    && sinks[x.sinkId].active
    && sinks[x.sinkId].owner == o
    && sinks[x.sinkId].openedAt == x.since
  }

  ghost predicate OwnedBack(sinks: seq<Slot>, sessions: seq<Session>, i: nat)
    requires i < |sinks|
  {
    && sinks[i].owner < |sessions|
    && HoldsSink(sessions[sinks[i].owner].pc)
    && sessions[sinks[i].owner].sinkId == i
  }

  // ---------------------------------------------------------------- what sessions take and write

  ghost predicate SessionsOk(ingest: Queue, sinks: seq<Slot>, sessions: seq<Session>) {
    forall o :: 0 <= o < |sessions| ==> SessionOk(ingest, sinks, sessions[o])
  }

  ghost predicate SessionOk(ingest: Queue, sinks: seq<Slot>, x: Session) {
    && Writes(x)
    && TookInOrder(ingest, x)
    && (HoldsSink(x.pc) && 0 <= x.sinkId < |sinks| ==> Linked(sinks[x.sinkId], x))
  }

  /** The wire is the frames completely sent and the accepted part of one more. Only a session ended
      by a failed send leaves a frame unfinished. */
  ghost predicate Writes(x: Session) {
    && x.wire == Concat(x.done) + x.part
    && x.result != SinkUnavailable
    && match x.pc
       case Rejecting => false
       case Opening => x.result == PeerClosed && Whole(x) && x.frames == [] && x.took == []
       case Noting(f) => x.result == PeerClosed && x.frames == x.done + [f] && x.part == []
       case Sending(f, n) =>
         x.result == PeerClosed && x.frames == x.done + [f] && n <= |f| && x.part == f[..n]
       case Forwarding => x.result == PeerClosed && Whole(x) && x.done != []
       case Failing => x.result == SendFailed && Cut(x)
       case _ =>
         if Over(x.pc) then (if x.result == SendFailed then Cut(x) else Whole(x))
         else x.result == PeerClosed && Whole(x)
  }

  predicate Over(pc: SessionPc) {
    pc.Failing? || pc.Ending? || pc.Discounting? || pc.Closing? || pc.Hanging? || pc.Finished? ||
    pc.Cleared? || pc.Released? || pc.Absent?
  }

  predicate Whole(x: Session) { x.frames == x.done && x.part == [] }

  predicate Cut(x: Session) {
    && |x.frames| == |x.done| + 1
    && x.frames[..|x.done|] == x.done
    && x.part < x.frames[|x.done|]
  }

  /** Frames are taken in dispatch order, none twice, none from before the sink was opened. */
  ghost predicate TookInOrder(ingest: Queue, x: Session) {
    && |x.took| == |x.frames|
    && Increasing(x.took)
    && (forall k :: 0 <= k < |x.took| ==>
          x.since <= x.took[k] < |ingest.taken| && x.frames[k] == Dispatched(ingest, x.took[k]))
  }

  ghost predicate Linked(slot: Slot, x: Session) {
    && |x.took| == |slot.chan.taken|
    && (forall k :: 0 <= k < |x.took| ==> x.took[k] == slot.openedAt + slot.chan.taken[k])
    && slot.consumed == Wrap32(|x.took| - if x.pc.Noting? then 1 else 0)
    && (x.pc.Noting? ==> x.took != [])
  }

  // ---------------------------------------------------------------- the three counters

  datatype Kind = InLed | InActive | InSink | InThread

  predicate Counts(k: Kind, pc: SessionPc) {
    match k
    case InLed => HoldsSink(pc) && !pc.Counting? && !pc.Announcing? && !pc.Discounting? && !pc.Closing?
    case InActive => HoldsSink(pc) && !pc.Counting? && !pc.Closing?
    case InSink => HoldsSink(pc)
    case InThread => !pc.Absent?
  }

  function Count(ss: seq<Session>, k: Kind): nat {
    if ss == [] then 0
    else Count(ss[..|ss| - 1], k) + if Counts(k, ss[|ss| - 1].pc) then 1 else 0
  }

  ghost predicate CountsOk(c: Config, s: State) {
    && s.ledSessions == Count(s.sessions, InLed)
    && s.activeSessions == Count(s.sessions, InActive)
    && CountActive(s.sinks) == Count(s.sessions, InSink)
  }

  // ---------------------------------------------------------------- threads and their slots

  predicate AcceptorHas(a: AcceptPc, k: nat) { (a.Assigning? || a.Spawning?) && a.slot == k }

  ghost predicate ThreadsOk(c: Config, s: State) {
    && |s.clients| == c.maxClients
    && |s.sessions| == c.maxClients + 1
    && (forall k :: 0 <= k < c.maxClients ==>
          ClientSlotOk(s.clients[k], s.sessions[k], AcceptorHas(s.acceptor, k)))
    && (s.acceptor.Assigning? || s.acceptor.Spawning? ==> s.acceptor.slot < c.maxClients)
    && (s.acceptor.Spawning? ==> s.clients[s.acceptor.slot].fd == s.acceptor.fd)
    && (s.client.pc.Running? <==> !s.sessions[c.maxClients].pc.Absent?)
    && !s.sessions[c.maxClients].pc.Cleared? && !s.sessions[c.maxClients].pc.Released?
    && (!c.serverEnabled ==>
          s.acceptor.Listening? && forall k :: 0 <= k < c.maxClients ==> !s.clients[k].active)
    && (!c.clientEnabled ==> s.client.pc.Unconnected?)
    && s.client.backoff == Min(Pow2(s.client.waits), 30)
  }

  /** A server slot is active exactly from its allocation to the end of its thread. */
  ghost predicate ClientSlotOk(slot: ClientSlot, x: Session, reserved: bool) {
    && (slot.active <==> (!x.pc.Absent? || reserved))
    && (reserved ==> x.pc.Absent?)
    && (x.pc.Cleared? || x.pc.Released? ==> slot.fd == -1)
  }

  // ---------------------------------------------------------------- descriptors

  predicate HoldsFd(pc: SessionPc) {
    pc.Opening? || pc.Rejecting? || HoldsSink(pc) || pc.Hanging?
  }

  function HeldBy(c: Config, s: State, h: nat): Option<int> {
    if h < |s.sessions| then
      if HoldsFd(s.sessions[h].pc) then Some(s.sessions[h].fd) else None
    else if h == AcceptorPlace(c) then
      if s.acceptor.Listening? then None else Some(s.acceptor.fd)
    else if h == ConnectorPlace(c) then
      if s.client.pc.Connecting? || s.client.pc.Abandoning? then Some(s.client.pc.fd) else None
    else None
  }

  /** Open descriptors and the places that must close them are in bijection; nothing was ever closed
      that was not open. */
  ghost predicate FdsOk(c: Config, s: State) {
    && (forall h: nat :: HeldBy(c, s, h).Some? ==> Keeps(s.fds, HeldBy(c, s, h).value, h))
    && (forall fd :: fd in s.fds.open ==> HeldBy(c, s, s.fds.open[fd]) == Some(fd))
    && s.fds.badCloses == 0
    && s.fds.obtained == s.fds.closed + |s.fds.open|
  }

  predicate Keeps(f: Fds, fd: int, h: nat) { fd >= 0 && fd in f.open && f.open[fd] == h }

  // ---------------------------------------------------------------- the global drop counter

  /** The counter is all drops of all sink lifetimes, short of what the dispatcher has yet to add. */
  ghost predicate DropsOk(f: Fan, sinks: seq<Slot>) {
    && Due(f, sinks) >= 0
    && f.sinkDropped == Wrap32(f.retired + SumDrops(sinks) - Due(f, sinks))
    && (MidSlot(f, sinks) ==> f.pc.before == Wrap32(f.pc.allBefore))
  }

  predicate MidSlot(f: Fan, sinks: seq<Slot>) {
    (f.pc.Offering? || f.pc.Accounting?) && f.pc.i < |sinks|
  }

  function Due(f: Fan, sinks: seq<Slot>): int {
    if MidSlot(f, sinks) then Drops(sinks[f.pc.i]) - f.pc.allBefore else 0
  }
}
