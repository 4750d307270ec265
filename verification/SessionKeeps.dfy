/** Every step of a session thread keeps the invariant. */
module SessionKeeps {
  import opened Base
  import DropOldest
  import opened Sinks
  import opened SessionSteps
  import opened System
  import opened Invariant
  import opened UartSteps
  import opened Counting

  // ---------------------------------------------------------------- one session replaced

  /** Everything other groups see of a session. */
  predicate SameOutside(x: Session, x': Session) {
    && x'.sinkId == x.sinkId && x'.since == x.since && x'.fd == x.fd
    && Counts(InLed, x.pc) == Counts(InLed, x'.pc)
    && Counts(InActive, x.pc) == Counts(InActive, x'.pc)
    && HoldsSink(x.pc) == HoldsSink(x'.pc)
    && HoldsFd(x.pc) == HoldsFd(x'.pc)
    && x.pc.Absent? == x'.pc.Absent?
    && !x'.pc.Cleared? && !x'.pc.Released?
  }

  lemma PutKeepsOwners(sinks: seq<Slot>, ss: seq<Session>, o: nat, x': Session)
    requires OwnersOk(sinks, ss) && o < |ss|
    requires x'.sinkId == ss[o].sinkId && x'.since == ss[o].since
    requires HoldsSink(x'.pc) == HoldsSink(ss[o].pc)
    ensures OwnersOk(sinks, ss[o := x'])
  {
    var t := ss[o := x'];
    forall p | 0 <= p < |t| && HoldsSink(t[p].pc) ensures Owns(sinks, t[p], p) {
      assert Owns(sinks, ss[p], p);
    }
    forall i | 0 <= i < |sinks| && sinks[i].active ensures OwnedBack(sinks, t, i) {
      assert OwnedBack(sinks, ss, i);
    }
  }

  lemma PutKeepsSessions(ingest: Queue, sinks: seq<Slot>, ss: seq<Session>, o: nat, x': Session)
    requires SessionsOk(ingest, sinks, ss) && o < |ss| && SessionOk(ingest, sinks, x')
    ensures SessionsOk(ingest, sinks, ss[o := x'])
  {
    var t := ss[o := x'];
    forall p | 0 <= p < |t| ensures SessionOk(ingest, sinks, t[p]) {
      assert SessionOk(ingest, sinks, ss[p]);
    }
  }

  lemma PutKeepsThreads(c: Config, s: State, o: nat, x': Session)
    requires ThreadsOk(c, s) && o < |s.sessions|
    requires x'.pc.Absent? == s.sessions[o].pc.Absent? && !x'.pc.Cleared? && !x'.pc.Released?
    ensures ThreadsOk(c, Put(s, o, x'))
  {
    var s' := Put(s, o, x');
    forall k | 0 <= k < c.maxClients
      ensures ClientSlotOk(s'.clients[k], s'.sessions[k], AcceptorHas(s'.acceptor, k))
    {
      assert ClientSlotOk(s.clients[k], s.sessions[k], AcceptorHas(s.acceptor, k));
    }
  }

  lemma SameHolders(c: Config, s: State, s': State)
    requires FdsOk(c, s) && s'.fds == s.fds
    requires forall h: nat :: HeldBy(c, s', h) == HeldBy(c, s, h)
    ensures FdsOk(c, s')
  {
  }

  lemma PutKeepsFds(c: Config, s: State, o: nat, x': Session)
    requires FdsOk(c, s) && o < |s.sessions|
    requires x'.fd == s.sessions[o].fd && HoldsFd(x'.pc) == HoldsFd(s.sessions[o].pc)
    ensures FdsOk(c, Put(s, o, x'))
  {
    SameHolders(c, s, Put(s, o, x'));
  }

  lemma PutCounts(ss: seq<Session>, o: nat, x': Session)
    requires o < |ss|
    ensures forall k :: Count(ss[o := x'], k) == Count(ss, k) - One(k, ss[o].pc) + One(k, x'.pc)
  {
    forall k ensures Count(ss[o := x'], k) == Count(ss, k) - One(k, ss[o].pc) + One(k, x'.pc) {
      CountAfterUpdate(ss, o, x', k);
    }
  }

  /** What the invariant says of one session and its slot. */
  lemma OneSession(c: Config, s: State, o: nat)
    requires Inv(c, s) && o < |s.sessions|
    ensures SessionOk(s.ingest, s.sinks, s.sessions[o])
    ensures HoldsSink(s.sessions[o].pc) ==> Owns(s.sinks, s.sessions[o], o)
  {
    hide UartOk, FanOk, ThreadsOk, FdsOk, DropsOk, CountsOk;
  }

  lemma OneSlot(c: Config, s: State, i: nat)
    requires Inv(c, s) && i < |s.sinks|
    ensures SlotOk(c, s.fan.pc, s.ingest, s.sinks[i], i)
  {
    hide UartOk, OwnersOk, SessionsOk, ThreadsOk, FdsOk, DropsOk, CountsOk;
  }

  /** The session's own facts do not depend on its place in the program while it holds its sink and
      is not between a take and its count. */
  lemma SessionMoves(ingest: Queue, sinks: seq<Slot>, x: Session, x': Session)
    requires SessionOk(ingest, sinks, x) && Writes(x')
    requires x'.took == x.took && x'.frames == x.frames && x'.since == x.since
    requires x'.sinkId == x.sinkId && (HoldsSink(x'.pc) ==> HoldsSink(x.pc))
    requires x.pc.Noting? == x'.pc.Noting?
    ensures SessionOk(ingest, sinks, x')
  {
  }

  /** A step that changes nothing outside the session. */
  lemma PutKeeps(c: Config, s: State, o: nat, x': Session)
    requires c.Valid() && Inv(c, s) && o < |s.sessions|
    requires SameOutside(s.sessions[o], x') && SessionOk(s.ingest, s.sinks, x')
    ensures Inv(c, Put(s, o, x'))
  {
    hide UartOk, FanOk, OwnersOk, SessionsOk, ThreadsOk, FdsOk, DropsOk;
    PutKeepsOwners(s.sinks, s.sessions, o, x');
    PutKeepsSessions(s.ingest, s.sinks, s.sessions, o, x');
    PutKeepsThreads(c, s, o, x');
    PutKeepsFds(c, s, o, x');
    PutCounts(s.sessions, o, x');
  }

  // ---------------------------------------------------------------- steps on the session alone

  lemma SentWrites(x: Session)
    requires Writes(x) && x.pc.Sending? && x.pc.sent == |x.pc.frame|
    ensures Writes(x.(pc := Forwarding, done := x.done + [x.pc.frame], part := []))
  {
    hide Concat;
    assert x.pc.frame[..x.pc.sent] == x.pc.frame;
    ConcatSnoc(x.done, x.pc.frame);
  }

  lemma AcceptedWrites(x: Session, n: nat)
    requires Writes(x) && x.pc.Sending? && x.pc.sent + n <= |x.pc.frame|
    ensures var more := x.pc.frame[x.pc.sent..x.pc.sent + n];
      Writes(x.(pc := Sending(x.pc.frame, x.pc.sent + n), wire := x.wire + more, part := x.part + more))
  {
    hide Concat;
    var frame, sent := x.pc.frame, x.pc.sent;
    Associates(Concat(x.done), frame[..sent], frame[sent..sent + n]);
    assert frame[..sent] + frame[sent..sent + n] == frame[..sent + n];
  }

  lemma FailedWrites(x: Session)
    requires Writes(x) && x.pc.Sending? && x.pc.sent < |x.pc.frame|
    ensures Writes(x.(pc := Failing, result := SendFailed))
  {
    hide Concat;
    assert x.frames[..|x.done|] == x.done;
  }

  lemma SendingWrites(x: Session, r: Oracle)
    requires Writes(x) && x.pc.Sending? && x.pc.sent <= |x.pc.frame| && NextLocal(x, r).Some?
    ensures Writes(NextLocal(x, r).value)
  {
    hide Writes;
    if x.pc.sent == |x.pc.frame| {
      SentWrites(x);
    } else {
      match r.send
      case Accepts(n) => AcceptedWrites(x, n);
      case Again =>
      case SendError => FailedWrites(x);
    }
  }

  lemma LocalWrites(x: Session, r: Oracle)
    requires Writes(x) && NextLocal(x, r).Some?
    ensures Writes(NextLocal(x, r).value)
  {
    hide Concat;
    if x.pc.Sending? {
      SendingWrites(x, r);
    }
  }

  lemma LocalStaysInside(x: Session, r: Oracle)
    requires NextLocal(x, r).Some?
    ensures var x' := NextLocal(x, r).value;
      && SameOutside(x, x') && !x.pc.Noting? && !x'.pc.Noting?
      && x'.took == x.took && x'.frames == x.frames
  {
  }

  lemma LocalKeeps(c: Config, s: State, o: nat, r: Oracle)
    requires c.Valid() && Inv(c, s) && o < |s.sessions| && NextLocal(s.sessions[o], r).Some?
    ensures Inv(c, Put(s, o, NextLocal(s.sessions[o], r).value))
  {
    hide UartOk, FanOk, OwnersOk, SessionsOk, ThreadsOk, FdsOk, DropsOk, CountsOk;
    var x := s.sessions[o];
    OneSession(c, s, o);
    LocalWrites(x, r);
    LocalStaysInside(x, r);
    SessionMoves(s.ingest, s.sinks, x, NextLocal(x, r).value);
    PutKeeps(c, s, o, NextLocal(x, r).value);
  }

  /** The check always finds the sink registered. */
  lemma CheckKeeps(c: Config, s: State, o: nat)
    requires c.Valid() && Inv(c, s) && o < |s.sessions| && s.sessions[o].pc.Checking?
    requires CheckStep(s, o).Some?
    ensures Inv(c, CheckStep(s, o).value)
    ensures CheckStep(s, o).value.sessions[o].pc.Getting?
  {
    hide UartOk, FanOk, OwnersOk, SessionsOk, ThreadsOk, FdsOk, DropsOk, CountsOk;
    var x := s.sessions[o];
    OneSession(c, s, o);
    SessionMoves(s.ingest, s.sinks, x, x.(pc := Getting));
    PutKeeps(c, s, o, x.(pc := Getting));
  }

  // ---------------------------------------------------------------- the table changed in one slot

  lemma TableAfterChange(c: Config, pc: FanPc, ingest: Queue, sinks: seq<Slot>, i: nat, x: Slot)
    requires forall j :: 0 <= j < |sinks| ==> SlotOk(c, pc, ingest, sinks[j], j)
    requires i < |sinks| && SlotOk(c, pc, ingest, x, i)
    ensures var t := sinks[i := x]; forall j :: 0 <= j < |t| ==> SlotOk(c, pc, ingest, t[j], j)
  {
    var t := sinks[i := x];
    forall j | 0 <= j < |t| ensures SlotOk(c, pc, ingest, t[j], j) {
      if j != i {
        assert SlotOk(c, pc, ingest, sinks[j], j);
      }
    }
  }

  lemma HeldSlotKeepsFan(c: Config, f: Fan, ingest: Queue, sinks: seq<Slot>, i: nat, slot': Slot)
    requires FanOk(c, f, ingest, sinks) && DropsOk(f, sinks) && i < |sinks|
    requires slot'.active == sinks[i].active && Drops(slot') == Drops(sinks[i])
    requires SlotOk(c, f.pc, ingest, slot', i)
    ensures FanOk(c, f, ingest, sinks[i := slot'])
    ensures DropsOk(f, sinks[i := slot'])
  {
    hide SlotOk;
    TableAfterChange(c, f.pc, ingest, sinks, i, slot');
    assert forall j :: 0 <= j < |sinks| ==> sinks[i := slot'][j].active == sinks[j].active;
    SumAfterUpdate(sinks, i, slot');
  }

  /** The counters agree when the session counts the same before and after. */
  lemma SameTallies(c: Config, s: State, o: nat, x': Session, s': State)
    requires CountsOk(c, s) && o < |s.sessions| && s'.sessions == s.sessions[o := x']
    requires s'.ledSessions - s.ledSessions == One(InLed, x'.pc) - One(InLed, s.sessions[o].pc)
    requires s'.activeSessions - s.activeSessions ==
      One(InActive, x'.pc) - One(InActive, s.sessions[o].pc)
    requires CountActive(s'.sinks) - CountActive(s.sinks) ==
      One(InSink, x'.pc) - One(InSink, s.sessions[o].pc)
    ensures CountsOk(c, s')
  {
    PutCounts(s.sessions, o, x');
  }

  /** A held slot changes only in what its own session sees of it. */
  lemma HeldSlotKeeps(c: Config, s: State, o: nat, slot': Slot, x': Session)
    requires c.Valid() && Inv(c, s) && o < |s.sessions| && HoldsSink(s.sessions[o].pc)
    requires SameOutside(s.sessions[o], x')
    requires 0 <= x'.sinkId < |s.sinks|
    requires var slot := s.sinks[x'.sinkId];
      && slot'.active == slot.active && slot'.owner == slot.owner && slot'.openedAt == slot.openedAt
      && Drops(slot') == Drops(slot)
    requires SlotOk(c, s.fan.pc, s.ingest, slot', x'.sinkId)
    requires Writes(x') && TookInOrder(s.ingest, x') && Linked(slot', x')
    ensures Inv(c, Put(s, o, x').(sinks := s.sinks[x'.sinkId := slot']))
  {
    hide UartOk, FanOk, OwnersOk, SessionsOk, ThreadsOk, FdsOk, DropsOk, CountsOk;
    hide Writes, TookInOrder, Linked, SlotOk;
    var i, x := x'.sinkId, s.sessions[o];
    var s' := Put(s, o, x').(sinks := s.sinks[i := slot']);
    HeldSlotKeepsFan(c, s.fan, s.ingest, s.sinks, i, slot');
    ActiveAfterUpdate(s.sinks, i, slot');
    SameTallies(c, s, o, x', s');
    PutKeepsThreads(c, s, o, x');
    ThreadsIgnoreSinks(c, Put(s, o, x'), s');
    PutKeepsFds(c, s, o, x');
    SameFds(c, Put(s, o, x'), s');
    HeldSlotKeepsOwners(s.sinks, s.sessions, o, slot', x');
    HeldSlotKeepsSessions(s.ingest, s.sinks, s.sessions, o, slot', x');
  }

  lemma HeldSlotKeepsOwners(sinks: seq<Slot>, ss: seq<Session>, o: nat, slot': Slot, x': Session)
    requires OwnersOk(sinks, ss) && o < |ss| && HoldsSink(ss[o].pc) && SameOutside(ss[o], x')
    requires 0 <= x'.sinkId < |sinks|
    requires slot'.active == sinks[x'.sinkId].active && slot'.owner == sinks[x'.sinkId].owner
    requires slot'.openedAt == sinks[x'.sinkId].openedAt
    ensures OwnersOk(sinks[x'.sinkId := slot'], ss[o := x'])
  {
    var t, ss' := sinks[x'.sinkId := slot'], ss[o := x'];
    PutKeepsOwners(sinks, ss, o, x');
    forall p | 0 <= p < |ss'| && HoldsSink(ss'[p].pc) ensures Owns(t, ss'[p], p) {
      assert Owns(sinks, ss'[p], p);
    }
    forall i | 0 <= i < |t| && t[i].active ensures OwnedBack(t, ss', i) {
      assert OwnedBack(sinks, ss', i);
    }
  }

  lemma HeldSlotKeepsSessions(
      ingest: Queue, sinks: seq<Slot>, ss: seq<Session>, o: nat, slot': Slot, x': Session)
    requires OwnersOk(sinks, ss) && SessionsOk(ingest, sinks, ss) && o < |ss|
    requires HoldsSink(ss[o].pc) && SameOutside(ss[o], x') && 0 <= x'.sinkId < |sinks|
    requires Writes(x') && TookInOrder(ingest, x') && Linked(slot', x')
    ensures SessionsOk(ingest, sinks[x'.sinkId := slot'], ss[o := x'])
  {
    var t, ss' := sinks[x'.sinkId := slot'], ss[o := x'];
    assert Owns(sinks, ss[o], o);
    forall p | 0 <= p < |ss'| ensures SessionOk(ingest, t, ss'[p]) {
      if p != o {
        assert SessionOk(ingest, sinks, ss[p]);
        if HoldsSink(ss[p].pc) {
          assert Owns(sinks, ss[p], p);
        }
      }
    }
  }

  lemma TimeoutKeeps(c: Config, s: State, o: nat)
    requires c.Valid() && Inv(c, s) && o < |s.sessions| && s.sessions[o].pc.Getting?
    ensures Inv(c, Put(s, o, s.sessions[o].(pc := Draining(false))))
  {
    hide UartOk, FanOk, OwnersOk, SessionsOk, ThreadsOk, FdsOk, DropsOk, CountsOk, Owns;
    var x := s.sessions[o];
    OneSession(c, s, o);
    SessionMoves(s.ingest, s.sinks, x, x.(pc := Draining(false)));
    PutKeeps(c, s, o, x.(pc := Draining(false)));
  }

  /** A take may fall anywhere in the dispatcher's round, even inside its put at the same slot; it
      records the next position of the dispatch order. */
  lemma GetKeeps(c: Config, s: State, o: nat)
    requires c.Valid() && Inv(c, s) && o < |s.sessions| && s.sessions[o].pc.Getting?
    requires GetStep(s, o).Some?
    ensures Inv(c, GetStep(s, o).value)
  {
    hide UartOk, FanOk, OwnersOk, SessionsOk, ThreadsOk, FdsOk, DropsOk, CountsOk;
    hide TookInOrder, Linked, SlotOk, Writes, DropOldest.Partitioned;
    var x := s.sessions[o];
    OneSession(c, s, o);
    OneSlot(c, s, x.sinkId);
    var slot := s.sinks[x.sinkId];
    if slot.chan.queue == [] {
      TimeoutKeeps(c, s, o);
    } else {
      TakenSlot(c, s.fan.pc, s.ingest, slot, x.sinkId);
      TakenSession(c, s.ingest, slot, x);
      HeldSlotKeeps(c, s, o, slot.(chan := DropOldest.Take(slot.chan)),
                    Got(x, slot.chan.queue[0], slot.openedAt + |slot.chan.fate|));
    }
  }

  lemma TakenSlot(c: Config, pc: FanPc, ingest: Queue, slot: Slot, i: nat)
    requires SlotOk(c, pc, ingest, slot, i) && slot.active && slot.chan.queue != []
    ensures SlotOk(c, pc, ingest, slot.(chan := DropOldest.Take(slot.chan)), i)
    ensures slot.chan.queue[0] == Dispatched(ingest, slot.openedAt + |slot.chan.fate|)
    ensures slot.openedAt + |slot.chan.fate| < |ingest.taken| && DropOldest.Partitioned(slot.chan)
  {
    DropOldest.TakeKeeps(slot.chan, c.sinkDepth);
    assert slot.chan.queue[0] == slot.chan.offered[|slot.chan.fate|];
  }

  lemma TakenOrder(ingest: Queue, slot: Slot, x: Session)
    requires TookInOrder(ingest, x) && Linked(slot, x)
    requires slot.openedAt == x.since && slot.chan.queue != [] && DropOldest.Partitioned(slot.chan)
    requires slot.chan.queue[0] == Dispatched(ingest, slot.openedAt + |slot.chan.fate|)
    requires slot.openedAt + |slot.chan.fate| < |ingest.taken|
    ensures TookInOrder(ingest, Got(x, slot.chan.queue[0], slot.openedAt + |slot.chan.fate|))
  {
    hide Dispatched;
    assert forall k :: 0 <= k < |x.took| ==> x.took[k] < slot.openedAt + |slot.chan.fate|;
  }

  lemma TakenLink(slot: Slot, x: Session)
    requires Linked(slot, x) && slot.chan.queue != [] && !x.pc.Noting?
    ensures Linked(slot.(chan := DropOldest.Take(slot.chan)),
                   Got(x, slot.chan.queue[0], slot.openedAt + |slot.chan.fate|))
  {
  }

  lemma TakenSession(c: Config, ingest: Queue, slot: Slot, x: Session)
    requires x.pc.Getting? && Writes(x) && TookInOrder(ingest, x) && Linked(slot, x)
    requires slot.openedAt == x.since && slot.chan.queue != [] && DropOldest.Partitioned(slot.chan)
    requires slot.chan.queue[0] == Dispatched(ingest, slot.openedAt + |slot.chan.fate|)
    requires slot.openedAt + |slot.chan.fate| < |ingest.taken|
    ensures var x' := Got(x, slot.chan.queue[0], slot.openedAt + |slot.chan.fate|);
      Writes(x') && TookInOrder(ingest, x') && Linked(slot.(chan := DropOldest.Take(slot.chan)), x')
  {
    TakenOrder(ingest, slot, x);
    TakenLink(slot, x);
  }

  lemma NoteKeeps(c: Config, s: State, o: nat)
    requires c.Valid() && Inv(c, s) && o < |s.sessions| && s.sessions[o].pc.Noting?
    requires NoteStep(s, o, s.sessions[o].pc.frame).Some?
    ensures Inv(c, NoteStep(s, o, s.sessions[o].pc.frame).value)
  {
    hide UartOk, FanOk, OwnersOk, SessionsOk, ThreadsOk, FdsOk, DropsOk, CountsOk;
    hide Count, CountActive, SumDrops, Concat, Dispatched, DropOldest.Inv;
    var x := s.sessions[o];
    OneSession(c, s, o);
    OneSlot(c, s, x.sinkId);
    var slot := s.sinks[x.sinkId];
    CountOn(|x.took| - 1, 1);
    HeldSlotKeeps(c, s, o, slot.(consumed := Wrap32(slot.consumed + 1)), x.(pc := Sending(x.pc.frame, 0)));
  }

  // ---------------------------------------------------------------- open and close

  lemma OpenKeepsFan(c: Config, s: State, o: nat)
    requires c.Valid() && FanOk(c, s.fan, s.ingest, s.sinks) && !Locked(s.fan)
    requires FirstFree(s.sinks, 0) < |s.sinks|
    ensures var i := FirstFree(s.sinks, 0);
      FanOk(c, s.fan.(retired := s.fan.retired + Drops(s.sinks[i])), s.ingest,
            OpenAt(s.sinks, i, o, Fanned(s)))
  {
    var i := FirstFree(s.sinks, 0);
    var x := Slot(true, DropOldest.Empty(), 0, 0, o, Fanned(s));
    assert SlotOk(c, s.fan.pc, s.ingest, x, i);
    TableAfterChange(c, s.fan.pc, s.ingest, s.sinks, i, x);
  }

  lemma OpenKeepsOwners(sinks: seq<Slot>, ss: seq<Session>, o: nat, i: nat, now: nat, x': Session)
    requires OwnersOk(sinks, ss) && o < |ss| && !HoldsSink(ss[o].pc)
    requires i < |sinks| && !sinks[i].active
    requires x'.sinkId == i && x'.since == now && HoldsSink(x'.pc)
    ensures OwnersOk(OpenAt(sinks, i, o, now), ss[o := x'])
  {
    var t, ss' := OpenAt(sinks, i, o, now), ss[o := x'];
    forall p | 0 <= p < |ss'| && HoldsSink(ss'[p].pc) ensures Owns(t, ss'[p], p) {
      if p != o {
        assert Owns(sinks, ss[p], p);
      }
    }
    forall j | 0 <= j < |t| && t[j].active ensures OwnedBack(t, ss', j) {
      if j != i {
        assert OwnedBack(sinks, ss, j);
      }
    }
  }

  lemma OpenKeepsSessions(
      ingest: Queue, sinks: seq<Slot>, ss: seq<Session>, o: nat, i: nat, now: nat, x': Session)
    requires OwnersOk(sinks, ss) && SessionsOk(ingest, sinks, ss) && o < |ss|
    requires i < |sinks| && !sinks[i].active && x'.sinkId == i && x'.took == [] && x'.frames == []
    requires Writes(x') && !x'.pc.Noting?
    ensures SessionsOk(ingest, OpenAt(sinks, i, o, now), ss[o := x'])
  {
    hide Writes;
    var t, ss' := OpenAt(sinks, i, o, now), ss[o := x'];
    forall p | 0 <= p < |ss'| ensures SessionOk(ingest, t, ss'[p]) {
      if p != o {
        assert SessionOk(ingest, sinks, ss[p]);
        if HoldsSink(ss[p].pc) {
          assert Owns(sinks, ss[p], p);
        }
      }
    }
  }

  lemma FreeSink(c: Config, s: State, o: nat)
    requires c.Valid() && Inv(c, s) && o < |s.sessions| && s.sessions[o].pc.Opening?
    ensures FirstFree(s.sinks, 0) < |s.sinks|
  {
    hide UartOk, OwnersOk, SessionsOk, FdsOk, DropsOk, CountsOk, ThreadsOk;
    SinkIsFree(c, s, o);
  }

  lemma OpenKeepsDrops(f: Fan, sinks: seq<Slot>, o: nat, i: nat, now: nat)
    requires DropsOk(f, sinks) && i < |sinks| && !Locked(f)
    ensures DropsOk(f.(retired := f.retired + Drops(sinks[i])), OpenAt(sinks, i, o, now))
  {
    SumAfterUpdate(sinks, i, OpenAt(sinks, i, o, now)[i]);
  }

  lemma OpenKeeps(c: Config, s: State, o: nat)
    requires c.Valid() && Inv(c, s) && o < |s.sessions| && s.sessions[o].pc.Opening?
    requires OpenStep(s, o).Some?
    ensures Inv(c, OpenStep(s, o).value)
    ensures OpenStep(s, o).value.sessions[o].pc.Counting?
  {
    hide UartOk, FanOk, OwnersOk, SessionsOk, ThreadsOk, FdsOk, DropsOk, CountsOk;
    hide Count, CountActive, SumDrops, Concat, HeldBy, Dispatched;
    hide TookInOrder, Linked, SlotOk;
    FreeSink(c, s, o);
    OneSession(c, s, o);
    var i, x := FirstFree(s.sinks, 0), s.sessions[o];
    var x' := x.(pc := Counting, sinkId := i, since := Fanned(s));
    var s' := OpenStep(s, o).value;
    OpenKeepsFan(c, s, o);
    OpenKeepsDrops(s.fan, s.sinks, o, i, Fanned(s));
    OpenKeepsOwners(s.sinks, s.sessions, o, i, Fanned(s), x');
    OpenKeepsSessions(s.ingest, s.sinks, s.sessions, o, i, Fanned(s), x');
    ActiveAfterUpdate(s.sinks, i, s'.sinks[i]);
    SameTallies(c, s, o, x', s');
    PutKeepsThreads(c, s, o, x');
    ThreadsIgnoreSinks(c, Put(s, o, x'), s');
    PutKeepsFds(c, s, o, x');
    SameFds(c, Put(s, o, x'), s');
  }

  lemma CloseKeepsFan(c: Config, s: State, i: nat)
    requires c.Valid() && FanOk(c, s.fan, s.ingest, s.sinks) && !Locked(s.fan) && i < |s.sinks|
    ensures FanOk(c, s.fan, s.ingest, CloseAt(s.sinks, i))
  {
    assert SlotOk(c, s.fan.pc, s.ingest, s.sinks[i], i);
    var x := CloseAt(s.sinks, i)[i];
    assert SlotOk(c, s.fan.pc, s.ingest, x, i);
    TableAfterChange(c, s.fan.pc, s.ingest, s.sinks, i, x);
  }

  lemma CloseKeepsOwners(sinks: seq<Slot>, ss: seq<Session>, o: nat, x': Session)
    requires OwnersOk(sinks, ss) && o < |ss| && HoldsSink(ss[o].pc)
    requires 0 <= ss[o].sinkId < |sinks| && !HoldsSink(x'.pc)
    ensures OwnersOk(CloseAt(sinks, ss[o].sinkId), ss[o := x'])
  {
    var t, ss' := CloseAt(sinks, ss[o].sinkId), ss[o := x'];
    assert Owns(sinks, ss[o], o);
    forall p | 0 <= p < |ss'| && HoldsSink(ss'[p].pc) ensures Owns(t, ss'[p], p) {
      assert Owns(sinks, ss[p], p);
    }
    forall j | 0 <= j < |t| && t[j].active ensures OwnedBack(t, ss', j) {
      assert OwnedBack(sinks, ss, j);
    }
  }

  lemma CloseKeepsSessions(ingest: Queue, sinks: seq<Slot>, ss: seq<Session>, o: nat, x': Session)
    requires OwnersOk(sinks, ss) && SessionsOk(ingest, sinks, ss) && o < |ss| && HoldsSink(ss[o].pc)
    requires 0 <= ss[o].sinkId < |sinks| && !HoldsSink(x'.pc)
    requires Writes(x') && TookInOrder(ingest, x')
    ensures SessionsOk(ingest, CloseAt(sinks, ss[o].sinkId), ss[o := x'])
  {
    var t, ss' := CloseAt(sinks, ss[o].sinkId), ss[o := x'];
    assert Owns(sinks, ss[o], o);
    forall p | 0 <= p < |ss'| ensures SessionOk(ingest, t, ss'[p]) {
      if p != o {
        assert SessionOk(ingest, sinks, ss[p]);
        if HoldsSink(ss[p].pc) {
          assert Owns(sinks, ss[p], p);
        }
      }
    }
  }

  lemma CloseKeepsDrops(f: Fan, sinks: seq<Slot>, i: nat)
    requires DropsOk(f, sinks) && i < |sinks| && !Locked(f)
    ensures DropsOk(f, CloseAt(sinks, i))
  {
    SumAfterUpdate(sinks, i, CloseAt(sinks, i)[i]);
  }

  lemma CloseKeeps(c: Config, s: State, o: nat)
    requires c.Valid() && Inv(c, s) && o < |s.sessions| && s.sessions[o].pc.Closing?
    requires CloseStep(s, o).Some?
    ensures Inv(c, CloseStep(s, o).value)
  {
    hide UartOk, FanOk, OwnersOk, SessionsOk, ThreadsOk, FdsOk, DropsOk, CountsOk;
    hide Count, CountActive, SumDrops, Concat, HeldBy, Dispatched;
    hide Linked, SlotOk;
    OneSession(c, s, o);
    var x := s.sessions[o];
    var x' := x.(pc := Hanging, sinkId := -1);
    var s' := CloseStep(s, o).value;
    CloseKeepsFan(c, s, x.sinkId);
    CloseKeepsDrops(s.fan, s.sinks, x.sinkId);
    CloseKeepsOwners(s.sinks, s.sessions, o, x');
    CloseKeepsSessions(s.ingest, s.sinks, s.sessions, o, x');
    ActiveAfterUpdate(s.sinks, x.sinkId, s'.sinks[x.sinkId]);
    SameTallies(c, s, o, x', s');
    PutKeepsThreads(c, s, o, x');
    ThreadsIgnoreSinks(c, Put(s, o, x'), s');
    PutKeepsFds(c, s, o, x');
    SameFds(c, Put(s, o, x'), s');
  }

  // ---------------------------------------------------------------- counters, socket, leaving

  lemma SessionTotal(c: Config, s: State)
    requires c.Valid() && ThreadsOk(c, s)
    ensures |s.sessions| <= 9
  {
  }

  /** Counting one more or less stays in range, because the counters count threads: the LED's 16 bits
      suffice, and its guard against going below zero is never needed. */
  lemma TallyCounts(c: Config, s: State, o: nat)
    requires CountsOk(c, s) && o < |s.sessions| <= 9 && TallyStep(s, o).Some?
    ensures CountsOk(c, TallyStep(s, o).value)
    ensures s.sessions[o].pc.Ending? ==> s.ledSessions > 0
  {
    hide Count;
    var x, s' := s.sessions[o], TallyStep(s, o).value;
    PutCounts(s.sessions, o, s'.sessions[o]);
    CountChain(s.sessions);
    CountChain(s'.sessions);
  }

  lemma TallyShape(s: State, o: nat)
    requires o < |s.sessions| && TallyStep(s, o).Some? && Writes(s.sessions[o])
    ensures var x, s' := s.sessions[o], TallyStep(s, o).value;
      var x' := s'.sessions[o];
      && !x.pc.Noting? && HoldsSink(x.pc) && HoldsSink(x'.pc) && x' == x.(pc := x'.pc) && Writes(x')
      && !x'.pc.Noting? && s' == Put(s, o, x').(activeSessions := s'.activeSessions, ledSessions := s'.ledSessions)
  {
  }

  lemma TallyKeeps(c: Config, s: State, o: nat)
    requires c.Valid() && Inv(c, s) && o < |s.sessions| && TallyStep(s, o).Some?
    ensures Inv(c, TallyStep(s, o).value)
    ensures s.sessions[o].pc.Ending? ==> s.ledSessions > 0
  {
    hide UartOk, FanOk, OwnersOk, SessionsOk, ThreadsOk, FdsOk, DropsOk, CountsOk;
    hide TookInOrder, Linked, SlotOk, Owns, TallyStep, Writes;
    OneSession(c, s, o);
    TallyShape(s, o);
    var x, s' := s.sessions[o], TallyStep(s, o).value;
    var x' := s'.sessions[o];
    SessionMoves(s.ingest, s.sinks, x, x');
    PutKeepsOwners(s.sinks, s.sessions, o, x');
    PutKeepsSessions(s.ingest, s.sinks, s.sessions, o, x');
    PutKeepsThreads(c, s, o, x');
    ThreadsIgnoreSinks(c, Put(s, o, x'), s');
    PutKeepsFds(c, s, o, x');
    SameFds(c, Put(s, o, x'), s');
    SessionTotal(c, s);
    TallyCounts(c, s, o);
  }

  lemma CloseHeld(c: Config, s: State, s': State, h: nat, fd: int)
    requires FdsOk(c, s) && HeldBy(c, s, h) == Some(fd)
    requires s'.fds == CloseFd(s.fds, fd)
    requires forall p: nat :: HeldBy(c, s', p) == if p == h then None else HeldBy(c, s, p)
    ensures FdsOk(c, s')
  {
    assert Keeps(s.fds, fd, h);
    assert s'.fds.open.Keys == s.fds.open.Keys - {fd};
    assert |s'.fds.open.Keys| == |s.fds.open.Keys| - 1;
    forall p: nat | HeldBy(c, s', p).Some? ensures Keeps(s'.fds, HeldBy(c, s', p).value, p) {
      assert HeldBy(c, s', p) == HeldBy(c, s, p);
      assert Keeps(s.fds, HeldBy(c, s, p).value, p);
    }
  }

  lemma ThreadPlaces(c: Config, s: State)
    requires ThreadsOk(c, s)
    ensures |s.sessions| == c.maxClients + 1 && |s.clients| == c.maxClients
  {
  }

  lemma HangKeeps(c: Config, s: State, o: nat)
    requires c.Valid() && Inv(c, s) && o < |s.sessions|
    requires s.sessions[o].pc.Hanging? || s.sessions[o].pc.Rejecting?
    ensures Inv(c, HangStep(s, o).value)
  {
    hide UartOk, FanOk, OwnersOk, SessionsOk, ThreadsOk, FdsOk, DropsOk, CountsOk;
    hide Count, CountActive, SumDrops, Concat, Dispatched;
    hide TookInOrder, Linked, SlotOk, Owns;
    OneSession(c, s, o);
    var x := s.sessions[o];
    var x', s' := x.(pc := Finished), HangStep(s, o).value;
    SessionMoves(s.ingest, s.sinks, x, x');
    PutKeepsOwners(s.sinks, s.sessions, o, x');
    PutKeepsSessions(s.ingest, s.sinks, s.sessions, o, x');
    PutKeepsThreads(c, s, o, x');
    ThreadsIgnoreSinks(c, Put(s, o, x'), s');
    SameTallies(c, s, o, x', s');
    ThreadPlaces(c, s);
    CloseHeld(c, s, s', o, x.fd);
  }

  lemma LeaveKeepsThreads(c: Config, s: State, o: nat)
    requires ThreadsOk(c, s) && o < |s.sessions| && LeaveStep(s, o).Some?
    ensures ThreadsOk(c, LeaveStep(s, o).value)
  {
    var s' := LeaveStep(s, o).value;
    if o < c.maxClients {
      assert ClientSlotOk(s.clients[o], s.sessions[o], AcceptorHas(s.acceptor, o));
    }
    forall k | 0 <= k < c.maxClients
      ensures ClientSlotOk(s'.clients[k], s'.sessions[k], AcceptorHas(s'.acceptor, k))
    {
      assert ClientSlotOk(s.clients[k], s.sessions[k], AcceptorHas(s.acceptor, k));
    }
  }

  /** close_client never closes: its fd is already -1 there. */
  lemma LeaveClosesNothing(c: Config, s: State, o: nat)
    requires ThreadsOk(c, s) && o < |s.sessions| && LeaveStep(s, o).Some?
    ensures LeaveStep(s, o).value.fds == s.fds
  {
    if o < c.maxClients {
      assert ClientSlotOk(s.clients[o], s.sessions[o], AcceptorHas(s.acceptor, o));
    }
  }

  lemma LeaveKeepsPlaces(c: Config, s: State, o: nat)
    requires ThreadsOk(c, s) && o < |s.sessions| && LeaveStep(s, o).Some?
    ensures forall h: nat :: HeldBy(c, LeaveStep(s, o).value, h) == HeldBy(c, s, h)
  {
  }

  lemma LeaveShape(s: State, o: nat)
    requires o < |s.sessions| && LeaveStep(s, o).Some?
    ensures var x, s' := s.sessions[o], LeaveStep(s, o).value;
      var x' := s'.sessions[o];
      && x.pc in {Finished, Cleared, Released} && x'.pc in {Cleared, Released, Absent}
      && x' == x.(pc := x'.pc) && s'.sessions == s.sessions[o := x']
      && s'.uart == s.uart && s'.ingest == s.ingest && s'.fan == s.fan && s'.sinks == s.sinks
      && s'.activeSessions == s.activeSessions && s'.ledSessions == s.ledSessions
  {
  }

  lemma LeaveKeeps(c: Config, s: State, o: nat)
    requires c.Valid() && Inv(c, s) && o < |s.sessions| && LeaveStep(s, o).Some?
    ensures Inv(c, LeaveStep(s, o).value)
  {
    hide UartOk, FanOk, OwnersOk, SessionsOk, ThreadsOk, FdsOk, DropsOk, CountsOk;
    hide Count, CountActive, SumDrops, Concat, HeldBy, Dispatched;
    hide TookInOrder, Linked, SlotOk, Owns, LeaveStep;
    OneSession(c, s, o);
    LeaveShape(s, o);
    var x, s' := s.sessions[o], LeaveStep(s, o).value;
    var x' := s'.sessions[o];
    SessionMoves(s.ingest, s.sinks, x, x');
    LeaveKeepsThreads(c, s, o);
    LeaveClosesNothing(c, s, o);
    PutKeepsOwners(s.sinks, s.sessions, o, x');
    PutKeepsSessions(s.ingest, s.sinks, s.sessions, o, x');
    SameTallies(c, s, o, x', s');
    LeaveKeepsPlaces(c, s, o);
    SameHolders(c, s, s');
  }

  lemma SessionKeeps(c: Config, s: State, o: nat, r: Oracle)
    requires c.Valid() && Inv(c, s) && o < |s.sessions| && NextSession(s, o, r).Some?
    ensures Inv(c, NextSession(s, o, r).value)
  {
    hide Inv, OpenStep, CheckStep, GetStep, NoteStep, CloseStep, TallyStep, HangStep, LeaveStep, NextLocal;
    match s.sessions[o].pc
    case Opening => OpenKeeps(c, s, o);
    case Checking => CheckKeeps(c, s, o);
    case Getting => GetKeeps(c, s, o);
    case Noting(_) => NoteKeeps(c, s, o);
    case Closing => CloseKeeps(c, s, o);
    case Counting => TallyKeeps(c, s, o);
    case Announcing => TallyKeeps(c, s, o);
    case Ending => TallyKeeps(c, s, o);
    case Discounting => TallyKeeps(c, s, o);
    case Rejecting => HangKeeps(c, s, o);
    case Hanging => HangKeeps(c, s, o);
    case Finished => LeaveKeeps(c, s, o);
    case Cleared => LeaveKeeps(c, s, o);
    case Released => LeaveKeeps(c, s, o);
    case _ => LocalKeeps(c, s, o, r);
  }
}
