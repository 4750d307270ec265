/** Every step of the dispatcher keeps the invariant. */
module FanSteps {
  import opened Base
  import DropOldest
  import opened Sinks
  import opened SessionSteps
  import opened System
  import opened Invariant
  import opened UartSteps

  ghost predicate CanFan(c: Config, s: State) {
    c.Valid() && FanOk(c, s.fan, s.ingest, s.sinks) && NextFan(c, s.fan, s.ingest, s.sinks).Some?
  }

  ghost predicate FanOkAfter(c: Config, s: State) {
    NextFan(c, s.fan, s.ingest, s.sinks).Some? ==>
      var (f, q, sinks) := NextFan(c, s.fan, s.ingest, s.sinks).value; FanOk(c, f, q, sinks)
  }

  /** The frame taken from the ingest queue is the next one of the dispatch order. */
  lemma TakeKeepsFan(c: Config, s: State)
    requires CanFan(c, s) && s.fan.pc.Waiting?
    ensures FanOkAfter(c, s)
  {
    var q := DropOldest.Take(s.ingest);
    DropOldest.TakeKeeps(s.ingest, c.ingestDepth);
    GrowsKeepsDispatched(s.ingest, q, c.ingestDepth);
    forall i | 0 <= i < |s.sinks|
      ensures SlotOk(c, Holding(s.ingest.queue[0]), q, s.sinks[i], i)
    {
      assert SlotOk(c, s.fan.pc, s.ingest, s.sinks[i], i);
    }
  }

  /** Locking, skipping an inactive slot, unlocking. */
  lemma ScanKeepsFan(c: Config, s: State)
    requires CanFan(c, s)
    requires s.fan.pc.Holding? ||
      (s.fan.pc.Scanning? && (s.fan.pc.i >= |s.sinks| || !s.sinks[s.fan.pc.i].active))
    ensures FanOkAfter(c, s)
  {
    hide DropOldest.Inv, Carries, Dispatched;
    var (f, q, sinks) := NextFan(c, s.fan, s.ingest, s.sinks).value;
    forall i | 0 <= i < |sinks| ensures SlotOk(c, f.pc, q, sinks[i], i) {
      assert SlotOk(c, s.fan.pc, s.ingest, s.sinks[i], i);
    }
    if f.pc.Waiting? && s.fan.pc.Scanning? {
      CountOn(s.fan.idleRounds, 1);
    }
  }

  /** A slot stays right when its channel makes one of the producer's steps. */
  lemma OfferedSlot(c: Config, pc: FanPc, pc': FanPc, ingest: Queue, slot: Slot, i: nat)
    requires SlotOk(c, pc, ingest, slot, i) && slot.active && HandOk(Fan(pc, 0, 0, 0, 0), ingest)
    requires pc.Scanning? && pc.i == i
    requires var q := DropOldest.FirstPut(slot.chan, c.sinkDepth, pc.frame);
      if q.phase.Idle? then pc'.Accounting? && pc'.i == i else pc'.Offering? && pc'.i == i
    ensures SlotOk(c, pc', ingest, slot.(chan := DropOldest.FirstPut(slot.chan, c.sinkDepth, pc.frame)), i)
  {
    hide DropOldest.Inv;
    var q := DropOldest.FirstPut(slot.chan, c.sinkDepth, pc.frame);
    var slot' := slot.(chan := q);
    DropOldest.FirstPutKeeps(slot.chan, c.sinkDepth, pc.frame);
    assert Carries(slot', ingest) by {
      forall k | 0 <= k < |q.offered| ensures q.offered[k] == Dispatched(ingest, slot.openedAt + k) {
        if k < |slot.chan.offered| {
          assert q.offered[k] == slot.chan.offered[k];
        }
      }
    }
  }

  lemma ReplacedSlot(c: Config, pc: FanPc, pc': FanPc, ingest: Queue, sinks: seq<Slot>, i: nat, x: Slot)
    requires forall j :: 0 <= j < |sinks| ==> SlotOk(c, pc, ingest, sinks[j], j)
    requires pc.Scanning? || pc.Offering? || pc.Accounting?
    requires pc'.Scanning? || pc'.Offering? || pc'.Accounting?
    requires pc.i == i < |sinks| && pc'.i == if pc'.Scanning? then i + 1 else i
    requires SlotOk(c, pc', ingest, x, i)
    ensures var t := sinks[i := x]; forall j :: 0 <= j < |t| ==> SlotOk(c, pc', ingest, t[j], j)
  {
    var t := sinks[i := x];
    forall j | 0 <= j < |t| ensures SlotOk(c, pc', ingest, t[j], j) {
      if j != i {
        assert SlotOk(c, pc, ingest, sinks[j], j);
      }
    }
  }

  /** The first put at an active slot. */
  lemma OfferKeepsFan(c: Config, s: State)
    requires CanFan(c, s) && s.fan.pc.Scanning?
    requires s.fan.pc.i < |s.sinks| && s.sinks[s.fan.pc.i].active
    ensures FanOkAfter(c, s)
  {
    var i := s.fan.pc.i;
    var (f, q, sinks) := NextFan(c, s.fan, s.ingest, s.sinks).value;
    OfferedSlot(c, s.fan.pc, f.pc, s.ingest, s.sinks[i], i);
    ReplacedSlot(c, s.fan.pc, f.pc, s.ingest, s.sinks, i, sinks[i]);
  }

  /** The producer's later steps inside the slot's channel. */
  lemma RoomSlot(c: Config, pc: FanPc, pc': FanPc, ingest: Queue, slot: Slot, i: nat)
    requires c.Valid() && SlotOk(c, pc, ingest, slot, i) && slot.active && pc.Offering? && pc.i == i
    requires pc' == if slot.chan.phase.Full? then pc else Accounting(pc.frame, i, pc.before, pc.allBefore)
    ensures SlotOk(c, pc', ingest, slot.(chan :=
      if slot.chan.phase.Full? then DropOldest.DropGet(slot.chan)
      else DropOldest.SecondPut(slot.chan, c.sinkDepth)), i)
  {
    if slot.chan.phase.Full? {
      DropOldest.DropGetKeeps(slot.chan, c.sinkDepth);
    } else {
      DropOldest.SecondPutKeeps(slot.chan, c.sinkDepth);
    }
  }

  /** The get and the second put at that slot. */
  lemma RoomKeepsFan(c: Config, s: State)
    requires CanFan(c, s) && s.fan.pc.Offering?
    ensures FanOkAfter(c, s)
  {
    var i := s.fan.pc.i;
    var (f, q, sinks) := NextFan(c, s.fan, s.ingest, s.sinks).value;
    RoomSlot(c, s.fan.pc, f.pc, s.ingest, s.sinks[i], i);
    ReplacedSlot(c, s.fan.pc, f.pc, s.ingest, s.sinks, i, sinks[i]);
  }

  /** The stats of that slot, and on to the next. */
  lemma AccountKeepsFan(c: Config, s: State)
    requires CanFan(c, s) && s.fan.pc.Accounting?
    ensures FanOkAfter(c, s)
  {
    hide DropOldest.Inv, Dispatched;
    var i := s.fan.pc.i;
    var (f, q, sinks) := NextFan(c, s.fan, s.ingest, s.sinks).value;
    assert SlotOk(c, s.fan.pc, s.ingest, s.sinks[i], i);
    CountOn(|s.sinks[i].chan.offered| - 1, 1);
    assert SlotOk(c, f.pc, q, sinks[i], i);
    ReplacedSlot(c, s.fan.pc, f.pc, s.ingest, s.sinks, i, sinks[i]);
    assert sinks[i].active;
  }

  lemma FanKeepsFan(c: Config, s: State)
    requires CanFan(c, s)
    ensures FanOkAfter(c, s)
  {
    match s.fan.pc
    case Waiting => TakeKeepsFan(c, s);
    case Holding(_) => ScanKeepsFan(c, s);
    case Scanning(_, i, _) =>
      if i < |s.sinks| && s.sinks[i].active { OfferKeepsFan(c, s); } else { ScanKeepsFan(c, s); }
    case Offering(_, _, _, _) => RoomKeepsFan(c, s);
    case Accounting(_, _, _, _) => AccountKeepsFan(c, s);
  }

  // ---------------------------------------------------------------- the other groups

  /** What owners and sessions see of the table does not change under the dispatcher. */
  ghost predicate SameToOwners(a: seq<Slot>, b: seq<Slot>) {
    |a| == |b| && forall i :: 0 <= i < |a| ==> SameSlot(a[i], b[i])
  }

  ghost predicate SameSlot(x: Slot, y: Slot) {
    && x.active == y.active && x.owner == y.owner && x.openedAt == y.openedAt
    && x.consumed == y.consumed && x.chan.taken == y.chan.taken && |x.chan.fate| <= |y.chan.fate|
  }

  lemma FanIsSameToOwners(c: Config, s: State)
    requires CanFan(c, s)
    ensures SameToOwners(s.sinks, NextFan(c, s.fan, s.ingest, s.sinks).value.2)
    ensures Grows(s.ingest, NextFan(c, s.fan, s.ingest, s.sinks).value.1)
  {
    hide FanOk;
    var (f, q, sinks) := NextFan(c, s.fan, s.ingest, s.sinks).value;
    assert |sinks| == |s.sinks|;
    if sinks != s.sinks {
      var i := s.fan.pc.i;
      assert SameSlot(s.sinks[i], sinks[i]);
      assert forall j :: 0 <= j < |sinks| && j != i ==> sinks[j] == s.sinks[j];
    }
  }

  lemma SameKeepsOwners(a: seq<Slot>, b: seq<Slot>, sessions: seq<Session>)
    requires SameToOwners(a, b) && OwnersOk(a, sessions)
    ensures OwnersOk(b, sessions)
  {
    forall o | 0 <= o < |sessions| && HoldsSink(sessions[o].pc) ensures Owns(b, sessions[o], o) {
      assert Owns(a, sessions[o], o);
      assert SameSlot(a[sessions[o].sinkId], b[sessions[o].sinkId]);
    }
    forall i | 0 <= i < |b| && b[i].active ensures OwnedBack(b, sessions, i) {
      assert SameSlot(a[i], b[i]);
      assert OwnedBack(a, sessions, i);
    }
  }

  lemma SameKeepsSessions(ingest: Queue, a: seq<Slot>, b: seq<Slot>, sessions: seq<Session>)
    requires SameToOwners(a, b) && SessionsOk(ingest, a, sessions)
    ensures SessionsOk(ingest, b, sessions)
  {
    forall o | 0 <= o < |sessions| ensures SessionOk(ingest, b, sessions[o]) {
      var x := sessions[o];
      assert SessionOk(ingest, a, x);
      if 0 <= x.sinkId < |b| {
        assert SameSlot(a[x.sinkId], b[x.sinkId]);
      }
    }
  }

  lemma {:induction false} SameCount(a: seq<Slot>, b: seq<Slot>)
    requires |a| == |b| && forall i :: 0 <= i < |a| ==> a[i].active == b[i].active
    ensures CountActive(a) == CountActive(b)
  {
    if a == [] {
    } else {
      SameCount(a[..|a| - 1], b[..|b| - 1]);
    }
  }

  /** The drops of a slot grow only inside the dispatcher's put, and the slot's counter shows them. */
  lemma OfferingGrowsDrops(c: Config, s: State)
    requires CanFan(c, s) && MidSlot(s.fan, s.sinks)
    ensures var (f, q, sinks) := NextFan(c, s.fan, s.ingest, s.sinks).value; var i := s.fan.pc.i;
      && s.sinks[i].chan.dropped == Wrap32(Drops(s.sinks[i]))
      && sinks == s.sinks[i := sinks[i]] && Drops(sinks[i]) >= Drops(s.sinks[i])
      && (s.fan.pc.Accounting? ==> Drops(sinks[i]) == Drops(s.sinks[i]))
  {
    assert SlotOk(c, s.fan.pc, s.ingest, s.sinks[s.fan.pc.i], s.fan.pc.i);
  }

  /** The global counter follows the drops of the slot the dispatcher works on. */
  lemma OfferingKeepsDrops(c: Config, s: State)
    requires CanFan(c, s) && DropsOk(s.fan, s.sinks) && MidSlot(s.fan, s.sinks)
    ensures var (f, q, sinks) := NextFan(c, s.fan, s.ingest, s.sinks).value; DropsOk(f, sinks)
  {
    hide FanOk, SumDrops, Wrap32;
    OfferingGrowsDrops(c, s);
    var i := s.fan.pc.i;
    var (f, q, sinks) := NextFan(c, s.fan, s.ingest, s.sinks).value;
    SumAfterUpdate(s.sinks, i, sinks[i]);
    if s.fan.pc.Accounting? {
      Settle(s.fan.retired + SumDrops(s.sinks), Drops(s.sinks[i]), s.fan.pc.allBefore);
    }
  }

  lemma FanKeepsDrops(c: Config, s: State)
    requires CanFan(c, s) && DropsOk(s.fan, s.sinks)
    ensures var (f, q, sinks) := NextFan(c, s.fan, s.ingest, s.sinks).value; DropsOk(f, sinks)
  {
    hide SumDrops, Wrap32, DropOldest.Contiguous, DropOldest.Partitioned, DropOldest.Recent, DropOldest.Paid, Carries;
    var (f, q, sinks) := NextFan(c, s.fan, s.ingest, s.sinks).value;
    if MidSlot(s.fan, s.sinks) {
      OfferingKeepsDrops(c, s);
    } else if sinks != s.sinks {
      var i := s.fan.pc.i;
      assert SlotOk(c, s.fan.pc, s.ingest, s.sinks[i], i);
      SumAfterUpdate(s.sinks, i, sinks[i]);
    }
  }

  /** Adding the 32-bit difference of the slot's counter settles what is due. */
  lemma Settle(total: nat, all: nat, before: nat)
    requires before <= all
    ensures Wrap32(Wrap32(total - (all - before)) + Wrap32(Wrap32(all) - Wrap32(before)))
         == Wrap32(total)
  {
    hide Wrap32;
    WrapSubtracts(all, before);
    WrapAdds(total - (all - before), Wrap32(all - before));
    WrapAdds(all - before, total - (all - before));
  }

  lemma FanKeepsUart(c: Config, s: State)
    requires UartOk(c, s.uart, s.ingest) && NextFan(c, s.fan, s.ingest, s.sinks).Some?
    ensures UartOk(c, s.uart, NextFan(c, s.fan, s.ingest, s.sinks).value.1)
  {
  }

  lemma IngestHolds(c: Config, f: Fan, ingest: Queue, sinks: seq<Slot>)
    requires FanOk(c, f, ingest, sinks)
    ensures DropOldest.Inv(ingest, c.ingestDepth)
  {
  }

  lemma FanKeeps(c: Config, s: State)
    requires c.Valid() && Inv(c, s) && Next(c, s, FanStep).Some?
    ensures Inv(c, Next(c, s, FanStep).value)
  {
    hide UartOk, FanOk, OwnersOk, SessionsOk, ThreadsOk, FdsOk, DropsOk, NextFan;
    var (f, q, sinks) := NextFan(c, s.fan, s.ingest, s.sinks).value;
    var s' := Next(c, s, FanStep).value;
    FanKeepsUart(c, s);
    FanKeepsFan(c, s);
    FanIsSameToOwners(c, s);
    SameKeepsOwners(s.sinks, sinks, s.sessions);
    IngestHolds(c, s.fan, s.ingest, s.sinks);
    GrowsKeepsSessions(s.ingest, q, c.ingestDepth, s.sinks, s.sessions);
    SameKeepsSessions(q, s.sinks, sinks, s.sessions);
    FanKeepsDrops(c, s);
    assert forall i :: 0 <= i < |sinks| ==> SameSlot(s.sinks[i], sinks[i]);
    SameCount(s.sinks, sinks);
    ThreadsIgnoreSinks(c, s, s');
    SameFds(c, s, s');
  }
}
