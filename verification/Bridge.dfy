/** src/nmea_bridge.c as it runs between interruptions: the sink table and queues updated in place.
    Each method is proved against functions the transition system uses too. */
module Bridge {
  import opened Base
  import DropOldest
  import opened Sinks

  datatype Errno = Ok | EInval | EMsgSize | ENoMem | ENotConn | EAgain

  /** What one fan-out does to a slot. */
  function Offered(slot: Slot, depth: nat, frame: Frame): Slot {
    if !slot.active || !slot.chan.phase.Idle? then slot
    else slot.(chan := DropOldest.Put(slot.chan, depth, frame), queued := Wrap32(slot.queued + 1))
  }

  function FanOut(t: seq<Slot>, depth: nat, frame: Frame): seq<Slot> {
    seq(|t|, i requires 0 <= i < |t| => Offered(t[i], depth, frame))
  }

  predicate AnyActive(t: seq<Slot>) { exists i :: 0 <= i < |t| && t[i].active }

  /** Every active sink ends up holding the newest `depth` of what it held and the frame; its count
      goes up by one, its drops by one exactly if it was full; inactive slots are left alone. */
  lemma FanOutReachesEveryActiveSink(t: seq<Slot>, depth: nat, frame: Frame, i: nat)
    requires depth >= 1 && i < |t| && t[i].chan.phase.Idle?
    requires t[i].active ==> DropOldest.Inv(t[i].chan, depth)
    ensures var a, b := t[i], FanOut(t, depth, frame)[i]; var all := a.chan.queue + [frame];
      && (!a.active ==> b == a)
      && (a.active ==>
            && DropOldest.Inv(b.chan, depth) && b.chan.phase.Idle?
            && b.chan.queue == all[if |all| <= depth then 0 else |all| - depth..]
            && b.queued == Wrap32(a.queued + 1)
            && Drops(b) == Drops(a) + if |a.chan.queue| == depth then 1 else 0)
  {
    if t[i].active {
      DropOldest.PutKeepsNewest(t[i].chan, depth, frame);
    }
  }

  /** Between calls: no put is under way at the slot. */
  ghost predicate Settled(slot: Slot, depth: nat) {
    slot.chan.phase.Idle? && (slot.active ==> DropOldest.Inv(slot.chan, depth))
  }

  /** nmea_bridge_sink_open: the result, the handle and the table. */
  function OpenHandle(t: seq<Slot>, owner: nat, now: nat): (Errno, int, seq<Slot>) {
    var i: int := FirstFree(t, 0);
    if i < |t| then (Ok, i, OpenAt(t, i, owner, now)) else (ENoMem, -1, t)
  }

  /** nmea_bridge_sink_close: the table and the handle. */
  function CloseHandle(t: seq<Slot>, id: int): (seq<Slot>, int) {
    if 0 <= id < |t| then (CloseAt(t, id), -1) else (t, id)
  }

  /** A close leaves the slot of its handle inactive and empty and every other slot as it was, and it
      takes the handle away; a handle that names no slot changes nothing. */
  lemma CloseFreesOneSlot(t: seq<Slot>, id: int)
    ensures var (t', id') := CloseHandle(t, id);
      && |t'| == |t|
      && (forall i :: 0 <= i < |t| && i != id ==> t'[i] == t[i])
      && (0 <= id < |t| ==> !t'[id].active && t'[id].chan.queue == [] && id' == -1)
      && (!(0 <= id < |t|) ==> id' == id)
  {
  }

  /** Closing a handle again changes nothing, whatever has become of the table meanwhile: even when
      another session has opened the same slot. */
  lemma CloseIsIdempotent(t: seq<Slot>, id: int, later: seq<Slot>)
    requires |later| == |t|
    ensures CloseHandle(later, CloseHandle(t, id).1) == (later, CloseHandle(t, id).1)
  {
  }

  /** The checks of nmea_bridge_sink_take. */
  function Standing(t: seq<Slot>, id: int): Errno {
    if id < 0 then ENotConn else if id >= |t| then EInval else if !t[id].active then ENotConn else Ok
  }

  /** What a successful get and its count leave of the slot. */
  function Consumed(slot: Slot): Slot
    requires slot.chan.queue != []
  {
    slot.(chan := DropOldest.Take(slot.chan), consumed := Wrap32(slot.consumed + 1))
  }

  /** nmea_bridge_sink_take without interference: the result, the frame and the table. */
  function TakeHandle(t: seq<Slot>, id: int): (Errno, Frame, seq<Slot>) {
    if Standing(t, id) != Ok then (Standing(t, id), [], t)
    else if t[id].chan.queue == [] then (EAgain, [], t)
    else (Ok, t[id].chan.queue[0], t[id := Consumed(t[id])])
  }

  /** What is taken from an open sink is the oldest frame it still holds, and it is counted. */
  lemma TakenIsOldest(t: seq<Slot>, id: int, depth: nat)
    requires 0 <= id < |t| && t[id].active && DropOldest.Inv(t[id].chan, depth)
    ensures var (rc, frame, t') := TakeHandle(t, id); var q := t[id].chan;
      && (rc == Ok <==> q.queue != [])
      && (rc == Ok ==>
            && frame == q.offered[|q.fate|] && t'[id].chan.taken == q.taken + [|q.fate|]
            && [frame] + t'[id].chan.queue == q.queue && DropOldest.Inv(t'[id].chan, depth)
            && t'[id].consumed == Wrap32(t[id].consumed + 1))
      && (rc != Ok ==> rc == EAgain && t' == t)
  {
    if t[id].chan.queue != [] {
      DropOldest.TakeKeeps(t[id].chan, depth);
    }
  }

  class NmeaBridge {
    const c: Config
    const sinks: array<Slot>
    var ingest: Queue
    var framesIn: uint32
    var sinkDropped: uint32
    var publishNoSinks: uint32
    var publishInvalid: uint32
    var publishOversize: uint32

    ghost predicate Valid()
      reads this, sinks
    {
      && c.Valid()
      && sinks.Length == c.maxSinks
      && DropOldest.Inv(ingest, c.ingestDepth) && ingest.phase.Idle?
      && (forall i :: 0 <= i < sinks.Length ==> Settled(sinks[i], c.sinkDepth))
    }

    constructor (c: Config)
      requires c.Valid()
      ensures Valid() && this.c == c && fresh(sinks)
      ensures ingest == DropOldest.Empty() && forall i :: 0 <= i < sinks.Length ==> sinks[i] == NEVER_OPENED
      ensures framesIn == sinkDropped == publishNoSinks == publishInvalid == publishOversize == 0
    {
      this.c := c;
      sinks := new Slot[c.maxSinks](_ => NEVER_OPENED);
      ingest := DropOldest.Empty();
      framesIn, sinkDropped, publishNoSinks, publishInvalid, publishOversize := 0, 0, 0, 0, 0;
    }

    /** nmea_bridge_publish_frame; None is the null pointer. */
    method Publish(data: Option<Frame>) returns (rc: Errno)
      requires Valid()
      modifies this
      ensures Valid() && sinkDropped == old(sinkDropped) && publishNoSinks == old(publishNoSinks)
      ensures rc == EInval <==> data.None? || data.value == []
      ensures rc == EMsgSize <==> data.Some? && |data.value| > c.frameMax
      ensures rc == Ok <==> data.Some? && 1 <= |data.value| <= c.frameMax
      ensures ingest == if rc == Ok then DropOldest.Put(old(ingest), c.ingestDepth, data.value)
                        else old(ingest)
      ensures ingest.offered == old(ingest.offered) + if rc == Ok then [data.value] else []
      ensures framesIn == Wrap32(old(framesIn) + if rc == Ok then 1 else 0)
      ensures publishInvalid == Wrap32(old(publishInvalid) + if rc == EInval then 1 else 0)
      ensures publishOversize == Wrap32(old(publishOversize) + if rc == EMsgSize then 1 else 0)
    {
      hide DropOldest.Inv, DropOldest.Put;
      if data.None? || data.value == [] {
        publishInvalid := Wrap32(publishInvalid + 1);
        return EInval;
      }
      if |data.value| > c.frameMax {
        publishOversize := Wrap32(publishOversize + 1);
        return EMsgSize;
      }
      framesIn := Wrap32(framesIn + 1);
      var q := DropOldest.PutDropOldest(ingest, c.ingestDepth, data.value, 0, 0);
      ingest := q;
      return Ok;
    }

    /** One turn of the dispatcher: take a frame, offer it to every active sink. */
    method Dispatch()
      requires Valid() && ingest.queue != []
      modifies this, sinks
      ensures Valid() && ingest == DropOldest.Take(old(ingest))
      ensures sinks[..] == FanOut(old(sinks[..]), c.sinkDepth, old(ingest.queue[0]))
      ensures sinkDropped == Wrap32(old(sinkDropped) + SumDrops(sinks[..]) - old(SumDrops(sinks[..])))
      ensures publishNoSinks == Wrap32(old(publishNoSinks) + if old(AnyActive(sinks[..])) then 0 else 1)
      ensures framesIn == old(framesIn)
      ensures publishInvalid == old(publishInvalid) && publishOversize == old(publishOversize)
    {
      hide FanOut, SumDrops, DropOldest.Inv;
      var frame := ingest.queue[0];
      DropOldest.TakeKeeps(ingest, c.ingestDepth);
      ingest := DropOldest.Take(ingest);
      var any := OfferToAll(frame);
      if !any {
        publishNoSinks := Wrap32(publishNoSinks + 1);
      }
    }

    /** The dispatcher's loop over the slots, under the lock. */
    method OfferToAll(frame: Frame) returns (any: bool)
      requires c.Valid() && forall j :: 0 <= j < sinks.Length ==> Settled(sinks[j], c.sinkDepth)
      modifies this`sinkDropped, sinks
      ensures forall j :: 0 <= j < sinks.Length ==> Settled(sinks[j], c.sinkDepth)
      ensures sinks[..] == FanOut(old(sinks[..]), c.sinkDepth, frame)
      ensures any <==> AnyActive(old(sinks[..]))
      ensures sinkDropped == Wrap32(old(sinkDropped) + SumDrops(sinks[..]) - old(SumDrops(sinks[..])))
    {
      hide SumDrops, DropOldest.Inv, DropOldest.Put, Wrap32;
      WrapKeeps(sinkDropped);
      ghost var was := sinks[..];
      any := false;
      var i := 0;
      while i < sinks.Length
        invariant 0 <= i <= sinks.Length && |was| == sinks.Length
        invariant forall j :: 0 <= j < i ==> sinks[j] == Offered(was[j], c.sinkDepth, frame)
        invariant forall j :: i <= j < sinks.Length ==> sinks[j] == was[j]
        invariant forall j :: 0 <= j < sinks.Length ==> Settled(sinks[j], c.sinkDepth)
        invariant any <==> exists j :: 0 <= j < i && was[j].active
        invariant sinkDropped == Wrap32(old(sinkDropped) + SumDrops(sinks[..]) - SumDrops(was))
      {
        if sinks[i].active {
          ghost var mid, total := sinks[..], sinkDropped;
          OfferTo(i, frame);
          assert forall j :: 0 <= j < sinks.Length && j != i ==> sinks[j] == mid[j];
          WrapAdds(old(sinkDropped) + SumDrops(mid) - SumDrops(was), SumDrops(sinks[..]) - SumDrops(mid));
          any := true;
        }
        i := i + 1;
      }
      assert sinks[..] == FanOut(was, c.sinkDepth, frame);
    }

    /** The body of the dispatcher's loop at an active slot. */
    method OfferTo(i: nat, frame: Frame)
      requires c.Valid() && i < sinks.Length && sinks[i].active && Settled(sinks[i], c.sinkDepth)
      modifies this`sinkDropped, sinks
      ensures sinks[..] == old(sinks[..])[i := Offered(old(sinks[i]), c.sinkDepth, frame)]
      ensures Settled(sinks[i], c.sinkDepth)
      ensures sinkDropped == Wrap32(old(sinkDropped) + SumDrops(sinks[..]) - old(SumDrops(sinks[..])))
    {
      hide DropOldest.Inv, DropOldest.Put, SumDrops;
      ghost var was := sinks[..];
      var slot := sinks[i];
      var before := slot.chan.dropped;
      var q := DropOldest.PutDropOldest(slot.chan, c.sinkDepth, frame, 0, 0);
      sinks[i] := slot.(chan := q, queued := Wrap32(slot.queued + 1));
      if q.dropped != before {
        sinkDropped := Wrap32(sinkDropped + Wrap32(q.dropped - before));
      }
      SumAfterUpdate(was, i, sinks[i]);
      assert sinks[..] == was[i := sinks[i]];
      CountersAreDrops(slot, sinks[i], c.sinkDepth);
      GrowthIsDifference(Drops(slot), Drops(sinks[i]), old(sinkDropped));
    }

    /** nmea_bridge_sink_open: the first inactive slot, if there is one. A handle of None is the null
        pointer; `owner` is only recorded in the history. */
    method Open(handle: Option<int>, owner: nat) returns (rc: Errno, handle': Option<int>)
      requires Valid()
      modifies sinks
      ensures Valid()
      ensures handle.None? ==> rc == EInval && handle' == None && sinks[..] == old(sinks[..])
      ensures handle.Some? ==>
        handle'.Some? && (rc, handle'.value, sinks[..]) == OpenHandle(old(sinks[..]), owner, |ingest.taken|)
      ensures handle.Some? && rc == Ok ==>
        && 0 <= handle'.value < sinks.Length && !old(sinks[..])[handle'.value].active
        && (forall i :: 0 <= i < handle'.value ==> old(sinks[..])[i].active)
        && sinks[..] == old(sinks[..])[handle'.value := Slot(true, DropOldest.Empty(), 0, 0, owner, |ingest.taken|)]
      ensures handle.Some? && rc != Ok ==>
        && rc == ENoMem && handle' == Some(-1) && sinks[..] == old(sinks[..])
        && (forall i :: 0 <= i < sinks.Length ==> sinks[i].active)
    {
      if handle.None? {
        return EInval, None;
      }
      ghost var was := sinks[..];
      var i := 0;
      while i < sinks.Length
        invariant 0 <= i <= sinks.Length && sinks[..] == was && Valid()
        invariant FirstFree(was, 0) == FirstFree(was, i)
      {
        if !sinks[i].active {
          sinks[i] := Slot(true, DropOldest.Empty(), 0, 0, owner, |ingest.taken|);
          assert sinks[..] == OpenAt(was, i, owner, |ingest.taken|);
          return Ok, Some(i);
        }
        i := i + 1;
      }
      return ENoMem, Some(-1);
    }

    /** nmea_bridge_sink_close: the handle becomes -1, unless it was none. */
    method Close(handle: Option<int>) returns (handle': Option<int>)
      requires Valid()
      modifies sinks
      ensures Valid()
      ensures handle.None? ==> handle' == None && sinks[..] == old(sinks[..])
      ensures handle.Some? ==>
        handle'.Some? && (sinks[..], handle'.value) == CloseHandle(old(sinks[..]), handle.value)
      ensures handle.Some? && 0 <= handle.value < sinks.Length ==>
        handle' == Some(-1) && !sinks[handle.value].active && sinks[handle.value].chan.queue == []
    {
      if handle.None? || handle.value < 0 || handle.value >= sinks.Length {
        return handle;
      }
      ghost var was := sinks[..];
      var id := handle.value;
      sinks[id] := sinks[id].(active := false, chan := sinks[id].chan.(queue := []));
      assert sinks[..] == CloseAt(was, id);
      return Some(-1);
    }

    /** nmea_bridge_sink_take, when nobody else runs meanwhile: an empty queue times out. `room` is false
        for a null frame pointer. */
    method TakeFrame(handle: Option<int>, room: bool) returns (rc: Errno, frame: Frame)
      requires Valid()
      modifies sinks
      ensures Valid()
      ensures handle.None? || !room ==> rc == EInval && frame == [] && sinks[..] == old(sinks[..])
      ensures handle.Some? && room ==> (rc, frame, sinks[..]) == TakeHandle(old(sinks[..]), handle.value)
      ensures handle.Some? && room && handle.value < 0 ==> rc == ENotConn
      ensures handle.Some? && room && handle.value >= sinks.Length ==> rc == EInval
      ensures handle.Some? && room && 0 <= handle.value < sinks.Length ==>
        && (rc == ENotConn <==> !old(sinks[..])[handle.value].active)
        && (rc == EAgain <==> old(sinks[..])[handle.value].active && old(sinks[..])[handle.value].chan.queue == [])
        && (rc == Ok || rc == ENotConn || rc == EAgain)
    {
      frame := [];
      if handle.None? || !room { return EInval, frame; }
      var id := handle.value;
      if id < 0 { return ENotConn, frame; }
      if id >= sinks.Length { return EInval, frame; }
      var slot := sinks[id];
      if !slot.active { return ENotConn, frame; }
      if slot.chan.queue == [] { return EAgain, frame; }
      frame := slot.chan.queue[0];
      DropOldest.TakeKeeps(slot.chan, c.sinkDepth);
      sinks[id] := slot.(chan := DropOldest.Take(slot.chan), consumed := Wrap32(slot.consumed + 1));
      rc := Ok;
    }
  }

  lemma CountersAreDrops(slot: Slot, slot': Slot, depth: nat)
    requires DropOldest.Inv(slot.chan, depth) && DropOldest.Inv(slot'.chan, depth)
    ensures slot.chan.dropped == Wrap32(Drops(slot)) && slot'.chan.dropped == Wrap32(Drops(slot'))
  {
  }

  lemma GrowthIsDifference(before: nat, after: nat, total: uint32)
    ensures Wrap32(total + Wrap32(Wrap32(after) - Wrap32(before))) == Wrap32(total + after - before)
  {
    WrapSubtracts(after, before);
    WrapAdds(after - before, total);
  }
}
