/** The sink table of src/nmea_bridge.c:22-30 and the operations on it as functions. */
module Sinks {
  import opened Base
  import DropOldest

  type Queue = DropOldest.Channel<Frame>

  /** `stats.dropped_oldest` is `chan.dropped`. */
  datatype Slot = Slot(
    active: bool, chan: Queue, queued: uint32, consumed: uint32,
    // history: who opened it, and how many frames had been fanned out by then
    owner: nat, openedAt: nat)

  const NEVER_OPENED := Slot(false, DropOldest.Empty(), 0, 0, 0, 0)

  /** Drops of the slot's current lifetime, unwrapped: removals plus gets that found nothing. */
  function Drops(s: Slot): nat { |s.chan.lost| + s.chan.misses }

  /** The first inactive slot from `from` on, or |t|. */
  function FirstFree(t: seq<Slot>, from: nat): (r: nat)
    requires from <= |t|
    ensures from <= r <= |t|
    ensures forall j :: from <= j < r ==> t[j].active
    ensures r < |t| ==> !t[r].active
    decreases |t| - from
  {
    if from == |t| || !t[from].active then from else FirstFree(t, from + 1)
  }

  /** nmea_bridge_sink_open on a free slot: activate, clear the stats, purge the queue. */
  function OpenAt(t: seq<Slot>, i: nat, owner: nat, now: nat): seq<Slot>
    requires i < |t|
  {
    t[i := Slot(true, DropOldest.Empty(), 0, 0, owner, now)]
  }

  /** nmea_bridge_sink_close: deactivate and purge; the stats stay until the next open. */
  function CloseAt(t: seq<Slot>, i: nat): seq<Slot>
    requires i < |t|
  {
    t[i := t[i].(active := false, chan := t[i].chan.(queue := []))]
  }

  datatype Verdict = Invalid | Oversize | Acceptable

  /** The length checks of nmea_bridge_publish_frame. */
  function Vet(frameMax: nat, frame: Frame): Verdict {
    if frame == [] then Invalid else if |frame| > frameMax then Oversize else Acceptable
  }

  function CountActive(t: seq<Slot>): nat {
    if t == [] then 0 else CountActive(t[..|t| - 1]) + if t[|t| - 1].active then 1 else 0
  }

  function SumDrops(t: seq<Slot>): nat {
    if t == [] then 0 else SumDrops(t[..|t| - 1]) + Drops(t[|t| - 1])
  }

  lemma {:induction false} SumAfterUpdate(t: seq<Slot>, i: nat, x: Slot)
    requires i < |t|
    ensures SumDrops(t[i := x]) == SumDrops(t) - Drops(t[i]) + Drops(x)
  {
    var init := t[..|t| - 1];
    if i == |t| - 1 {
      assert t[i := x][..|t| - 1] == init;
    } else {
      SumAfterUpdate(init, i, x);
      assert t[i := x][..|t| - 1] == init[i := x];
    }
  }
}
