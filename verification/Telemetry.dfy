/** src/bridge_telemetry.c: the snapshot that watches the accepted-frame counter from poll to poll. */
module Telemetry {
  import opened Base

  const WINDOW_MS := 5000
  const INT64_MIN: int := -0x8000_0000_0000_0000

  datatype Inputs = Inputs(
    uartBytesRx: uint32, uartLinesRx: uint32, uartOverlongLines: uint32,
    framesIn: uint32, ingestDropped: uint32, sinkDropped: uint32, noSinks: uint32,
    publishInvalid: uint32, publishOversize: uint32,
    activeSessions: uint32, activeClients: uint32, maxClients: uint32, staReady: bool)

  /** The counters are copied, so the snapshot carries the inputs themselves. */
  datatype Snapshot = Snapshot(
    connected: bool, inputActive: bool, dataQuality: bool, frameLoss: bool, counters: Inputs)

  /** struct bridge_telemetry_state. */
  datatype Memory = Memory(lastFramesIn: uint32, lastFrameMs: int, initialized: bool)

  const BLANK := Memory(0, 0, false)

  function Remember(m: Memory, framesIn: uint32, now: nat): Memory {
    if !m.initialized then Memory(framesIn, if framesIn > 0 then now else INT64_MIN, true)
    else if framesIn != m.lastFramesIn then m.(lastFramesIn := framesIn, lastFrameMs := now)
    else m
  }

  predicate InputActive(m: Memory, now: nat) {
    m.lastFrameMs != INT64_MIN && now - m.lastFrameMs <= WINDOW_MS
  }

  datatype Poll = Poll(framesIn: uint32, now: nat)

  function After(polls: seq<Poll>): Memory {
    if polls == [] then BLANK
    else Remember(After(polls[..|polls| - 1]), polls[|polls| - 1].framesIn, polls[|polls| - 1].now)
  }

  lemma AfterSnoc(polls: seq<Poll>, p: Poll)
    ensures After(polls + [p]) == Remember(After(polls), p.framesIn, p.now)
  {
    assert (polls + [p])[..|polls|] == polls;
  }

  ghost function Extended(polls: seq<Poll>, p: Poll): (r: seq<Poll>)
    requires Monotone(polls) && (polls != [] ==> polls[|polls| - 1].now <= p.now)
    ensures r == polls + [p] && Monotone(r)
  {
    polls + [p]
  }

  class BridgeTelemetry {
    var lastFramesIn: uint32
    var lastFrameMs: int
    var initialized: bool
    ghost var polls: seq<Poll>

    ghost predicate Valid()
      reads this
    {
      Memory(lastFramesIn, lastFrameMs, initialized) == After(polls) && Monotone(polls)
    }

    constructor ()
      ensures Valid() && polls == []
    {
      lastFramesIn, lastFrameMs, initialized, polls := 0, 0, false, [];
    }

    /** bridge_telemetry_build_snapshot: the input is shown as active exactly when some poll within
        the last five seconds saw the frame counter move. */
    method BuildSnapshot(inputs: Inputs, now: nat) returns (s: Snapshot)
      requires Valid() && (polls != [] ==> polls[|polls| - 1].now <= now)
      modifies this
      ensures Valid() && polls == old(polls) + [Poll(inputs.framesIn, now)]
      ensures s.inputActive <==> RecentlyMoved(polls, |polls| - 1)
      ensures s.connected <==> inputs.activeSessions > 0
      ensures s.dataQuality <==>
        inputs.uartOverlongLines > 0 || inputs.publishInvalid > 0 || inputs.publishOversize > 0
      ensures s.frameLoss <==> inputs.ingestDropped > 0 || inputs.sinkDropped > 0
      ensures s.counters == inputs
    {
      hide After, RecentlyMoved;
      AfterSnoc(polls, Poll(inputs.framesIn, now));
      polls := Extended(polls, Poll(inputs.framesIn, now));
      if !initialized {
        lastFramesIn := inputs.framesIn;
        lastFrameMs := if inputs.framesIn > 0 then now else INT64_MIN;
        initialized := true;
      } else if inputs.framesIn != lastFramesIn {
        lastFramesIn := inputs.framesIn;
        lastFrameMs := now;
      }
      var active := if lastFrameMs == INT64_MIN then false else now - lastFrameMs <= WINDOW_MS;
      ActiveMeansRecentlyMoved(polls);
      s := Snapshot(
        inputs.activeSessions > 0, active,
        inputs.uartOverlongLines > 0 || inputs.publishInvalid > 0 || inputs.publishOversize > 0,
        inputs.ingestDropped > 0 || inputs.sinkDropped > 0,
        inputs);
    }
  }

  ghost predicate Monotone(polls: seq<Poll>) {
    forall i, j :: 0 <= i < j < |polls| ==> polls[i].now <= polls[j].now
  }

  /** Poll j saw the counter move: it differs from the poll before, or the first is not zero. */
  predicate Moved(polls: seq<Poll>, j: nat)
    requires j < |polls|
  {
    if j == 0 then polls[0].framesIn > 0 else polls[j].framesIn != polls[j - 1].framesIn
  }

  /** Some poll up to k saw the counter move no more than 5000 ms before poll k. */
  ghost predicate RecentlyMoved(polls: seq<Poll>, k: nat)
    requires k < |polls|
  {
    exists j :: 0 <= j <= k && Moved(polls, j) && polls[k].now - polls[j].now <= 5000
  }

  /** The last poll that saw the counter move, or -1. */
  function LastMove(polls: seq<Poll>): (r: int)
    ensures -1 <= r < |polls|
    ensures r >= 0 ==> Moved(polls, r)
    ensures forall j :: r < j < |polls| ==> !Moved(polls, j)
  {
    if polls == [] then -1
    else if Moved(polls, |polls| - 1) then |polls| - 1
    else
      var r := LastMove(polls[..|polls| - 1]);
      assert forall j :: 0 <= j < |polls| - 1 ==> Moved(polls[..|polls| - 1], j) == Moved(polls, j);
      r
  }

  /** What the state remembers: the last counter value, and the time of the last move. */
  lemma {:induction false} MemoryIsLastMove(polls: seq<Poll>)
    requires polls != []
    ensures var m := After(polls);
      && m.initialized && m.lastFramesIn == polls[|polls| - 1].framesIn
      && m.lastFrameMs == if LastMove(polls) < 0 then INT64_MIN else polls[LastMove(polls)].now
  {
    var init := polls[..|polls| - 1];
    if init == [] {
    } else {
      MemoryIsLastMove(init);
    }
  }

  lemma ActiveMeansRecentlyMoved(polls: seq<Poll>)
    requires polls != [] && Monotone(polls)
    ensures InputActive(After(polls), polls[|polls| - 1].now) <==> RecentlyMoved(polls, |polls| - 1)
  {
    hide After, Moved;
    MemoryIsLastMove(polls);
    var r, k := LastMove(polls), |polls| - 1;
    if RecentlyMoved(polls, k) {
      var j :| 0 <= j <= k && Moved(polls, j) && polls[k].now - polls[j].now <= 5000;
      assert j <= r;
    }
  }

  /** The 32-bit counter differs exactly when the frames in between are not a multiple of 2^32. */
  lemma MovedMeansAccepted(before: nat, after: nat)
    requires before <= after
    ensures Wrap32(after) != Wrap32(before) <==> (after - before) % WORD != 0
    ensures after < before + WORD ==> (Wrap32(after) != Wrap32(before) <==> after > before)
  {
    WrapSubtracts(after, before);
  }
}
