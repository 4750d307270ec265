/** The counters against the sets they count, and the pigeonhole that leaves a sink free. */
module Counting {
  import opened Base
  import opened Sinks
  import opened SessionSteps
  import opened System
  import opened Invariant

  function One(k: Kind, pc: SessionPc): nat { if Counts(k, pc) then 1 else 0 }

  lemma {:induction false} CountAfterUpdate(ss: seq<Session>, i: nat, x: Session, k: Kind)
    requires i < |ss|
    ensures Count(ss[i := x], k) == Count(ss, k) - One(k, ss[i].pc) + One(k, x.pc)
  {
    var init := ss[..|ss| - 1];
    if i == |ss| - 1 {
      assert ss[i := x][..|ss| - 1] == init;
    } else {
      CountAfterUpdate(init, i, x, k);
      assert ss[i := x][..|ss| - 1] == init[i := x];
    }
  }

  lemma {:induction false} ActiveAfterUpdate(t: seq<Slot>, i: nat, x: Slot)
    requires i < |t|
    ensures CountActive(t[i := x]) ==
      CountActive(t) - (if t[i].active then 1 else 0) + (if x.active then 1 else 0)
  {
    var init := t[..|t| - 1];
    if i == |t| - 1 {
      assert t[i := x][..|t| - 1] == init;
    } else {
      ActiveAfterUpdate(init, i, x);
      assert t[i := x][..|t| - 1] == init[i := x];
    }
  }

  /** LED count <= active sessions <= held sinks <= threads <= places. */
  lemma {:induction false} CountChain(ss: seq<Session>)
    ensures Count(ss, InLed) <= Count(ss, InActive) <= Count(ss, InSink) <= Count(ss, InThread) <= |ss|
  {
    if ss == [] {
    } else {
      CountChain(ss[..|ss| - 1]);
    }
  }

  /** A thread without a sink makes the last inequality strict. */
  lemma {:induction false} CountStrict(ss: seq<Session>, o: nat)
    requires o < |ss| && !ss[o].pc.Absent? && !HoldsSink(ss[o].pc)
    ensures Count(ss, InSink) < Count(ss, InThread)
  {
    var init := ss[..|ss| - 1];
    if o == |ss| - 1 {
      CountChain(init);
    } else {
      CountStrict(init, o);
    }
  }

  lemma {:induction false} CountNone(ss: seq<Session>, k: Kind)
    requires forall i :: 0 <= i < |ss| ==> !Counts(k, ss[i].pc)
    ensures Count(ss, k) == 0
  {
    if ss == [] {
    } else {
      CountNone(ss[..|ss| - 1], k);
    }
  }

  /** Threads exist only for allocated server slots and for the one enabled client. */
  lemma ThreadsAreBounded(c: Config, s: State)
    requires ThreadsOk(c, s)
    ensures Count(s.sessions, InThread) <=
      (if c.serverEnabled then c.maxClients else 0) + (if c.clientEnabled then 1 else 0)
  {
    var servers := s.sessions[..c.maxClients];
    CountChain(servers);
    if !c.serverEnabled {
      forall k | 0 <= k < |servers| ensures !Counts(InThread, servers[k].pc) {
        assert ClientSlotOk(s.clients[k], s.sessions[k], AcceptorHas(s.acceptor, k));
      }
      CountNone(servers, InThread);
    }
    assert s.sessions[..|s.sessions| - 1] == servers;
  }

  lemma {:induction false} AllActive(t: seq<Slot>)
    requires forall i :: 0 <= i < |t| ==> t[i].active
    ensures CountActive(t) == |t|
  {
    if t == [] {
    } else {
      AllActive(t[..|t| - 1]);
    }
  }

  /** A session about to open its sink finds a free slot: the held sinks are fewer than the threads,
      and those are no more than the build assertion provides sinks for. */
  lemma SinkIsFree(c: Config, s: State, o: nat)
    requires c.Valid() && ThreadsOk(c, s) && CountsOk(c, s) && |s.sinks| == c.maxSinks
    requires o < |s.sessions| && s.sessions[o].pc.Opening?
    ensures FirstFree(s.sinks, 0) < |s.sinks|
  {
    CountStrict(s.sessions, o);
    ThreadsAreBounded(c, s);
    if FirstFree(s.sinks, 0) == |s.sinks| {
      AllActive(s.sinks);
    }
  }
}
