/** The invariant over whole runs. */
module Runs {
  import opened Base
  import DropOldest
  import opened Sinks
  import opened SessionSteps
  import opened System
  import opened Invariant
  import opened UartSteps
  import opened FanSteps
  import opened Counting
  import opened SessionKeeps
  import opened ThreadSteps

  lemma {:induction false} NoneActive(t: seq<Slot>)
    requires forall i :: 0 <= i < |t| ==> t[i] == NEVER_OPENED
    ensures CountActive(t) == 0 && SumDrops(t) == 0
  {
    if t == [] {
    } else {
      NoneActive(t[..|t| - 1]);
    }
  }

  lemma InitCounts(c: Config)
    ensures CountsOk(c, Init(c)) && DropsOk(Init(c).fan, Init(c).sinks)
  {
    var s := Init(c);
    NoneActive(s.sinks);
    CountNone(s.sessions, InLed);
    CountNone(s.sessions, InActive);
    CountNone(s.sessions, InSink);
  }

  lemma InitThreads(c: Config)
    ensures ThreadsOk(c, Init(c)) && FdsOk(c, Init(c))
  {
    var s := Init(c);
    forall k | 0 <= k < c.maxClients
      ensures ClientSlotOk(s.clients[k], s.sessions[k], AcceptorHas(s.acceptor, k)) {}
  }

  lemma InitData(c: Config)
    ensures var s := Init(c);
      UartOk(c, s.uart, s.ingest) && FanOk(c, s.fan, s.ingest, s.sinks)
      && OwnersOk(s.sinks, s.sessions) && SessionsOk(s.ingest, s.sinks, s.sessions)
  {
    hide UartOk, FanOk;
    InitUart(c);
    InitFan(c);
  }

  lemma InitUart(c: Config)
    ensures UartOk(c, Init(c).uart, Init(c).ingest)
  {
  }

  lemma InitFan(c: Config)
    ensures FanOk(c, Init(c).fan, Init(c).ingest, Init(c).sinks)
  {
    assert SlotOk(c, Waiting, DropOldest.Empty(), NEVER_OPENED, 0);
  }

  lemma InitHolds(c: Config)
    ensures Inv(c, Init(c))
  {
    hide UartOk, FanOk, OwnersOk, SessionsOk, ThreadsOk, FdsOk, DropsOk, CountsOk;
    InitData(c);
    InitCounts(c);
    InitThreads(c);
  }

  lemma StepHolds(c: Config, s: State, step: Step)
    requires c.Valid() && Inv(c, s) && Next(c, s, step).Some?
    ensures Inv(c, Next(c, s, step).value)
  {
    hide Inv;
    match step
    case UartStep(ch) => UartKeeps(c, s, ch);
    case FanStep => FanKeeps(c, s);
    case SessionStep(o, r) => SessionKeeps.SessionKeeps(c, s, o, r);
    case AcceptStep(fd) => AcceptKeeps(c, s, fd);
    case ClientStep(d) => ClientKeeps(c, s, d);
  }

  /** The invariant holds after every interleaving of every length. */
  lemma {:induction false} EveryRun(c: Config, steps: seq<Step>)
    requires c.Valid() && After(c, steps).Some?
    ensures Inv(c, After(c, steps).value)
  {
    hide Inv;
    if steps == [] {
      InitHolds(c);
    } else {
      EveryRun(c, steps[..|steps| - 1]);
      StepHolds(c, After(c, steps[..|steps| - 1]).value, steps[|steps| - 1]);
    }
  }
}
