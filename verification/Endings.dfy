/** How sessions end: what the result of a session says, and when its wire stops inside a line. */
module Endings {
  import opened Base
  import opened Sinks
  import opened SessionSteps
  import opened System
  import opened Invariant
  import opened SessionKeeps
  import opened Theorems

  /** The step that took a session out of its loop: what the socket answered, and how many bytes of the
      frame under way had been accepted before. */
  datatype Exit = Exit(answer: Oracle, sent: nat)

  function SentBy(x: Session): nat { if x.pc.Sending? then x.pc.sent else 0 }

  /** The record after one more step, which turned x into y. */
  function Recorded(was: Option<Exit>, x: Session, y: Session, step: Step): Option<Exit> {
    if !Over(y.pc) then None
    else if Over(x.pc) then was
    else Some(Exit(if step.SessionStep? then step.oracle else Tick, SentBy(x)))
  }

  /** How the last session of owner `o` ended in this run, if it did. */
  function ExitOf(c: Config, steps: seq<Step>, o: nat): Option<Exit> {
    if steps == [] then None
    else
      var init, step := steps[..|steps| - 1], steps[|steps| - 1];
      match After(c, init)
      case None => None
      case Some(s) =>
        match Next(c, s, step)
        case None => None
        case Some(s') =>
          if o < |s.sessions| && o < |s'.sessions| then
            Recorded(ExitOf(c, init, o), s.sessions[o], s'.sessions[o], step)
          else None
  }

  /** The session's result and rest are those of that step; without one it never ran. */
  ghost predicate Explained(x: Session, e: Option<Exit>) {
    match e
    case None => x.pc.Absent? && x.result == PeerClosed && x.wire == [] && x.part == []
    case Some(Exit(answer, sent)) =>
      || (answer == Tx(SendError) && x.result == SendFailed && |x.part| == sent)
      || (answer == Rx(RecvError) && x.result == RxFailed && x.part == [])
      || (answer == Rx(Eof) && x.result == PeerClosed && x.part == [])
  }

  lemma LocalEnds(x: Session, r: Oracle)
    requires NextLocal(x, r).Some? && Writes(x)
    ensures var y := NextLocal(x, r).value;
      if Over(x.pc) then y.result == x.result && y.wire == x.wire && y.part == x.part && !x.pc.Absent?
      else Over(y.pc) ==> Explained(y, Some(Exit(r, SentBy(x))))
  {
    hide Concat;
  }

  /** The steps before the loop and those of a take do not end the session. */
  lemma EarlyStepsGoOn(s: State, o: nat, r: Oracle)
    requires o < |s.sessions| && NextSession(s, o, r).Some?
    requires var pc := s.sessions[o].pc;
      pc.Opening? || pc.Counting? || pc.Announcing? || pc.Getting? || pc.Noting?
    ensures var s' := NextSession(s, o, r).value;
      |s'.sessions| == |s.sessions| && !Over(s'.sessions[o].pc)
  {
    hide NextLocal, FirstFree, CloseStep, HangStep, LeaveStep, CheckStep, Wrap32;
  }

  /** The steps after the loop leave the result and the wire alone. */
  lemma LateStepsKeep(s: State, o: nat, r: Oracle)
    requires o < |s.sessions| && NextSession(s, o, r).Some?
    requires var pc := s.sessions[o].pc; Over(pc) && !pc.Failing? && !pc.Absent?
    ensures var x, s' := s.sessions[o], NextSession(s, o, r).value;
      && |s'.sessions| == |s.sessions|
      && (var y := s'.sessions[o]; y.result == x.result && y.wire == x.wire && y.part == x.part)
  {
    hide NextLocal, OpenStep, CheckStep, GetStep, NoteStep, CloseFd;
  }

  /** A session's own step, out of its loop or after it. */
  lemma OwnStepEnds(c: Config, s: State, o: nat, r: Oracle)
    requires c.Valid() && Inv(c, s) && o < |s.sessions| && NextSession(s, o, r).Some?
    ensures var x, s' := s.sessions[o], NextSession(s, o, r).value;
      && |s'.sessions| == |s.sessions|
      && (var y := s'.sessions[o];
          if !Over(y.pc) then true
          else if Over(x.pc) then
            y.result == x.result && y.wire == x.wire && y.part == x.part && !x.pc.Absent?
          else Explained(y, Some(Exit(r, SentBy(x)))))
  {
    hide Inv, Linked, TookInOrder, NextLocal, Explained, Concat, Owns;
    hide OpenStep, CheckStep, GetStep, NoteStep, CloseStep, TallyStep, HangStep, LeaveStep;
    OneSession(c, s, o);
    var x := s.sessions[o];
    match x.pc
    case Checking => CheckAdmits(c, s, o, r);
    case Rejecting => assert false;
    case Draining(_) => LocalEnds(x, r);
    case Sending(_, _) => LocalEnds(x, r);
    case Forwarding => LocalEnds(x, r);
    case Failing => LocalEnds(x, r);
    case Absent => LocalEnds(x, r);
    case _ => if Over(x.pc) { LateStepsKeep(s, o, r); } else { EarlyStepsGoOn(s, o, r); }
  }

  lemma CheckAdmits(c: Config, s: State, o: nat, r: Oracle)
    requires c.Valid() && Inv(c, s) && o < |s.sessions| && s.sessions[o].pc.Checking?
    requires NextSession(s, o, r).Some?
    ensures CheckStep(s, o).Some? && CheckStep(s, o) == NextSession(s, o, r)
    ensures var s' := CheckStep(s, o).value; |s'.sessions| == |s.sessions| && s'.sessions[o].pc.Getting?
  {
    hide Inv;
    CheckKeeps(c, s, o);
  }

  lemma OtherSessionsStay(s: State, o: nat, r: Oracle, p: nat)
    requires o < |s.sessions| && NextSession(s, o, r).Some? && p < |s.sessions| && p != o
    ensures var s' := NextSession(s, o, r).value; |s'.sessions| == |s.sessions| && s'.sessions[p] == s.sessions[p]
  {
    hide NextLocal;
  }

  /** Other threads leave a session alone, or start a new one in its place. */
  lemma ThreadsOnlyStart(c: Config, s: State, step: Step, o: nat)
    requires Next(c, s, step).Some? && !step.SessionStep? && o < |s.sessions|
    ensures var s' := Next(c, s, step).value;
      && |s'.sessions| == |s.sessions|
      && (s'.sessions[o] == s.sessions[o] || s'.sessions[o] == Start(s'.sessions[o].fd))
  {
    hide NextFan, NextUart;
  }

  lemma StepKeepsExplained(c: Config, s: State, step: Step, o: nat, e: Option<Exit>)
    requires c.Valid() && Inv(c, s) && Next(c, s, step).Some? && o < |s.sessions|
    requires Over(s.sessions[o].pc) ==> Explained(s.sessions[o], e)
    ensures var s' := Next(c, s, step).value;
      && |s'.sessions| == |s.sessions|
      && (Over(s'.sessions[o].pc) ==>
            Explained(s'.sessions[o], Recorded(e, s.sessions[o], s'.sessions[o], step)))
  {
    hide Inv, NextSession, NextFan, NextUart, NextAcceptor, NextClient;
    if step.SessionStep? {
      if step.o == o {
        OwnStepEnds(c, s, o, step.oracle);
      } else {
        OtherSessionsStay(s, step.o, step.oracle, o);
      }
    } else {
      ThreadsOnlyStart(c, s, step, o);
    }
  }

  lemma {:induction false} EveryEndingExplained(c: Config, steps: seq<Step>, s: State, o: nat)
    requires Reachable(c, steps, s) && o < |s.sessions|
    ensures Over(s.sessions[o].pc) ==> Explained(s.sessions[o], ExitOf(c, steps, o))
  {
    hide Inv, Next, Explained;
    if steps == [] {
      assert Explained(NO_SESSION, None) by { hide *; NeverRan(); }
    } else {
      var init, step := steps[..|steps| - 1], steps[|steps| - 1];
      var b := After(c, init).value;
      SessionsKeepPlaces(c, init, b);
      SessionsKeepPlaces(c, steps, s);
      EveryEndingExplained(c, init, b, o);
      ReachableHolds(c, init, b);
      StepKeepsExplained(c, b, step, o, ExitOf(c, init, o));
    }
  }

  lemma NeverRan()
    ensures Explained(NO_SESSION, None)
  {
  }

  lemma SessionsKeepPlaces(c: Config, steps: seq<Step>, s: State)
    requires Reachable(c, steps, s)
    ensures |s.sessions| == c.maxClients + 1
  {
    hide UartOk, FanOk, OwnersOk, SessionsOk, FdsOk, DropsOk, CountsOk;
    ReachableHolds(c, steps, s);
  }

  /** The result of a session that is past its loop names the step that ended it: a receive error, the
      peer's close, or a send error; and only the last leaves accepted bytes of a frame behind. */
  lemma ResultNamesTheEnd(c: Config, steps: seq<Step>, s: State, o: nat)
    requires Reachable(c, steps, s) && o < |s.sessions| && Over(s.sessions[o].pc)
    ensures var x := s.sessions[o];
      match ExitOf(c, steps, o)
      case None => x.pc.Absent? && x.wire == []
      case Some(Exit(answer, sent)) =>
        && (x.result == RxFailed <==> answer == Rx(RecvError))
        && (x.result == PeerClosed <==> answer == Rx(Eof))
        && (x.result == SendFailed <==> answer == Tx(SendError))
        && x.result != SinkUnavailable
        && |x.part| == (if answer == Tx(SendError) then sent else 0)
  {
    hide Reachable, ExitOf;
    EveryEndingExplained(c, steps, s, o);
  }

  // ---------------------------------------------------------------- handles

  /** The handle is -1 outside the session's use of its sink. */
  predicate HandlePut(x: Session) { !HoldsSink(x.pc) ==> x.sinkId == -1 }

  lemma OwnStepPutsHandle(s: State, o: nat, r: Oracle)
    requires o < |s.sessions| && NextSession(s, o, r).Some? && HandlePut(s.sessions[o])
    requires HoldsSink(s.sessions[o].pc) ==> Owns(s.sinks, s.sessions[o], o)
    requires s.sessions[o].pc.Checking? ==> CheckStep(s, o).value.sessions[o].pc.Getting?
    ensures var s' := NextSession(s, o, r).value; |s'.sessions| == |s.sessions| && HandlePut(s'.sessions[o])
  {
    hide CloseFd, Wrap32, NextLocal, FirstFree, OpenAt, CloseAt, Got;
    var x := s.sessions[o];
    if NextLocal(x, r).Some? {
      LocalStaysInside(x, r);
    }
    if x.pc.Opening? {
      OpenPutsHandle(s, o);
    }
    if x.pc.Getting? {
      GetKeepsHandle(s, o);
    }
  }

  lemma OpenPutsHandle(s: State, o: nat)
    requires o < |s.sessions| && OpenStep(s, o).Some?
    ensures var y := OpenStep(s, o).value.sessions[o];
      y.pc.Counting? || (y.pc.Rejecting? && y.sinkId == s.sessions[o].sinkId)
  {
  }

  lemma GetKeepsHandle(s: State, o: nat)
    requires o < |s.sessions| && GetStep(s, o).Some?
    ensures var y := GetStep(s, o).value.sessions[o]; HoldsSink(y.pc)
  {
  }

  lemma StepPutsHandle(c: Config, s: State, step: Step, o: nat)
    requires c.Valid() && Inv(c, s) && Next(c, s, step).Some? && o < |s.sessions|
    requires HandlePut(s.sessions[o])
    ensures var s' := Next(c, s, step).value; |s'.sessions| == |s.sessions| && HandlePut(s'.sessions[o])
  {
    hide Inv, NextSession, NextFan, NextUart, NextAcceptor, NextClient, Owns;
    if step.SessionStep? {
      if step.o == o {
        OneSession(c, s, o);
        if s.sessions[o].pc.Checking? {
          CheckAdmits(c, s, o, step.oracle);
        }
        OwnStepPutsHandle(s, o, step.oracle);
      } else {
        OtherSessionsStay(s, step.o, step.oracle, o);
      }
    } else {
      ThreadsOnlyStart(c, s, step, o);
    }
  }

  lemma {:induction false} HandlesArePut(c: Config, steps: seq<Step>, s: State, o: nat)
    requires Reachable(c, steps, s) && o < |s.sessions|
    ensures HandlePut(s.sessions[o])
  {
    hide Inv, Next;
    if steps == [] {
    } else {
      var init, step := steps[..|steps| - 1], steps[|steps| - 1];
      var b := After(c, init).value;
      SessionsKeepPlaces(c, init, b);
      SessionsKeepPlaces(c, steps, s);
      HandlesArePut(c, init, b, o);
      ReachableHolds(c, init, b);
      StepPutsHandle(c, b, step, o);
    }
  }

  /** In every run a session has a handle exactly from its open to its close: its own active slot in
      between, -1 before and after. So no later close can reach a slot that another session has opened. */
  lemma HandleIsTakenAway(c: Config, steps: seq<Step>, s: State, o: nat)
    requires Reachable(c, steps, s) && o < |s.sessions|
    ensures var x := s.sessions[o];
      if HoldsSink(x.pc) then
        0 <= x.sinkId < |s.sinks| && s.sinks[x.sinkId].active && s.sinks[x.sinkId].owner == o
      else x.sinkId == -1
  {
    hide Inv, Reachable;
    HandlesArePut(c, steps, s, o);
    ReachableHolds(c, steps, s);
    OneSession(c, s, o);
  }

  // ---------------------------------------------------------------- unfinished lines

  /** These bytes are complete lines, one after the other. */
  ghost predicate CompleteLines(n: nat, wire: seq<Byte>) {
    exists lines: seq<Frame> ::
      Concat(lines) == wire && forall i :: 0 <= i < |lines| ==> IsLine(n, lines[i])
  }

  lemma LinesEndInNewline(n: nat, lines: seq<Frame>)
    requires lines != [] && forall i :: 0 <= i < |lines| ==> IsLine(n, lines[i])
    ensures var wire := Concat(lines); wire != [] && wire[|wire| - 1] == NEWLINE
  {
    assert IsLine(n, lines[|lines| - 1]);
  }

  /** Complete lines and a proper prefix of one more are complete lines only if the prefix is empty. */
  lemma CompleteIffNothingLeft(n: nat, done: seq<Frame>, frame: Frame, part: Frame)
    requires forall i :: 0 <= i < |done| ==> IsLine(n, done[i])
    requires IsLine(n, frame) && part < frame
    ensures CompleteLines(n, Concat(done) + part) <==> part == []
  {
    hide Concat;
    var wire := Concat(done) + part;
    if part == [] {
      assert Concat(done) == wire;
    } else {
      assert part[|part| - 1] == frame[..|frame| - 1][|part| - 1];
      assert wire[|wire| - 1] != NEWLINE;
      if CompleteLines(n, wire) {
        var lines: seq<Frame> :| Concat(lines) == wire && forall i :: 0 <= i < |lines| ==> IsLine(n, lines[i]);
        NoLines();
        LinesEndInNewline(n, lines);
      }
    }
  }

  lemma NoLines()
    ensures Concat([]) == []
  {
  }

  /** At every moment, a session's wire is complete lines exactly when no part of a line is under way,
      or all of it has been accepted. */
  lemma WireIsCompleteIff(c: Config, steps: seq<Step>, s: State, o: nat)
    requires Reachable(c, steps, s) && o < |s.sessions|
    ensures var x := s.sessions[o]; CompleteLines(c.frameMax, x.wire) <==> x.part == [] || AllSent(x)
  {
    hide Inv, Reachable, Concat, LineIndices, Lines, CompleteLines;
    var x, n := s.sessions[o], c.frameMax;
    TakesLinesInOrder(c, steps, s, o);
    WireCarriesWholeLines(c, steps, s, o);
    assert forall i :: 0 <= i < |x.frames| ==> IsLine(n, x.frames[i]);
    assert forall i :: 0 <= i < |x.done| ==> x.done[i] == x.frames[i];
    if |x.frames| == |x.done| {
      AreComplete(n, x.done, x.wire);
    } else if AllSent(x) {
      ConcatSnoc(x.done, x.part);
      AreComplete(n, x.done + [x.part], x.wire);
    } else {
      CompleteIffNothingLeft(n, x.done, x.frames[|x.done|], x.part);
    }
  }

  lemma AreComplete(n: nat, lines: seq<Frame>, wire: seq<Byte>)
    requires Concat(lines) == wire && forall i :: 0 <= i < |lines| ==> IsLine(n, lines[i])
    ensures CompleteLines(n, wire)
  {
  }

  /** A session that is over has broken off inside a line exactly when a send failed after some, and
      never all, bytes of a frame had been accepted. */
  lemma CutExactlyMidFrame(c: Config, steps: seq<Step>, s: State, o: nat)
    requires Reachable(c, steps, s) && o < |s.sessions| && Over(s.sessions[o].pc)
    ensures var x, e := s.sessions[o], ExitOf(c, steps, o);
      && (!CompleteLines(c.frameMax, x.wire) <==>
            e.Some? && e.value.answer == Tx(SendError) && e.value.sent > 0)
      && (e.Some? && e.value.answer == Tx(SendError) ==>
            |x.done| < |x.frames| && e.value.sent < |x.frames[|x.done|]|)
  {
    hide Reachable, ExitOf, CompleteLines, Concat;
    WireIsCompleteIff(c, steps, s, o);
    WireCarriesWholeLines(c, steps, s, o);
    ResultNamesTheEnd(c, steps, s, o);
  }
}
