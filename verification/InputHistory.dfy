/** What the shown input state says about the frames themselves: CONTEXT.md calls the input active when
    frames were accepted within the window; the program sees only a counter, and only at its polls. */
module InputHistory {
  import opened Base
  import opened Telemetry

  /** What happens over time: a frame is accepted, or telemetry is polled. */
  datatype Moment = Accept(at: nat) | Look(at: nat)

  ghost predicate Ordered(h: seq<Moment>) {
    forall i, j :: 0 <= i < j < |h| ==> h[i].at <= h[j].at
  }

  function Accepts(h: seq<Moment>): nat {
    if h == [] then 0 else Accepts(h[..|h| - 1]) + if h[|h| - 1].Accept? then 1 else 0
  }

  /** The polls, each with the 32-bit counter it finds. */
  function Polls(h: seq<Moment>): seq<Poll> {
    if h == [] then []
    else
      var init := h[..|h| - 1];
      match h[|h| - 1]
      case Accept(_) => Polls(init)
      case Look(at) => Polls(init) + [Poll(Wrap32(Accepts(init)), at)]
  }

  /** Frames accepted since the last poll. */
  function Unseen(h: seq<Moment>): nat {
    if h == [] || h[|h| - 1].Look? then 0 else Unseen(h[..|h| - 1]) + 1
  }

  /** When the last frame was accepted. */
  function LastAccept(h: seq<Moment>): Option<nat> {
    if h == [] then None
    else if h[|h| - 1].Accept? then Some(h[|h| - 1].at) else LastAccept(h[..|h| - 1])
  }

  /** The last poll that came upon new frames. */
  function LastSeen(h: seq<Moment>): Option<nat> {
    if h == [] then None
    else
      var init := h[..|h| - 1];
      match h[|h| - 1]
      case Accept(_) => LastSeen(init)
      case Look(at) => if Unseen(init) > 0 then Some(at) else LastSeen(init)
  }

  /** The same as far as 32 bits show: a multiple of 2^32 new frames goes unnoticed. */
  function LastNoticed(h: seq<Moment>): Option<nat> {
    if h == [] then None
    else
      var init := h[..|h| - 1];
      match h[|h| - 1]
      case Accept(_) => LastNoticed(init)
      case Look(at) => if Unseen(init) % WORD != 0 then Some(at) else LastNoticed(init)
  }

  /** Fewer than 2^32 frames from one poll to the next. */
  ghost predicate Few(h: seq<Moment>) {
    forall i :: 0 <= i <= |h| ==> Unseen(h[..i]) < WORD
  }

  lemma {:induction false} LastPollFound(h: seq<Moment>)
    ensures Unseen(h) <= Accepts(h)
    ensures Polls(h) == [] ==> Unseen(h) == Accepts(h) && LastNoticed(h) == None
    ensures Polls(h) != [] ==> Polls(h)[|Polls(h)| - 1].framesIn == Wrap32(Accepts(h) - Unseen(h))
  {
    if h == [] {
    } else {
      LastPollFound(h[..|h| - 1]);
    }
  }

  /** On every history, the remembered time is that of the last poll that noticed new frames. */
  lemma {:induction false} MemoryIsLastNoticed(h: seq<Moment>)
    requires Polls(h) != []
    ensures After(Polls(h)).lastFrameMs ==
      match LastNoticed(h) case None => INT64_MIN case Some(t) => t
  {
    var init, last := h[..|h| - 1], h[|h| - 1];
    LastPollFound(init);
    if last.Accept? {
      MemoryIsLastNoticed(init);
    } else {
      AfterSnoc(Polls(init), Poll(Wrap32(Accepts(init)), last.at));
      MovedMeansAccepted(Accepts(init) - Unseen(init), Accepts(init));
      if Polls(init) != [] {
        MemoryIsLastNoticed(init);
        MemoryIsLastMove(Polls(init));
      }
    }
  }

  lemma {:induction false} FewAreNoticed(h: seq<Moment>)
    requires Few(h)
    ensures LastNoticed(h) == LastSeen(h)
  {
    if h == [] {
    } else {
      var init := h[..|h| - 1];
      assert forall i :: 0 <= i <= |init| ==> init[..i] == h[..i];
      FewAreNoticed(init);
      assert h[..|init|] == init;
    }
  }

  /** A frame is seen no sooner than it was accepted. */
  lemma {:induction false} SeenAfterAccepted(h: seq<Moment>)
    requires Ordered(h)
    ensures LastAccept(h).Some? ==> LastAccept(h).value <= h[|h| - 1].at
    ensures LastSeen(h).Some? && Unseen(h) == 0 ==> LastAccept(h).Some? && LastAccept(h).value <= LastSeen(h).value
    ensures LastAccept(h).Some? && Unseen(h) == 0 ==> LastSeen(h).Some?
    ensures LastSeen(h).Some? ==> LastAccept(h).Some?
    ensures Unseen(h) > 0 ==> LastAccept(h).Some?
  {
    if h == [] {
    } else {
      var init := h[..|h| - 1];
      assert forall i, j :: 0 <= i < j < |init| ==> init[i].at <= init[j].at;
      SeenAfterAccepted(init);
    }
  }

  /** On every history, a poll shows the input active exactly when some poll within the window noticed
      new frames. */
  lemma {:induction false} ActiveMeansNoticed(h: seq<Moment>, now: nat)
    requires h != [] && h[|h| - 1] == Look(now)
    ensures Polls(h) != []
    ensures InputActive(After(Polls(h)), now) <==>
      LastNoticed(h).Some? && now - LastNoticed(h).value <= 5000
  {
    MemoryIsLastNoticed(h);
  }

  /** A frame was accepted within the window before now. */
  predicate AcceptedRecently(h: seq<Moment>, now: nat) {
    LastAccept(h).Some? && now - LastAccept(h).value <= 5000
  }

  /** The last frames are older than the window, but the poll that came upon them is not. */
  predicate DatedLate(h: seq<Moment>, now: nat) {
    && LastAccept(h).Some? && now - LastAccept(h).value > 5000
    && LastSeen(h).Some? && now - LastSeen(h).value <= 5000
  }

  /** A poll shows the input active exactly when a frame was accepted within the window, or older frames
      were first seen by a poll within it; with fewer than 2^32 frames between polls. */
  lemma {:induction false} ActiveAgainstAccepted(h: seq<Moment>, now: nat)
    requires Ordered(h) && h != [] && h[|h| - 1] == Look(now) && Few(h)
    ensures Polls(h) != []
    ensures InputActive(After(Polls(h)), now) <==> AcceptedRecently(h, now) || DatedLate(h, now)
    ensures !(AcceptedRecently(h, now) && DatedLate(h, now))
  {
    ActiveMeansNoticed(h, now);
    FewAreNoticed(h);
    SeenAfterAccepted(h);
  }

  lemma OldFrameSeenNow(now: nat)
    ensures var h := [Accept(0), Look(now)];
      Ordered(h) && Few(h) && LastSeen(h) == Some(now) && LastAccept(h) == Some(0)
  {
    var one, h := [Accept(0)], [Accept(0), Look(now)];
    assert one[..0] == [] && h[..1] == one;
    assert Unseen([]) == 0 && Unseen(one) == 1 && Unseen(h) == 0;
    forall i | 0 <= i <= |h| ensures Unseen(h[..i]) < WORD {
      assert h[..i] == if i == 0 then [] else if i == 1 then one else h;
    }
    assert LastAccept(one) == Some(0);
  }

  /** It does happen: the first poll calls the input active for a frame of any age. */
  lemma FirstPollDatesLate(now: nat)
    requires now > 5000
    ensures var h := [Accept(0), Look(now)];
      && Ordered(h) && Few(h) && InputActive(After(Polls(h)), now) && !AcceptedRecently(h, now)
  {
    hide After, Polls, InputActive;
    var h := [Accept(0), Look(now)];
    OldFrameSeenNow(now);
    ActiveAgainstAccepted(h, now);
  }
}
