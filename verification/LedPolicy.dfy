/** src/status_led_policy.c: flash deadlines in wrapping 32-bit milliseconds, against a specification
    that remembers the whole history in unbounded time. */
module LedPolicy {
  import opened Base

  const FLASH_MS := 100
  const HALF := 0x8000_0000

  datatype Rgb = Rgb(r: nat, g: nat, b: nat)

  const ERROR_RED := Rgb(24, 0, 0)
  const FORWARDED_WHITE := Rgb(24, 24, 24)
  const ACTIVITY_BLUE := Rgb(0, 0, 16)
  const CONNECTED_GREEN := Rgb(0, 16, 0)
  const DISCONNECTED_RED := Rgb(16, 0, 0)

  datatype BaseState = Disconnected | Connecting | Connected

  datatype Flash = Flash(active: bool, until: uint32)

  /** struct status_led_policy_state. */
  datatype Policy = Policy(sessions: uint16, connecting: bool, activity: Flash, forwarded: Flash, error: Flash)

  const INITIAL := Policy(0, false, Flash(false, 0), Flash(false, 0), Flash(false, 0))

  /** The C cast of a uint32_t to int32_t. */
  function Signed32(n: uint32): int { if n < HALF then n else n - WORD }

  predicate FlashActive(f: Flash, now: uint32) { f.active && Signed32(Wrap32(now - f.until)) < 0 }

  function BaseOf(p: Policy): BaseState {
    if p.sessions > 0 then Connected else if p.connecting then Connecting else Disconnected
  }

  /** The triangular pulse of status_led_policy_render_connecting. */
  function RenderConnecting(now: uint32): Rgb {
    var phase := now % 1000;
    var ramp := if phase > 500 then 1000 - phase else phase;
    Rgb(4 + 12 * ramp / 500, 2 + 6 * ramp / 500, 0)
  }

  function RenderBase(b: BaseState, now: uint32): Rgb {
    match b
    case Connected => CONNECTED_GREEN
    case Connecting => RenderConnecting(now)
    case Disconnected => DISCONNECTED_RED
  }

  function Render(p: Policy, now: uint32): Rgb {
    if FlashActive(p.error, now) then ERROR_RED
    else if FlashActive(p.forwarded, now) then FORWARDED_WHITE
    else if FlashActive(p.activity, now) then ACTIVITY_BLUE
    else RenderBase(BaseOf(p), now)
  }

  // ---------------------------------------------------------------- events

  /** Times are true elapsed milliseconds; the program sees them modulo 2^32. */
  datatype Event =
    | SessionStarted | SessionEnded | ClientConnecting(on: bool)
    | FrameReceived(at: nat) | FrameForwarded(at: nat) | SendFailed(at: nat)

  function Lit(at: nat): Flash { Flash(true, Wrap32(Wrap32(at) + FLASH_MS)) }

  function Apply(p: Policy, e: Event): Policy {
    match e
    case SessionStarted => p.(sessions := Wrap16(p.sessions + 1))
    case SessionEnded => if p.sessions > 0 then p.(sessions := p.sessions - 1) else p
    case ClientConnecting(on) => p.(connecting := on)
    case FrameReceived(at) => p.(activity := Lit(at))
    case FrameForwarded(at) => p.(forwarded := Lit(at))
    case SendFailed(at) => p.(error := Lit(at))
  }

  /** The program state after a history of events. */
  function After(h: seq<Event>): Policy {
    if h == [] then INITIAL else Apply(After(h[..|h| - 1]), h[|h| - 1])
  }

  /** The state as the program keeps it, changed in place by the event functions. */
  class StatusLedPolicy {
    var sessions: uint16
    var connecting: bool
    var activityActive: bool
    var activityUntil: uint32
    var forwardedActive: bool
    var forwardedUntil: uint32
    var errorActive: bool
    var errorUntil: uint32
    ghost var history: seq<Event>

    function View(): Policy
      reads this
    {
      Policy(sessions, connecting, Flash(activityActive, activityUntil),
             Flash(forwardedActive, forwardedUntil), Flash(errorActive, errorUntil))
    }

    ghost predicate Valid()
      reads this
    {
      View() == After(history)
    }

    constructor ()
      ensures Valid() && history == []
    {
      sessions, connecting := 0, false;
      activityActive, activityUntil := false, 0;
      forwardedActive, forwardedUntil := false, 0;
      errorActive, errorUntil := false, 0;
      history := [];
    }

    method OnSessionStarted()
      requires Valid()
      modifies this
      ensures Valid() && history == old(history) + [SessionStarted]
    {
      sessions := Wrap16(sessions + 1);
      history := Recorded(history, SessionStarted);
    }

    method OnSessionEnded()
      requires Valid()
      modifies this
      ensures Valid() && history == old(history) + [SessionEnded]
    {
      if sessions > 0 {
        sessions := sessions - 1;
      }
      history := Recorded(history, SessionEnded);
    }

    method OnClientConnecting(on: bool)
      requires Valid()
      modifies this
      ensures Valid() && history == old(history) + [ClientConnecting(on)]
    {
      connecting := on;
      history := Recorded(history, ClientConnecting(on));
    }

    method OnFrameReceived(now: uint32, ghost at: nat)
      requires Valid() && now == Wrap32(at)
      modifies this
      ensures Valid() && history == old(history) + [FrameReceived(at)]
    {
      activityActive, activityUntil := true, Wrap32(now + FLASH_MS);
      history := Recorded(history, FrameReceived(at));
    }

    method OnFrameForwarded(now: uint32, ghost at: nat)
      requires Valid() && now == Wrap32(at)
      modifies this
      ensures Valid() && history == old(history) + [FrameForwarded(at)]
    {
      forwardedActive, forwardedUntil := true, Wrap32(now + FLASH_MS);
      history := Recorded(history, FrameForwarded(at));
    }

    method OnSendFailed(now: uint32, ghost at: nat)
      requires Valid() && now == Wrap32(at)
      modifies this
      ensures Valid() && history == old(history) + [SendFailed(at)]
    {
      errorActive, errorUntil := true, Wrap32(now + FLASH_MS);
      history := Recorded(history, SendFailed(at));
    }

    /** status_led_policy_render shows what the history calls for, exactly when no flash that looks
        wrong in wrapped time outranks what is lit. */
    method RenderNow(now: uint32, ghost T: nat) returns (colour: Rgb)
      requires Valid() && now == Wrap32(T)
      ensures colour == Wanted(history, T) <==> !Haunted(history, T)
      ensures Near(history, T) && Paired(history) ==> RightColour(history, T, colour)
    {
      colour := Render(View(), now);
      RenderMeetsHistory(history, T);
      if Near(history, T) && Paired(history) {
        ColourMeetsHistory(history, T);
      }
    }
  }

  ghost function Recorded(h: seq<Event>, e: Event): (r: seq<Event>)
    ensures r == h + [e] && After(r) == Apply(After(h), e)
  {
    assert (h + [e])[..|h|] == h;
    h + [e]
  }

  // ---------------------------------------------------------------- the history specification

  datatype Kind = Activity | Forwarded | Error

  function TimeOf(e: Event, k: Kind): Option<nat> {
    match k
    case Activity => if e.FrameReceived? then Some(e.at) else None
    case Forwarded => if e.FrameForwarded? then Some(e.at) else None
    case Error => if e.SendFailed? then Some(e.at) else None
  }

  /** When an event of this kind last happened. */
  function LastOf(h: seq<Event>, k: Kind): Option<nat> {
    if h == [] then None
    else
      var t := TimeOf(h[|h| - 1], k);
      if t.Some? then t else LastOf(h[..|h| - 1], k)
  }

  function FlashOf(p: Policy, k: Kind): Flash {
    match k case Activity => p.activity case Forwarded => p.forwarded case Error => p.error
  }

  /** A flash is wanted until 100 ms after the last event of its kind. An event may be recorded between
      the moment a rendering reads the clock and the moment it gets the lock, and then lies after T. */
  predicate Live(h: seq<Event>, k: Kind, T: nat) {
    LastOf(h, k).Some? && T - LastOf(h, k).value < 100
  }

  /** A flash that is long over but looks unexpired in wrapped time. */
  predicate Ghost(h: seq<Event>, k: Kind, T: nat) {
    LastOf(h, k).Some? && T - LastOf(h, k).value >= 100 &&
    Wrap32(T - LastOf(h, k).value - FLASH_MS) >= HALF
  }

  /** A flash lit so far after T that it looks expired in wrapped time. */
  predicate Hidden(h: seq<Event>, k: Kind, T: nat) {
    Live(h, k, T) && Wrap32(T - LastOf(h, k).value - FLASH_MS) < HALF
  }

  predicate Wrong(h: seq<Event>, k: Kind, T: nat) { Ghost(h, k, T) || Hidden(h, k, T) }

  /** A flash is wrong and outranks every flash that is wanted and right. */
  predicate Haunted(h: seq<Event>, T: nat) {
    || Wrong(h, Error, T)
    || (!Live(h, Error, T) && Wrong(h, Forwarded, T))
    || (!Live(h, Error, T) && !Live(h, Forwarded, T) && Wrong(h, Activity, T))
  }

  /** Each kind that ever happened did so less than 2^31 + 100 ms before T, and at most 2^31 - 100 ms
      after it. */
  ghost predicate Near(h: seq<Event>, T: nat) {
    forall k :: LastOf(h, k).Some? ==> FLASH_MS - HALF <= T - LastOf(h, k).value < HALF + FLASH_MS
  }

  /** The colour the history calls for: error over forwarded over received over the base state. */
  function Wanted(h: seq<Event>, T: nat): Rgb {
    if Live(h, Error, T) then ERROR_RED
    else if Live(h, Forwarded, T) then FORWARDED_WHITE
    else if Live(h, Activity, T) then ACTIVITY_BLUE
    else RenderBase(BaseOf(After(h)), Wrap32(T))
  }

  /** A flash lit at true time t looks unexpired at T exactly when T - t - 100 is negative as a signed
      32-bit number. */
  lemma FlashInWrappedTime(t: nat, T: nat)
    ensures FlashActive(Lit(t), Wrap32(T)) <==> Wrap32(T - t - FLASH_MS) >= HALF
    ensures FLASH_MS - HALF <= T - t < HALF + FLASH_MS ==>
      (FlashActive(Lit(t), Wrap32(T)) <==> T - t < FLASH_MS)
  {
    WrapAdds(t, FLASH_MS);
    WrapSubtracts(T, t + FLASH_MS);
    if FLASH_MS - HALF <= T - t < HALF + FLASH_MS {
      HalfTurn(T - t - FLASH_MS);
    }
  }

  /** Within half a turn of the 32-bit clock, wrapped comparison is right. */
  lemma HalfTurn(d: int)
    requires -HALF <= d < HALF
    ensures Wrap32(d) >= HALF <==> d < 0
  {
  }

  /** The flags are never cleared: each remembers whether its kind ever happened, and its deadline. */
  lemma {:induction false} FlagsFollowHistory(h: seq<Event>, k: Kind)
    ensures var f := FlashOf(After(h), k);
      match LastOf(h, k) case None => !f.active case Some(t) => f == Lit(t)
  {
    if h == [] {
    } else {
      FlagsFollowHistory(h[..|h| - 1], k);
    }
  }

  lemma FlashMeetsHistory(h: seq<Event>, k: Kind, T: nat)
    ensures FlashActive(FlashOf(After(h), k), Wrap32(T)) <==>
      (Live(h, k, T) && !Hidden(h, k, T)) || Ghost(h, k, T)
  {
    FlagsFollowHistory(h, k);
    if LastOf(h, k).Some? {
      FlashInWrappedTime(LastOf(h, k).value, T);
    }
  }

  lemma BaseColours(b: BaseState, now: uint32)
    ensures RenderBase(b, now).r <= 16 && RenderBase(b, now).b == 0
  {
  }

  /** The rendered colour is the wanted one exactly when no wrong flash outranks what is wanted. */
  lemma RenderMeetsHistory(h: seq<Event>, T: nat)
    ensures Render(After(h), Wrap32(T)) == Wanted(h, T) <==> !Haunted(h, T)
  {
    FlashMeetsHistory(h, Error, T);
    FlashMeetsHistory(h, Forwarded, T);
    FlashMeetsHistory(h, Activity, T);
    BaseColours(BaseOf(After(h)), Wrap32(T));
  }

  /** In particular it is the wanted one while each kind that ever happened did so less than
      2^31 + 100 ms before T, which is almost 25 days, and at most 2^31 - 100 ms after it. */
  lemma RenderIsRightForWeeks(h: seq<Event>, T: nat)
    requires Near(h, T)
    ensures Render(After(h), Wrap32(T)) == Wanted(h, T)
  {
    hide Render, Wanted;
    RenderMeetsHistory(h, T);
    forall k ensures !Wrong(h, k, T) {
      if LastOf(h, k).Some? {
        HalfTurn(T - LastOf(h, k).value - FLASH_MS);
      }
    }
  }

  /** And no longer: one frame received, then 2^31 + 100 ms of silence, and the LED shows activity. */
  lemma RenderGoesWrong(t: nat)
    ensures var h := [FrameReceived(t)]; var T := t + HALF + FLASH_MS;
      Render(After(h), Wrap32(T)) == Rgb(0, 0, 16) && Wanted(h, T) == Rgb(16, 0, 0)
  {
    var h, T := [FrameReceived(t)], t + HALF + FLASH_MS;
    assert h[..|h| - 1] == [];
    assert forall k :: LastOf([], k) == None;
    assert forall k :: LastOf(h, k) == if k == Activity then Some(t) else None;
    FlashMeetsHistory(h, Error, T);
    FlashMeetsHistory(h, Forwarded, T);
    FlashMeetsHistory(h, Activity, T);
    assert After(h) == INITIAL.(activity := Lit(t));
  }

  // ---------------------------------------------------------------- sessions

  function Net(h: seq<Event>): int {
    if h == [] then 0
    else
      Net(h[..|h| - 1]) +
      match h[|h| - 1] case SessionStarted => 1 case SessionEnded => -1 case _ => 0
  }

  /** At every moment of the history no more sessions had ended than started, and they fit 16 bits. */
  ghost predicate Paired(h: seq<Event>) {
    forall i :: 0 <= i <= |h| ==> 0 <= Net(h[..i]) < 0x1_0000
  }

  /** Whether the outbound client was last said to be connecting. */
  function Dialing(h: seq<Event>): bool {
    h != [] &&
    if h[|h| - 1].ClientConnecting? then h[|h| - 1].on else Dialing(h[..|h| - 1])
  }

  /** The base state the history calls for: connected while a session runs, else connecting while the
      client dials. */
  function WantedBase(h: seq<Event>): BaseState {
    if Net(h) > 0 then Connected else if Dialing(h) then Connecting else Disconnected
  }

  lemma {:induction false} BaseMeetsHistory(h: seq<Event>)
    requires Paired(h)
    ensures After(h).sessions == Net(h) && After(h).connecting == Dialing(h)
    ensures BaseOf(After(h)) == WantedBase(h)
  {
    assert h[..|h|] == h;
    if h == [] {
    } else {
      var init := h[..|h| - 1];
      assert forall i :: 0 <= i <= |init| ==> init[..i] == h[..i];
      BaseMeetsHistory(init);
    }
  }

  lemma PulseRepeats(now: uint32)
    ensures RenderConnecting(now) == RenderConnecting(now % 1000)
  {
    assert (now % 1000) % 1000 == now % 1000;
  }

  lemma PulseMirrors(phase: uint32)
    requires 0 < phase < 1000
    ensures RenderConnecting(phase) == RenderConnecting(1000 - phase)
  {
    assert phase % 1000 == phase && (1000 - phase) % 1000 == 1000 - phase;
  }

  lemma PulseRises(a: uint32, b: uint32)
    requires a <= b <= 500
    ensures RenderConnecting(a).r <= RenderConnecting(b).r && RenderConnecting(a).g <= RenderConnecting(b).g
    ensures RenderConnecting(a).b == 0
  {
    assert a % 1000 == a && b % 1000 == b;
  }

  lemma PulseEnds()
    ensures RenderConnecting(0) == Rgb(4, 2, 0) && RenderConnecting(500) == Rgb(16, 8, 0)
  {
  }

  /** The pulse shown while the client dials repeats every second; it climbs from (4, 2, 0) to (16, 8, 0)
      in the first half and comes back the same way in the second. */
  lemma ConnectingPulses(now: uint32, a: uint32, b: uint32)
    requires a <= b <= 500
    ensures var phase := now % 1000;
      RenderConnecting(now) == RenderConnecting(if phase <= 500 then phase else 1000 - phase)
    ensures RenderConnecting(a).r <= RenderConnecting(b).r && RenderConnecting(a).g <= RenderConnecting(b).g
    ensures RenderConnecting(0) == Rgb(4, 2, 0) && RenderConnecting(500) == Rgb(16, 8, 0)
    ensures RenderConnecting(a).b == 0
  {
    hide RenderConnecting;
    PulseRepeats(now);
    if now % 1000 > 500 {
      PulseMirrors(now % 1000);
    }
    PulseRises(a, b);
    PulseEnds();
  }

  /** What is to be seen at T: red 24 after a failed send, white after a forwarded frame, blue after a
      received one, in this order; else green while sessions run, the pulse while the client dials, and
      red 16 otherwise. */
  ghost predicate RightColour(h: seq<Event>, T: nat, colour: Rgb) {
    if Live(h, Error, T) then colour == Rgb(24, 0, 0)
    else if Live(h, Forwarded, T) then colour == Rgb(24, 24, 24)
    else if Live(h, Activity, T) then colour == Rgb(0, 0, 16)
    else if Net(h) > 0 then colour == Rgb(0, 16, 0)
    else if Dialing(h) then colour == RenderConnecting(Wrap32(T))
    else colour == Rgb(16, 0, 0)
  }

  /** The whole colour from the history alone, with sessions paired and no event too far away. */
  lemma ColourMeetsHistory(h: seq<Event>, T: nat)
    requires Near(h, T) && Paired(h)
    ensures RightColour(h, T, Render(After(h), Wrap32(T)))
  {
    RenderIsRightForWeeks(h, T);
    BaseMeetsHistory(h);
  }
}
