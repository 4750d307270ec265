/** The retry logic of src/status_led.c: the backoff loop, and the observer loop around the update. */
module LedRetry {
  import opened Base
  import LedPolicy

  const RETRY_INITIAL_MS := 1000
  const RETRY_MAX_MS := 5000

  /** The delay after k failed attempts in a row: min(1000 * 2^(k-1), 5000). */
  function Delay(k: nat): nat {
    Min(RETRY_INITIAL_MS * Pow2(if k == 0 then 0 else k - 1), RETRY_MAX_MS)
  }

  lemma {:induction false} Pow2Grows(m: nat, n: nat)
    requires m <= n
    ensures Pow2(m) <= Pow2(n)
    decreases n
  {
    if m == n {
    } else {
      Pow2Grows(m, n - 1);
    }
  }

  /** The waits are 1, 2, 4 and then 5 seconds; so stopping the counter at 255 changes none. */
  lemma DelaySettles(k: nat)
    ensures Delay(k) == if k <= 1 then 1000 else if k == 2 then 2000 else if k == 3 then 4000 else 5000
    ensures Delay(Min(k, 255)) == Delay(k)
  {
    assert Pow2(0) == 1 && Pow2(1) == 2 && Pow2(2) == 4 && Pow2(3) == 8;
    if k >= 4 {
      Pow2Grows(3, k - 1);
      Pow2Grows(3, Min(k, 255) - 1);
    }
  }

  /** status_led_retry_delay_ms: the doubling loop computes the closed form. */
  method RetryDelayMs(failedAttempts: nat) returns (delayMs: nat)
    requires failedAttempts <= 255
    ensures delayMs == Delay(failedAttempts)
    ensures failedAttempts <= 1 ==> delayMs == 1000
    ensures failedAttempts == 2 ==> delayMs == 2000
    ensures failedAttempts == 3 ==> delayMs == 4000
    ensures failedAttempts >= 4 ==> delayMs == 5000
  {
    DelaySettles(failedAttempts);
    delayMs := RETRY_INITIAL_MS;
    var left := failedAttempts;
    ghost var doubled: nat := 0;
    while left > 1 && delayMs < RETRY_MAX_MS
      invariant delayMs == RETRY_INITIAL_MS * Pow2(doubled)
      invariant doubled + left == failedAttempts && (failedAttempts > 0 ==> left >= 1)
      decreases left
    {
      delayMs := delayMs * 2;
      left := left - 1;
      doubled := doubled + 1;
    }
    Pow2Grows(doubled, if failedAttempts == 0 then 0 else failedAttempts - 1);
    if delayMs > RETRY_MAX_MS {
      return RETRY_MAX_MS;
    }
  }

  /** The local variables of status_led_thread. */
  datatype Observer = Observer(nextRetryMs: nat, failedAttempts: nat, applied: Option<LedPolicy.Rgb>)

  const FRESH := Observer(0, 0, None)

  /** One turn of the loop: the time, the rendered colour, and whether the hardware would accept it. */
  datatype Tick = Tick(now: nat, colour: LedPolicy.Rgb, works: bool)

  predicate Attempts(o: Observer, t: Tick) { o.applied != Some(t.colour) && t.now >= o.nextRetryMs }

  function Observe(o: Observer, t: Tick): Observer {
    if !Attempts(o, t) then o
    else if t.works then Observer(0, 0, Some(t.colour))
    else
      var failed := if o.failedAttempts < 255 then o.failedAttempts + 1 else o.failedAttempts;
      Observer(t.now + Delay(failed), failed, o.applied)
  }

  function After(ticks: seq<Tick>): Observer {
    if ticks == [] then FRESH else Observe(After(ticks[..|ticks| - 1]), ticks[|ticks| - 1])
  }

  lemma AfterSnoc(ticks: seq<Tick>, t: Tick)
    ensures After(ticks + [t]) == Observe(After(ticks), t)
    ensures After([]) == FRESH
  {
    assert (ticks + [t])[..|ticks|] == ticks;
  }

  class LedThread {
    var nextRetryMs: nat
    var failedAttempts: nat
    var hasApplied: bool
    var applied: LedPolicy.Rgb
    ghost var ticks: seq<Tick>

    ghost predicate Valid()
      reads this
    {
      && failedAttempts <= 255
      && After(ticks) == Observer(nextRetryMs, failedAttempts, if hasApplied then Some(applied) else None)
    }

    constructor ()
      ensures Valid() && ticks == []
    {
      nextRetryMs, failedAttempts, hasApplied, applied, ticks := 0, 0, false, LedPolicy.Rgb(0, 0, 0), [];
    }

    /** One turn of status_led_thread; `works` is what led_strip_update_rgb would answer. */
    method Turn(now: nat, rendered: LedPolicy.Rgb, works: bool) returns (attempted: bool)
      requires Valid()
      modifies this
      ensures Valid() && ticks == old(ticks) + [Tick(now, rendered, works)]
      ensures attempted <==> Attempts(old(After(ticks)), Tick(now, rendered, works))
      ensures attempted <==> Due(old(ticks), Tick(now, rendered, works))
    {
      hide Delay, After, Due;
      ghost var t := Tick(now, rendered, works);
      AfterSnoc(ticks, t);
      DueNow(ticks, t);
      attempted := (!hasApplied || rendered != applied) && now >= nextRetryMs;
      if attempted {
        if works {
          applied, hasApplied, failedAttempts, nextRetryMs := rendered, true, 0, 0;
        } else {
          if failedAttempts < 255 {
            failedAttempts := failedAttempts + 1;
          }
          var delay := RetryDelayMs(failedAttempts);
          nextRetryMs := now + delay;
        }
      }
      ticks := ticks + [t];
    }
  }

  /** Whether turn i of a run attempted an update. */
  predicate AttemptsAt(ticks: seq<Tick>, i: nat)
    requires i < |ticks|
  {
    Attempts(After(ticks[..i]), ticks[i])
  }

  /** How many attempts in a row had failed by the end of the run. */
  function FailedInARow(ticks: seq<Tick>): nat {
    if ticks == [] then 0
    else
      var init := ticks[..|ticks| - 1];
      if !AttemptsAt(ticks, |ticks| - 1) then FailedInARow(init)
      else if ticks[|ticks| - 1].works then 0 else FailedInARow(init) + 1
  }

  /** The 8-bit counter is that number, stopped at 255. */
  lemma {:induction false} CounterIsFailedInARow(ticks: seq<Tick>)
    ensures After(ticks).failedAttempts == Min(FailedInARow(ticks), 255)
    ensures FailedInARow(ticks) == 0 ==> After(ticks).nextRetryMs == 0
  {
    if ticks == [] {
    } else {
      CounterIsFailedInARow(ticks[..|ticks| - 1]);
    }
  }

  /** The state stays as it is while nothing is attempted. */
  lemma {:induction false} QuietTurns(ticks: seq<Tick>, i: nat, j: nat)
    requires i <= j <= |ticks|
    requires forall m :: i <= m < j ==> !AttemptsAt(ticks, m)
    ensures After(ticks[..j]) == After(ticks[..i])
    decreases j - i
  {
    if i == j {
    } else {
      QuietTurns(ticks, i, j - 1);
      var run := ticks[..j];
      assert run[..|run| - 1] == ticks[..j - 1] && run[|run| - 1] == ticks[j - 1];
      assert !AttemptsAt(ticks, j - 1);
    }
  }

  /** After the k-th failure in a row at turn i, the next attempt, at turn j, comes no sooner than
      min(1000 * 2^(k-1), 5000) ms later, however large k is. */
  lemma NoEarlyRetry(ticks: seq<Tick>, i: nat, j: nat)
    requires i < j < |ticks| && AttemptsAt(ticks, i) && !ticks[i].works && AttemptsAt(ticks, j)
    requires forall m :: i < m < j ==> !AttemptsAt(ticks, m)
    ensures ticks[j].now >= ticks[i].now + Delay(FailedInARow(ticks[..i + 1]))
  {
    var run := ticks[..i + 1];
    assert run[..|run| - 1] == ticks[..i];
    CounterIsFailedInARow(run);
    DelaySettles(FailedInARow(run));
    QuietTurns(ticks, i + 1, j);
  }

  /** After a success nothing holds the next attempt back: it happens as soon as the colour differs. */
  lemma SuccessResets(ticks: seq<Tick>, i: nat, j: nat)
    requires i < j < |ticks| && AttemptsAt(ticks, i) && ticks[i].works
    requires forall m :: i < m < j ==> !AttemptsAt(ticks, m)
    ensures AttemptsAt(ticks, j) <==> ticks[j].colour != ticks[i].colour
    ensures FailedInARow(ticks[..j]) == 0
  {
    var run := ticks[..i + 1];
    assert run[..|run| - 1] == ticks[..i];
    assert After(run) == Observer(0, 0, Some(ticks[i].colour));
    QuietTurns(ticks, i + 1, j);
    CounterIsFailedInARow(ticks[..j]);
  }

  // ---------------------------------------------------------------- exactly when an attempt is made

  predicate SucceedsAt(ticks: seq<Tick>, i: nat)
    requires i < |ticks|
  {
    AttemptsAt(ticks, i) && ticks[i].works
  }

  predicate FailsAt(ticks: seq<Tick>, i: nat)
    requires i < |ticks|
  {
    AttemptsAt(ticks, i) && !ticks[i].works
  }

  /** What a turn did does not depend on the turns after it. */
  lemma EarlierTurns(ticks: seq<Tick>)
    requires ticks != []
    ensures var init := ticks[..|ticks| - 1];
      forall i :: 0 <= i < |init| ==>
        SucceedsAt(init, i) == SucceedsAt(ticks, i) && FailsAt(init, i) == FailsAt(ticks, i)
  {
    var init := ticks[..|ticks| - 1];
    forall i | 0 <= i < |init| ensures AttemptsAt(init, i) == AttemptsAt(ticks, i) {
      assert init[..i] == ticks[..i];
    }
  }

  /** The last turn that succeeded, or -1. */
  function LastSuccess(ticks: seq<Tick>): (r: int)
    ensures -1 <= r < |ticks|
    ensures r >= 0 ==> SucceedsAt(ticks, r)
    ensures forall i :: r < i < |ticks| ==> !SucceedsAt(ticks, i)
  {
    if ticks == [] then -1
    else
      var init := ticks[..|ticks| - 1];
      EarlierTurns(ticks);
      if SucceedsAt(ticks, |ticks| - 1) then |ticks| - 1 else LastSuccess(init)
  }

  /** The last turn that failed, or -1. */
  function LastFailure(ticks: seq<Tick>): (r: int)
    ensures -1 <= r < |ticks|
    ensures r >= 0 ==> FailsAt(ticks, r)
    ensures forall i :: r < i < |ticks| ==> !FailsAt(ticks, i)
  {
    if ticks == [] then -1
    else
      var init := ticks[..|ticks| - 1];
      EarlierTurns(ticks);
      if FailsAt(ticks, |ticks| - 1) then |ticks| - 1 else LastFailure(init)
  }

  /** What the variables of the loop remember of the run. */
  lemma {:induction false} MemoryOfRun(ticks: seq<Tick>)
    ensures var o, k := After(ticks), FailedInARow(ticks);
      && (o.applied == if LastSuccess(ticks) < 0 then None else Some(ticks[LastSuccess(ticks)].colour))
      && (k > 0 <==> LastFailure(ticks) > LastSuccess(ticks))
      && o.nextRetryMs == if k == 0 then 0 else ticks[LastFailure(ticks)].now + Delay(k)
  {
    if ticks == [] {
    } else {
      var init := ticks[..|ticks| - 1];
      MemoryOfRun(init);
      CounterIsFailedInARow(init);
      DelaySettles(FailedInARow(init) + 1);
      assert Min(FailedInARow(init) + 1, 255) ==
        if Min(FailedInARow(init), 255) < 255 then Min(FailedInARow(init), 255) + 1 else 255;
    }
  }

  /** After this run an update to colour t.colour is due at t.now: it is not the colour last applied, or
      none was ever applied; and no attempt has failed since, or the wait after the last of k failures
      in a row is over, min(1000 * 2^(k-1), 5000) ms. */
  predicate Due(past: seq<Tick>, t: Tick) {
    var k := FailedInARow(past);
    && (LastSuccess(past) < 0 || t.colour != past[LastSuccess(past)].colour)
    && (k == 0 || (LastFailure(past) >= 0
                   && t.now >= past[LastFailure(past)].now + Min(1000 * Pow2(k - 1), 5000)))
  }

  /** In every run, each turn attempts an update exactly if one is due. */
  lemma AttemptsExactly(ticks: seq<Tick>, j: nat)
    requires j < |ticks|
    ensures AttemptsAt(ticks, j) <==> Due(ticks[..j], ticks[j])
  {
    MemoryOfRun(ticks[..j]);
  }

  lemma DueNow(past: seq<Tick>, t: Tick)
    ensures Attempts(After(past), t) <==> Due(past, t)
  {
    var ticks := past + [t];
    assert ticks[..|past|] == past;
    AttemptsExactly(ticks, |past|);
  }

  function FailuresAfter(ticks: seq<Tick>, from: int): set<int>
    requires from >= -1
  {
    set i | from < i < |ticks| && FailsAt(ticks, i)
  }

  lemma FailuresGrow(ticks: seq<Tick>)
    requires ticks != []
    ensures var init, n := ticks[..|ticks| - 1], |ticks| - 1;
      var before := FailuresAfter(init, LastSuccess(init));
      && FailuresAfter(ticks, LastSuccess(ticks)) ==
           (if SucceedsAt(ticks, n) then {} else if FailsAt(ticks, n) then before + {n} else before)
      && n !in before
  {
    var init, n := ticks[..|ticks| - 1], |ticks| - 1;
    EarlierTurns(ticks);
    assert LastSuccess(ticks) == if SucceedsAt(ticks, n) then n else LastSuccess(init);
    hide AttemptsAt, SucceedsAt, FailsAt, LastSuccess;
    var before, now := FailuresAfter(init, LastSuccess(init)), FailuresAfter(ticks, LastSuccess(ticks));
    forall i ensures i in now <==>
      if SucceedsAt(ticks, n) then false else i in before || (i == n && FailsAt(ticks, n)) {}
  }

  /** The failures in a row are the attempts since the last success. */
  lemma {:induction false} FailedSinceSuccess(ticks: seq<Tick>)
    ensures FailedInARow(ticks) == |FailuresAfter(ticks, LastSuccess(ticks))|
  {
    hide FailuresAfter, AttemptsAt, LastSuccess;
    if ticks == [] {
      NoFailures();
    } else {
      FailedSinceSuccess(ticks[..|ticks| - 1]);
      FailuresGrow(ticks);
    }
  }

  lemma NoFailures()
    ensures FailuresAfter([], LastSuccess([])) == {}
  {
  }

  /** The first turn always attempts. */
  lemma FirstTurnAttempts(ticks: seq<Tick>)
    requires ticks != []
    ensures AttemptsAt(ticks, 0)
  {
    AttemptsExactly(ticks, 0);
  }
}
