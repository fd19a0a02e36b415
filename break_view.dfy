/**
  The long-break window (src/components/BreakView.tsx): a countdown that
  starts from the duration the dashboard stored, ticks once a second, asks
  the host to close the window when it runs out, and can be skipped.

  The timer is a class: `timeLeft` is the component's state, `running` says
  whether the one-second interval is still installed, and `closeRequests`
  counts the `close_break_window` calls made to the host.
 */
module BreakView {
  import opened JsText

  const DefaultBreakSeconds := 300

  /** `stored ? parseInt(stored) : 300`: a missing or empty value gives 300;
      text with no leading integer parses to NaN. */
  function InitialTimeLeft(stored: Option<string>): Num
  {
    if stored.None? || stored.value == "" then Int(DefaultBreakSeconds)
    else match ParseInt(stored.value)
      case Some(n) => Int(n)
      case None => NaN
  }

  /** The updater the interval applies: at 1 or below the countdown ends at
      0; above, one second is taken off. NaN compares false with 1, and
      NaN - 1 is NaN. */
  function TickValue(prev: Num): Num
  {
    match prev
    case NaN => NaN
    case Int(p) => if p <= 1 then Int(0) else Int(p - 1)
  }

  /** Whether the tick from `prev` stops the interval and asks to close the window. */
  predicate Closes(prev: Num)
  {
    prev.Int? && prev.i <= 1
  }

  /** What the dashboard hands over is read back exactly: the window opened
      for a long break of `seconds` starts its countdown at `seconds`. */
  lemma HandOffReadsBack(seconds: int)
    ensures InitialTimeLeft(Some(IntToString(seconds))) == Int(seconds)
  {
    ParseIntOfIntToString(seconds);
    assert IntToString(seconds) != "";
  }

  /** One tick: the count never goes below 0, close is asked for exactly on
      the tick that reaches 0, and from above 1 the count goes down by one. */
  lemma TickSpec(prev: Num)
    ensures TickValue(prev).Int? <==> prev.Int?
    ensures TickValue(prev).Int? ==> TickValue(prev).i >= 0
    ensures Closes(prev) <==> TickValue(prev) == Int(0)
    ensures prev.Int? && prev.i > 1 ==> TickValue(prev) == Int(prev.i - 1) && !Closes(prev)
  {
  }

  /** The value after k ticks, had the interval kept running. */
  function After(prev: Num, k: nat): Num
    decreases k
  {
    if k == 0 then prev else After(TickValue(prev), k - 1)
  }

  /** From n at least 1, the first n - 1 ticks do not close and leave
      n - k seconds; the n-th tick closes and leaves 0. */
  lemma {:induction false} CountdownTakesN(n: int, k: nat)
    requires 1 <= n && k < n
    ensures After(Int(n), k) == Int(n - k)
    ensures !Closes(After(Int(n), k)) <==> k < n - 1
    ensures TickValue(After(Int(n), n - 1)) == Int(0)
  {
    if k > 0 {
      CountdownTakesN(n - 1, k - 1);
    }
    if n > 1 {
      CountdownTakesN(n - 1, n - 2);
    }
  }

  /** A NaN countdown never closes the window. */
  lemma {:induction false} NaNNeverCloses(k: nat)
    ensures After(NaN, k) == NaN && !Closes(After(NaN, k))
  {
    if k > 0 {
      NaNNeverCloses(k - 1);
    }
  }

  class BreakTimer {
    var timeLeft: Num
    var running: bool
    var closeRequests: nat

    /** Mounting: read the stored duration and install the interval. */
    constructor(stored: Option<string>)
      ensures timeLeft == InitialTimeLeft(stored)
      ensures running && closeRequests == 0
    {
      timeLeft := InitialTimeLeft(stored);
      running := true;
      closeRequests := 0;
    }

    /** One firing of the interval: apply the updater; when it ends the
        countdown, clear the interval and ask the host to close. */
    method Tick()
      requires running
      modifies this
      ensures timeLeft == TickValue(old(timeLeft))
      ensures running == !Closes(old(timeLeft))
      ensures closeRequests == old(closeRequests) + (if Closes(old(timeLeft)) then 1 else 0)
    {
      var prev := timeLeft;
      if prev.Int? && prev.i <= 1 {
        running := false;
        closeRequests := closeRequests + 1;
        timeLeft := Int(0);
      } else {
        timeLeft := TickValue(prev);
      }
    }

    /** The skip button asks the host to close at once; the countdown itself
        is left as it is. */
    method Skip()
      modifies this
      ensures closeRequests == old(closeRequests) + 1
      ensures timeLeft == old(timeLeft) && running == old(running)
    {
      closeRequests := closeRequests + 1;
    }

    /** Let the interval fire until it clears itself. From n it fires n times
        when n is at least 1, and once otherwise; close is asked for exactly
        once and the count ends at 0. */
    method RunToClose() returns (ticks: nat)
      requires running && timeLeft.Int?
      modifies this
      ensures ticks == if old(timeLeft).i >= 1 then old(timeLeft).i else 1
      ensures timeLeft == Int(0) && !running
      ensures closeRequests == old(closeRequests) + 1
    {
      ticks := 0;
      ghost var n := timeLeft.i;
      while running
        invariant timeLeft.Int?
        invariant running ==> timeLeft.i >= 1 || ticks == 0
        invariant running ==> closeRequests == old(closeRequests)
        invariant running && ticks > 0 ==> timeLeft == Int(n - ticks)
        invariant running && ticks == 0 ==> timeLeft == Int(n)
        invariant !running ==> timeLeft == Int(0) && closeRequests == old(closeRequests) + 1
        invariant !running ==> ticks == if n >= 1 then n else 1
        decreases if running then (if timeLeft.i >= 1 then timeLeft.i else 1) else 0
      {
        Tick();
        ticks := ticks + 1;
      }
    }
  }
}
