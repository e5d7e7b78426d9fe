/**
 * Model of src/components/quiz/Timer.tsx: the countdown of the `Timer`
 * component and of the `useTimer` hook, the `m:ss` clock text and the
 * low-time thresholds. One interval tick is one call of `Tick`; a tick
 * that reaches zero is the moment `onTimeUp` is called, reported as the
 * method's result. Ghost counters record how often that happened in the
 * current countdown.
 */
module Timer {
  import opened Types
  import Text

  /** One tick of the interval: the next value and whether time ran out on it. */
  function TickStep(prev: int): (r: (int, bool))
    ensures r.1 <==> prev <= 1
    ensures r.1 ==> r.0 == 0
    ensures !r.1 ==> r.0 == prev - 1
  {
    if prev <= 1 then (0, true) else (prev - 1, false)
  }

  /** A running countdown never goes below zero and never goes up. */
  lemma TickStepBounds(prev: int)
    requires prev > 0
    ensures 0 <= TickStep(prev).0 < prev
    ensures TickStep(prev).1 <==> prev == 1
  {
  }

  /** The `Timer` component's countdown. */
  class Countdown {
    var totalSeconds: int
    var timeRemaining: int
    var isPaused: bool
    /** How often `onTimeUp` was called since the countdown last (re)started. */
    ghost var timeUps: nat

    /**
     * The time left never exceeds the total and is negative only when a
     * negative total was set and never ticked; time runs out at most once
     * per countdown, and only at zero.
     */
    ghost predicate Valid()
      reads this
    {
      && timeRemaining <= totalSeconds
      && (timeRemaining >= 0 || timeRemaining == totalSeconds)
      && timeUps <= 1
      && (timeUps == 1 ==> timeRemaining == 0)
    }

    /** Mounting: the time left starts at the total. */
    constructor (totalSeconds: int, isPaused: bool)
      ensures Valid()
      ensures this.totalSeconds == totalSeconds && timeRemaining == totalSeconds
      ensures this.isPaused == isPaused && timeUps == 0
    {
      this.totalSeconds := totalSeconds;
      timeRemaining := totalSeconds;
      this.isPaused := isPaused;
      timeUps := 0;
    }

    /** A new `totalSeconds` prop restarts the countdown; the same one changes nothing. */
    method SetTotalSeconds(t: int)
      requires Valid()
      modifies this
      ensures Valid()
      ensures totalSeconds == t && isPaused == old(isPaused)
      ensures t != old(totalSeconds) ==> timeRemaining == t && timeUps == 0
      ensures t == old(totalSeconds) ==> timeRemaining == old(timeRemaining) && timeUps == old(timeUps)
    {
      if t != totalSeconds {
        totalSeconds := t;
        timeRemaining := t;
        timeUps := 0;
      }
    }

    /** The `isPaused` prop. */
    method SetPaused(p: bool)
      requires Valid()
      modifies this
      ensures Valid()
      ensures isPaused == p
      ensures totalSeconds == old(totalSeconds) && timeRemaining == old(timeRemaining) && timeUps == old(timeUps)
    {
      isPaused := p;
    }

    /**
     * One second passes. No interval runs while paused or once the time
     * left is zero or less; otherwise the time left steps down and
     * `onTimeUp` is called when it reaches zero.
     */
    method Tick() returns (timeUp: bool)
      requires Valid()
      modifies this
      ensures Valid()
      ensures totalSeconds == old(totalSeconds) && isPaused == old(isPaused)
      ensures old(isPaused) || old(timeRemaining) <= 0 ==>
        !timeUp && timeRemaining == old(timeRemaining) && timeUps == old(timeUps)
      ensures !old(isPaused) && old(timeRemaining) > 0 ==>
        (timeRemaining, timeUp) == TickStep(old(timeRemaining))
      ensures timeUp ==> old(timeUps) == 0 && timeUps == 1
    {
      if isPaused || timeRemaining <= 0 {
        return false;
      }
      var (next, up) := TickStep(timeRemaining);
      timeRemaining := next;
      timeUp := up;
      if up {
        timeUps := timeUps + 1;
      }
    }
  }

  /** The `useTimer` hook. */
  class TimerHook {
    const totalSeconds: int
    var timeRemaining: int
    var isPaused: bool
    var isFinished: bool
    /** How often `onTimeUp` was called since the last reset. */
    ghost var timeUps: nat

    /** As for `Countdown`, and the finished flag records exactly whether time ran out. */
    ghost predicate Valid()
      reads this
    {
      && timeRemaining <= totalSeconds
      && (timeRemaining >= 0 || timeRemaining == totalSeconds)
      && timeUps == (if isFinished then 1 else 0)
      && (isFinished ==> timeRemaining == 0)
    }

    constructor (totalSeconds: int)
      ensures Valid()
      ensures this.totalSeconds == totalSeconds && timeRemaining == totalSeconds
      ensures !isPaused && !isFinished
    {
      this.totalSeconds := totalSeconds;
      timeRemaining := totalSeconds;
      isPaused := false;
      isFinished := false;
      timeUps := 0;
    }

    /** reset: full time, running, not finished. */
    method Reset()
      requires Valid()
      modifies this
      ensures Valid()
      ensures timeRemaining == totalSeconds && !isFinished && !isPaused && timeUps == 0
    {
      timeRemaining := totalSeconds;
      isFinished := false;
      isPaused := false;
      timeUps := 0;
    }

    /** pause: only the paused flag changes. */
    method Pause()
      requires Valid()
      modifies this
      ensures Valid()
      ensures isPaused
      ensures timeRemaining == old(timeRemaining) && isFinished == old(isFinished) && timeUps == old(timeUps)
    {
      isPaused := true;
    }

    /** resume: only the paused flag changes. */
    method Resume()
      requires Valid()
      modifies this
      ensures Valid()
      ensures !isPaused
      ensures timeRemaining == old(timeRemaining) && isFinished == old(isFinished) && timeUps == old(timeUps)
    {
      isPaused := false;
    }

    /**
     * One second passes. Nothing happens while paused, once finished or
     * with no time left; a tick reaching zero finishes the countdown and
     * calls `onTimeUp`.
     */
    method Tick() returns (timeUp: bool)
      requires Valid()
      modifies this
      ensures Valid()
      ensures isPaused == old(isPaused)
      ensures old(isPaused) || old(isFinished) || old(timeRemaining) <= 0 ==>
        !timeUp && timeRemaining == old(timeRemaining) && isFinished == old(isFinished)
      ensures !old(isPaused) && !old(isFinished) && old(timeRemaining) > 0 ==>
        (timeRemaining, timeUp) == TickStep(old(timeRemaining)) && isFinished == timeUp
      ensures timeUp ==> old(timeUps) == 0 && timeUps == 1
    {
      if isPaused || isFinished || timeRemaining <= 0 {
        return false;
      }
      var (next, up) := TickStep(timeRemaining);
      timeRemaining := next;
      timeUp := up;
      if up {
        isFinished := true;
        timeUps := 1;
      }
    }
  }

  /**
   * A fresh countdown of n > 0 seconds, left running, runs out on exactly
   * its n-th tick.
   */
  method TicksUntilTimeUp(n: int) returns (ticks: nat)
    requires n > 0
    ensures ticks == n
  {
    var timer := new TimerHook(n);
    var up := false;
    ticks := 0;
    while !up
      invariant timer.Valid() && !timer.isPaused
      invariant timer.totalSeconds == n
      invariant up <==> timer.isFinished
      invariant !up ==> timer.timeRemaining == n - ticks > 0
      invariant up ==> ticks == n
      decreases n - ticks
    {
      up := timer.Tick();
      ticks := ticks + 1;
    }
  }

  /** JavaScript's `%` truncates toward zero: the remainder takes the dividend's sign. */
  function JsRem(a: int, b: int): (r: int)
    requires b > 0
    ensures a >= 0 ==> r == a % b
    ensures a < 0 ==> -b < r <= 0
  {
    if a >= 0 then a % b else -((-a) % b)
  }

  /** formatTime: whole minutes (rounded down), a colon and the seconds padded to two digits. */
  function FormatTime(seconds: int): string
  {
    ClockText(seconds / 60, JsRem(seconds, 60))
  }

  /** The `${mins}:${secs}` template with the seconds padded to two digits. */
  function ClockText(mins: int, secs: int): string
  {
    Text.IntToString(mins) + ":" + Text.PadStart(Text.IntToString(secs), 2, '0')
  }

  /** Reads `m:ss` back into seconds; the inverse of `FormatTime` on non-negative input. */
  function ParseClock(t: string): (r: Option<int>)
    ensures r.Some? ==> r.value >= 0
  {
    var i := Text.IndexOf(t, ':');
    if i == |t| then None
    else
      var minutes := Text.ParseNat(t[..i]);
      var secs := Text.ParseNat(t[i + 1..]);
      if minutes.Some? && secs.Some? && |t[i + 1..]| == 2 && secs.value < 60
      then Some(minutes.value * 60 + secs.value)
      else None
  }

  /** A single digit is padded with one "0". */
  lemma PaddedDigitText(secs: nat)
    requires secs < 10
    ensures Text.PadStart(Text.NatToString(secs), 2, '0') == ['0', Text.DigitChar(secs)]
  {
    var d := Text.DigitChar(secs);
    assert Text.NatToString(secs) == [d];
    assert Text.PadStart([d], 2, '0') == Text.PadStart(['0', d], 2, '0');
  }

  /** A leading "0" does not change the value of a digit. */
  lemma ParseZeroDigit(d: char)
    requires Text.IsDigit(d)
    ensures Text.ParseNat(['0', d]) == Some(Text.DigitValue(d))
  {
    Text.DigitsValueSnoc(['0'], d);
    assert ['0'] + [d] == ['0', d];
  }

  /** A single digit is padded with a "0" that does not change its value. */
  lemma PaddedDigit(secs: nat)
    requires secs < 10
    ensures Text.ParseNat(Text.PadStart(Text.NatToString(secs), 2, '0')) == Some(secs)
  {
    var d := Text.DigitChar(secs);
    PaddedDigitText(secs);
    calc {
      Text.ParseNat(Text.PadStart(Text.NatToString(secs), 2, '0'));
      Text.ParseNat(['0', d]);
      { ParseZeroDigit(d); }
      Some(Text.DigitValue(d));
    }
  }

  /** Two digits are left as they are. */
  lemma UnpaddedDigits(secs: nat)
    requires 10 <= secs < 100
    ensures Text.ParseNat(Text.PadStart(Text.NatToString(secs), 2, '0')) == Some(secs)
  {
    var digits := Text.NatToString(secs);
    assert Text.PadStart(digits, 2, '0') == digits;
    Text.ParseNatToString(secs);
  }

  /** A seconds value below 60, padded to two digits, reads back as itself. */
  lemma SecondsField(secs: nat)
    requires secs < 60
    ensures var f := Text.PadStart(Text.NatToString(secs), 2, '0');
      |f| == 2 && Text.ParseNat(f) == Some(secs)
  {
    if secs < 10 {
      PaddedDigit(secs);
    } else {
      UnpaddedDigits(secs);
    }
  }

  /** A clock text of digits, a colon and a two-digit seconds field reads as minutes * 60 + seconds. */
  lemma ParseClockOf(m: string, f: string, minutes: nat, secs: nat)
    requires Text.ParseNat(m) == Some(minutes)
    requires |f| == 2 && Text.ParseNat(f) == Some(secs) && secs < 60
    ensures ParseClock(m + ":" + f) == Some(minutes * 60 + secs)
  {
    var t := m + ":" + f;
    Text.IndexOfAfterPrefix(m, ":" + f, ':');
    assert m + ":" + f == m + (":" + f);
    assert t[..|m|] == m;
    assert t[|m| + 1..] == f;
  }

  /** The clock text of whole minutes and seconds below 60 reads back as their total. */
  lemma ClockReadsBack(minutes: nat, secs: nat)
    requires secs < 60
    ensures ParseClock(ClockText(minutes, secs)) == Some(minutes * 60 + secs)
  {
    var m := Text.NatToString(minutes);
    var f := Text.PadStart(Text.NatToString(secs), 2, '0');
    assert ClockText(minutes, secs) == m + ":" + f;
    SecondsField(secs);
    Text.ParseNatToString(minutes);
    ParseClockOf(m, f, minutes, secs);
  }

  /** Formatting a non-negative number of seconds and reading it back gives the same number. */
  lemma ParseFormatTime(seconds: int)
    requires seconds >= 0
    ensures ParseClock(FormatTime(seconds)) == Some(seconds)
  {
    var minutes, secs := seconds / 60, seconds % 60;
    calc {
      ParseClock(FormatTime(seconds));
      { assert FormatTime(seconds) == ClockText(minutes, secs); }
      ParseClock(ClockText(minutes, secs));
      { ClockReadsBack(minutes, secs); }
      Some(minutes * 60 + secs);
    }
  }

  /** Distinct non-negative times never show the same clock text. */
  lemma FormatTimeInjective(a: int, b: int)
    requires a >= 0 && b >= 0 && FormatTime(a) == FormatTime(b)
    ensures a == b
  {
    ParseFormatTime(a);
    ParseFormatTime(b);
  }

  /** isLowTime: at most a quarter of the total left (percentage <= 25). */
  predicate IsLowTime(remaining: int, total: int)
    requires total > 0
  {
    4 * remaining <= total
  }

  /** isCriticalTime: at most a tenth of the total left (percentage <= 10). */
  predicate IsCriticalTime(remaining: int, total: int)
    requires total > 0
  {
    10 * remaining <= total
  }

  /** Critical time is always low time. */
  lemma CriticalIsLow(remaining: int, total: int)
    requires total > 0 && IsCriticalTime(remaining, total)
    ensures IsLowTime(remaining, total)
  {
  }

  datatype TimeColor = Green | Yellow | Red

  /** getTimeColor / getBarColor: green above half, yellow above a quarter, red otherwise. */
  function TimeColorOf(remaining: int, total: int): (c: TimeColor)
    requires total > 0
    ensures c == Green <==> 2 * remaining > total
    ensures c == Red <==> IsLowTime(remaining, total)
  {
    if 2 * remaining > total then Green
    else if 4 * remaining > total then Yellow
    else Red
  }

  /** More time left never gives a more urgent colour. */
  lemma TimeColorMonotone(r1: int, r2: int, total: int)
    requires total > 0 && r1 <= r2
    ensures TimeColorOf(r1, total) == Green ==> TimeColorOf(r2, total) == Green
    ensures TimeColorOf(r2, total) == Red ==> TimeColorOf(r1, total) == Red
  {
  }
}
